/**
 How an invoice is paid: the payment guards of `InvoicesService.create`, the breakdown that is stored
 with the order, and the shift summary that later trusts that breakdown.
 */
module Payments {
  import opened Options
  import opened Rounding

  datatype PaymentMethod = Cash | Card | Split | Wallet | Mada | Visa | Mastercard | StcPay | ApplePay | Tab

  datatype Tender = Tender(paymentMethod: PaymentMethod, cashTendered: Option<real>, cashAmount: Option<real>,
                           cardAmount: Option<real>, hasCustomer: bool)

  datatype PaymentError =
    | CashTenderedRequired
    | InsufficientCashTendered
    | SplitAmountsRequired
    | SplitDoesNotCoverTotal
    | NegativeSplitAmount
    | SplitNotExact
    | CustomerRequiredForTab

  /** The payment columns of an order row: NUMERIC(10,2), so in cents. */
  datatype PaymentRow = PaymentRow(total: int, paymentMethod: PaymentMethod, cashAmount: Option<int>, cardAmount: Option<int>)

  /** `!dto.cash_tendered` also refuses a tendered 0, even for a total of 0. */
  function CheckPayment(total: int, t: Tender): Option<PaymentError> {
    match t.paymentMethod
    case Cash =>
      if t.cashTendered.None? || t.cashTendered.value == 0.0 then Some(CashTenderedRequired)
      else if t.cashTendered.value < Amount(total) then Some(InsufficientCashTendered)
      else None
    case Split =>
      if t.cashAmount.None? || t.cardAmount.None? then Some(SplitAmountsRequired)
      else if ToCents(t.cashAmount.value + t.cardAmount.value) < total then Some(SplitDoesNotCoverTotal)
      else if t.cashAmount.value < 0.0 || t.cardAmount.value < 0.0 then Some(NegativeSplitAmount)
      else if ToCents(t.cashAmount.value + t.cardAmount.value) != total then Some(SplitNotExact)
      else None
    case Tab => if t.hasCustomer then None else Some(CustomerRequiredForTab)
    case _ => None
  }

  function StoredAmount(x: Option<real>): Option<int> {
    if x.Some? then Some(ToCents(x.value)) else None
  }

  /** The breakdown is stored for split payments only, rounded by its NUMERIC(10,2) columns. */
  function StoredPayment(total: int, t: Tender): PaymentRow {
    if t.paymentMethod.Split?
    then PaymentRow(total, Split, StoredAmount(t.cashAmount), StoredAmount(t.cardAmount))
    else PaymentRow(total, t.paymentMethod, None, None)
  }

  /** The four CHECK constraints on an order's breakdown. */
  predicate RowChecks(r: PaymentRow) {
    && (r.cashAmount.Some? ==> r.cashAmount.value >= 0)
    && (r.cardAmount.Some? ==> r.cardAmount.value >= 0)
    && (r.paymentMethod.Split? || (r.cashAmount.None? && r.cardAmount.None?))
    && ((r.cashAmount.None? && r.cardAmount.None?)
        || (r.cashAmount.Some? && r.cardAmount.Some? && r.cashAmount.value + r.cardAmount.value == r.total))
  }

  /** The table accepts a row exactly without a breakdown, or for a split whose two parts are there, not negative and together the total. */
  lemma TableAcceptsIff(r: PaymentRow)
    ensures RowChecks(r) <==>
              || (r.cashAmount == None && r.cardAmount == None)
              || (r.paymentMethod == Split && r.cashAmount.Some? && r.cardAmount.Some?
                  && r.cashAmount.value >= 0 && r.cardAmount.value >= 0 && r.cashAmount.value + r.cardAmount.value == r.total)
  {
  }

  /**
   A payment that passes the guards is stored if and only if it is not a split whose two parts stop
   adding up once each is rounded to cents on its own; parts that are whole cents always do add up.
   */
  lemma GuardedPaymentStoredIff(total: int, t: Tender)
    requires CheckPayment(total, t).None?
    ensures RowChecks(StoredPayment(total, t)) <==>
              (t.paymentMethod.Split? ==> ToCents(t.cashAmount.value) + ToCents(t.cardAmount.value)
                                          == ToCents(t.cashAmount.value + t.cardAmount.value))
    ensures forall cash: int, card: int ::
              t.cashAmount == Some(Amount(cash)) && t.cardAmount == Some(Amount(card)) ==> RowChecks(StoredPayment(total, t))
  {
    forall cash: int, card: int | t.cashAmount == Some(Amount(cash)) && t.cardAmount == Some(Amount(card))
      ensures RowChecks(StoredPayment(total, t))
    {
      assert Amount(cash) + Amount(card) == Amount(cash + card);
      ToCentsOfAmount(cash);
      ToCentsOfAmount(card);
      ToCentsOfAmount(cash + card);
    }
  }

  /** 1.005 in cash and 1.005 by card pass every guard for a total of 2.01, and are refused by the table. */
  lemma GuardedSplitRefusedByTable(hasCustomer: bool)
    ensures var t := Tender(Split, None, Some(1.005), Some(1.005), hasCustomer);
            CheckPayment(201, t).None? && !RowChecks(StoredPayment(201, t))
  {
    assert (1.005 * 100.0 + 0.5).Floor == 101;
    assert (2.01 * 100.0 + 0.5).Floor == 201;
  }

  /** When a payment is accepted: enough cash that is not nothing, two parts that make up the total, a customer for the tab; anything else always. */
  lemma PaymentAcceptedIff(total: int, t: Tender)
    ensures CheckPayment(total, t).None? <==>
              && (t.paymentMethod == Cash ==>
                    t.cashTendered.Some? && t.cashTendered.value != 0.0 && t.cashTendered.value >= total as real / 100.0)
              && (t.paymentMethod == Split ==>
                    && t.cashAmount.Some? && t.cardAmount.Some? && t.cashAmount.value >= 0.0 && t.cardAmount.value >= 0.0
                    && ToCents(t.cashAmount.value + t.cardAmount.value) == total)
              && (t.paymentMethod == Tab ==> t.hasCustomer)
  {
  }

  /** Why a payment is refused. */
  lemma PaymentRefusals(total: int, t: Tender, e: PaymentError)
    ensures CheckPayment(total, t) == Some(e) <==>
              var missing := t.cashAmount.None? || t.cardAmount.None?;
              var paid := if missing then 0 else ToCents(t.cashAmount.value + t.cardAmount.value);
              match e
              case CashTenderedRequired => t.paymentMethod == Cash && (t.cashTendered.None? || t.cashTendered == Some(0.0))
              case InsufficientCashTendered =>
                t.paymentMethod == Cash && t.cashTendered.Some? && t.cashTendered.value != 0.0 && t.cashTendered.value < total as real / 100.0
              case SplitAmountsRequired => t.paymentMethod == Split && missing
              case SplitDoesNotCoverTotal => t.paymentMethod == Split && !missing && paid < total
              case NegativeSplitAmount =>
                t.paymentMethod == Split && !missing && paid >= total && (t.cashAmount.value < 0.0 || t.cardAmount.value < 0.0)
              case SplitNotExact =>
                t.paymentMethod == Split && !missing && paid > total && t.cashAmount.value >= 0.0 && t.cardAmount.value >= 0.0
              case CustomerRequiredForTab => t.paymentMethod == Tab && !t.hasCustomer
  {
  }

  /** The order row keeps total and method, and the breakdown of a split payment only, each part to the nearest cent. */
  lemma StoredAsPaid(total: int, t: Tender)
    ensures var row := StoredPayment(total, t);
            && row.total == total && row.paymentMethod == t.paymentMethod
            && (t.paymentMethod != Split ==> row.cashAmount.None? && row.cardAmount.None?)
            && (t.paymentMethod == Split ==>
                  && (row.cashAmount.Some? <==> t.cashAmount.Some?) && (row.cardAmount.Some? <==> t.cardAmount.Some?)
                  && (t.cashAmount.Some? ==> -0.005 <= row.cashAmount.value as real / 100.0 - t.cashAmount.value <= 0.005)
                  && (t.cardAmount.Some? ==> -0.005 <= row.cardAmount.value as real / 100.0 - t.cardAmount.value <= 0.005))
  {
    if t.cashAmount.Some? { ToCentsHalfCent(t.cashAmount.value); }
    if t.cardAmount.Some? { ToCentsHalfCent(t.cardAmount.value); }
  }

  /** Tendering exactly what is due pays for a sale unless nothing is due. */
  lemma ExactCashAcceptedIff(total: int, t: Tender)
    requires t.paymentMethod.Cash? && t.cashTendered == Some(Amount(total))
    ensures CheckPayment(total, t).None? <==> total != 0
  {
    assert Amount(total) == 0.0 <==> total == 0;
  }

  // ----- shift summary -----

  datatype Expense = Expense(amount: int, status: string)

  datatype ShiftSummary = ShiftSummary(totalInvoices: nat, totalRevenue: int, totalCash: int, totalCard: int,
                                       totalExpenses: int, expectedCash: int, discrepancy: int)

  function OrZero(x: Option<int>): int {
    if x.Some? then x.value else 0
  }

  function TotalRevenue(orders: seq<PaymentRow>): int {
    if orders == [] then 0 else TotalRevenue(orders[..|orders| - 1]) + orders[|orders| - 1].total
  }

  function TotalCash(orders: seq<PaymentRow>): int {
    if orders == [] then 0 else
    var o := orders[|orders| - 1];
    TotalCash(orders[..|orders| - 1]) +
    (match o.paymentMethod case Cash => o.total case Split => OrZero(o.cashAmount) case _ => 0)
  }

  function TotalCard(orders: seq<PaymentRow>): int {
    if orders == [] then 0 else
    var o := orders[|orders| - 1];
    TotalCard(orders[..|orders| - 1]) +
    (match o.paymentMethod case Card => o.total case Split => OrZero(o.cardAmount) case _ => 0)
  }

  function TotalExpenses(expenses: seq<Expense>): int {
    if expenses == [] then 0 else
    var e := expenses[|expenses| - 1];
    TotalExpenses(expenses[..|expenses| - 1]) + if e.status == "approved" then e.amount else 0
  }

  function BuildShiftSummary(openingCash: int, closingCash: int, orders: seq<PaymentRow>, expenses: seq<Expense>): ShiftSummary {
    var expected := openingCash + TotalCash(orders) - TotalExpenses(expenses);
    ShiftSummary(|orders|, TotalRevenue(orders), TotalCash(orders), TotalCard(orders), TotalExpenses(expenses),
                 expected, closingCash - expected)
  }

  /** The orders of one method, and those whose money is in neither bucket. */
  function OfMethod(orders: seq<PaymentRow>, m: PaymentMethod): seq<PaymentRow> {
    if orders == [] then []
    else OfMethod(orders[..|orders| - 1], m) + if orders[|orders| - 1].paymentMethod == m then [orders[|orders| - 1]] else []
  }

  predicate Unbucketed(o: PaymentRow) {
    && !o.paymentMethod.Cash? && !o.paymentMethod.Card?
    && (o.paymentMethod.Split? ==> o.cashAmount.None?)
  }

  function UnbucketedOrders(orders: seq<PaymentRow>): seq<PaymentRow> {
    if orders == [] then []
    else UnbucketedOrders(orders[..|orders| - 1]) + if Unbucketed(orders[|orders| - 1]) then [orders[|orders| - 1]] else []
  }

  function CashParts(orders: seq<PaymentRow>): int {
    if orders == [] then 0 else CashParts(orders[..|orders| - 1]) + OrZero(orders[|orders| - 1].cashAmount)
  }

  lemma TotalRevenueAppend(a: seq<PaymentRow>, o: PaymentRow)
    ensures TotalRevenue(a + [o]) == TotalRevenue(a) + o.total
    ensures CashParts(a + [o]) == CashParts(a) + OrZero(o.cashAmount)
  {
    assert (a + [o])[..|a|] == a;
  }

  /**
   Over any stored orders, revenue that is neither cash nor card is exactly the revenue of the orders
   paid in other ways, plus the split orders that predate the stored breakdown.
   */
  lemma {:induction false} RevenueReconciles(orders: seq<PaymentRow>)
    requires forall i :: 0 <= i < |orders| ==> RowChecks(orders[i])
    ensures TotalRevenue(orders) - TotalCash(orders) - TotalCard(orders) == TotalRevenue(UnbucketedOrders(orders))
  {
    if orders != [] {
      var init, o := orders[..|orders| - 1], orders[|orders| - 1];
      RevenueReconciles(init);
      if Unbucketed(o) { TotalRevenueAppend(UnbucketedOrders(init), o); }
      else { assert UnbucketedOrders(init) + [] == UnbucketedOrders(init); }
    }
  }

  lemma OfMethodSnoc(orders: seq<PaymentRow>, m: PaymentMethod)
    requires orders != []
    ensures var (init, o) := (orders[..|orders| - 1], orders[|orders| - 1]);
            OfMethod(orders, m) == if o.paymentMethod == m then OfMethod(init, m) + [o] else OfMethod(init, m)
  {
    assert OfMethod(orders[..|orders| - 1], m) + [] == OfMethod(orders[..|orders| - 1], m);
  }

  lemma {:induction false} CashByMethod(orders: seq<PaymentRow>)
    ensures TotalCash(orders) == TotalRevenue(OfMethod(orders, Cash)) + CashParts(OfMethod(orders, Split))
  {
    hide OfMethod, TotalRevenue, CashParts, OrZero;
    if orders == [] {
      NoOrders();
    } else {
      var init, o := orders[..|orders| - 1], orders[|orders| - 1];
      CashByMethod(init);
      OfMethodSnoc(orders, Cash); OfMethodSnoc(orders, Split);
      TotalRevenueAppend(OfMethod(init, Cash), o); TotalRevenueAppend(OfMethod(init, Split), o);
    }
  }

  lemma NoOrders()
    ensures forall m :: OfMethod([], m) == []
    ensures TotalRevenue([]) == 0 && CashParts([]) == 0
  {
  }

  /** Expected cash is the opening cash, the cash sales and the cash parts of split sales, less the approved expenses. */
  lemma ExpectedCashIsCashTaken(openingCash: int, closingCash: int, orders: seq<PaymentRow>, expenses: seq<Expense>)
    ensures BuildShiftSummary(openingCash, closingCash, orders, expenses).expectedCash
         == openingCash + TotalRevenue(OfMethod(orders, Cash)) + CashParts(OfMethod(orders, Split)) - SumOver(expenses, ApprovedAmount)
  {
    CashByMethod(orders);
    ExpensesAddUp(expenses);
  }

  // ----- the summary, order by order -----

  /** The amounts that each order or expense adds to one line of the summary. */
  function RevenueOf(o: PaymentRow): int { o.total }

  function CashOf(o: PaymentRow): int {
    if o.paymentMethod == Cash then o.total else if o.paymentMethod == Split && o.cashAmount.Some? then o.cashAmount.value else 0
  }

  function CardOf(o: PaymentRow): int {
    if o.paymentMethod == Card then o.total else if o.paymentMethod == Split && o.cardAmount.Some? then o.cardAmount.value else 0
  }

  function ApprovedAmount(e: Expense): int {
    if e.status == "approved" then e.amount else 0
  }

  function SumOver<T>(xs: seq<T>, amount: T -> int): int {
    Sum(seq(|xs|, i requires 0 <= i < |xs| => amount(xs[i])))
  }

  lemma SumOverSnoc<T>(xs: seq<T>, amount: T -> int)
    requires xs != []
    ensures SumOver(xs, amount) == SumOver(xs[..|xs| - 1], amount) + amount(xs[|xs| - 1])
  {
    var n := |xs| - 1;
    var all, init := seq(|xs|, i requires 0 <= i < |xs| => amount(xs[i])), seq(n, i requires 0 <= i < n => amount(xs[..n][i]));
    assert all[..n] == init;
  }

  lemma {:induction false} OrdersAddUp(orders: seq<PaymentRow>)
    ensures TotalRevenue(orders) == SumOver(orders, RevenueOf)
    ensures TotalCash(orders) == SumOver(orders, CashOf)
    ensures TotalCard(orders) == SumOver(orders, CardOf)
  {
    if orders != [] {
      OrdersAddUp(orders[..|orders| - 1]);
      SumOverSnoc(orders, RevenueOf); SumOverSnoc(orders, CashOf); SumOverSnoc(orders, CardOf);
    }
  }

  lemma {:induction false} ExpensesAddUp(expenses: seq<Expense>)
    ensures TotalExpenses(expenses) == SumOver(expenses, ApprovedAmount)
  {
    if expenses != [] {
      ExpensesAddUp(expenses[..|expenses| - 1]);
      SumOverSnoc(expenses, ApprovedAmount);
    }
  }

  /** Every line of the summary, summed over the orders and expenses one by one; only approved expenses count. */
  lemma SummaryAddsUp(openingCash: int, closingCash: int, orders: seq<PaymentRow>, expenses: seq<Expense>)
    ensures var t := BuildShiftSummary(openingCash, closingCash, orders, expenses);
            && t.totalInvoices == |orders| && t.totalRevenue == SumOver(orders, RevenueOf)
            && t.totalCash == SumOver(orders, CashOf) && t.totalCard == SumOver(orders, CardOf)
            && t.totalExpenses == SumOver(expenses, ApprovedAmount)
            && t.expectedCash == openingCash + SumOver(orders, CashOf) - SumOver(expenses, ApprovedAmount)
            && t.discrepancy == closingCash - t.expectedCash
  {
    OrdersAddUp(orders);
    ExpensesAddUp(expenses);
  }

  /**
   How the summary moves with one more order and one more expense: revenue by every total, cash by a cash total or the cash part of a
   split, card likewise, and the cash expected by the cash taken less an approved expense.
   */
  lemma SummaryMoves(openingCash: int, closingCash: int, orders: seq<PaymentRow>, o: PaymentRow, expenses: seq<Expense>, e: Expense)
    ensures BuildShiftSummary(openingCash, closingCash, [], []) == ShiftSummary(0, 0, 0, 0, 0, openingCash, closingCash - openingCash)
    ensures var (t, t') := (BuildShiftSummary(openingCash, closingCash, orders, expenses), BuildShiftSummary(openingCash, closingCash, orders + [o], expenses + [e]));
            var cash := if o.paymentMethod == Cash then o.total else if o.paymentMethod == Split && o.cashAmount.Some? then o.cashAmount.value else 0;
            var card := if o.paymentMethod == Card then o.total else if o.paymentMethod == Split && o.cardAmount.Some? then o.cardAmount.value else 0;
            var spent := if e.status == "approved" then e.amount else 0;
            t' == ShiftSummary(t.totalInvoices + 1, t.totalRevenue + o.total, t.totalCash + cash, t.totalCard + card,
                               t.totalExpenses + spent, t.expectedCash + cash - spent, t.discrepancy - cash + spent)
  {
    assert (orders + [o])[..|orders|] == orders && (expenses + [e])[..|expenses|] == expenses;
  }
}
