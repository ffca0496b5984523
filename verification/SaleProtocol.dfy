/**
 `InvoicesService.create` as a protocol: any number of requests run at once, each as a sequence of
 separate steps (look up the attempt, validate, redeem points, insert, effects after the sale), against
 one store whose unique key on (tenant, sale attempt) is the only thing they share.
 */
module SaleProtocol {
  import opened Options
  import opened Rounding
  import opened PriceResolution
  import opened PricedLines
  import opened Payments
  import PosEngine

  type OrderId = nat
  type RequestId = nat

  // ----- the store -----

  /** `request` records which request inserted the row. */
  datatype OrderRow = OrderRow(tenant: string, attempt: string, subtotal: int, discount: int, tax: int,
                               payment: PaymentRow, request: RequestId)

  datatype ItemRow = ItemRow(itemId: string, quantity: real, price: int, officialSnapshot: int)

  datatype AuditRow = AuditRow(order: OrderId, line: nat, official: int, approved: int)

  datatype Effect =
    | PointsRedeemed(request: RequestId)
    | CouponRedeemed(order: OrderId)
    | StockDeducted(order: OrderId)
    | PointsAwarded(order: OrderId)

  datatype Store = Store(orders: map<OrderId, OrderRow>, items: map<OrderId, seq<ItemRow>>, audits: set<AuditRow>,
                         points: map<string, real>, effects: multiset<Effect>)

  predicate Taken(st: Store, tenant: string, attempt: string) {
    exists id :: id in st.orders && st.orders[id].tenant == tenant && st.orders[id].attempt == attempt
  }

  ghost function FindBySaleAttemptId(st: Store, tenant: string, attempt: string): (found: Option<OrderId>)
    ensures found.Some? <==> Taken(st, tenant, attempt)
    ensures found.Some? ==> found.value in st.orders && st.orders[found.value].tenant == tenant
                            && st.orders[found.value].attempt == attempt
  {
    if Taken(st, tenant, attempt) then
      var id :| id in st.orders && st.orders[id].tenant == tenant && st.orders[id].attempt == attempt;
      Some(id)
    else None
  }

  // ----- requests -----

  datatype SaleDto = SaleDto(attempt: string, lines: seq<SaleLine>, discount: Option<PosEngine.Discount>,
                             customer: Option<string>, tender: Tender, redeemPoints: Option<real>, hasCoupon: bool)

  /** What one request reads while it validates; it may differ between requests. */
  datatype Environment = Environment(sessionOpen: bool, customerFound: bool, taxRate: real, loyalty: PosEngine.LoyaltySettings,
                         balance: real, pricing: Context, coupon: Option<PosEngine.Coupon>, pooledWrites: bool)

  datatype Rejection =
    | NoOpenSession
    | CustomerNotFound
    | LoyaltyDisabled
    | CustomerRequiredToRedeem
    | InsufficientPoints
    | PriceRefused(line: nat, code: ReasonCode)
    | AtomicWriteRequired
    | CouponRejected
    | PaymentRejected(error: PaymentError)
    | AccountingRefused

  datatype DraftLine = DraftLine(itemId: string, quantity: real, resolution: Resolution)

  /** A fully validated sale, not written yet. */
  datatype Draft = Draft(lines: seq<DraftLine>, totals: PosEngine.Totals, payment: PaymentRow, customer: Option<string>,
                         redeemPoints: Option<real>, hasCoupon: bool, loyalty: PosEngine.LoyaltySettings, pooled: bool)

  datatype Response = Created(order: OrderId) | Conflict(order: OrderId) | RejectedSale(why: Rejection) | Failed

  datatype Phase =
    | Started
    | Checked
    | Ready(draft: Draft)
    | Redeemed(draft: Draft)
    | ViolationSeen
    | HeaderInserted(draft: Draft, order: OrderId)
    | Committed(draft: Draft, order: OrderId, stage: nat)
    | Finished(response: Response)

  datatype SaleRequest = SaleRequest(tenant: string, dto: SaleDto, phase: Phase)

  datatype System = System(store: Store, requests: map<RequestId, SaleRequest>)

  // ----- validation: everything before the first write -----

  predicate ValidDto(dto: SaleDto) {
    ValidLines(dto.lines)
  }

  function WantsRedemption(dto: SaleDto): bool {
    dto.redeemPoints.Some? && dto.redeemPoints.value != 0.0
  }

  function Reductions(dto: SaleDto, env: Environment): PosEngine.Reductions {
    PosEngine.Reductions(dto.discount, if dto.hasCoupon then env.coupon else None,
                         if WantsRedemption(dto) then dto.redeemPoints.value else 0.0, env.loyalty, env.taxRate)
  }

  function Validate(dto: SaleDto, env: Environment): (phase: Phase)
    requires ValidDto(dto)
    ensures phase.Ready? || (phase.Finished? && phase.response.RejectedSale?)
  {
    var reject := (why: Rejection) => Finished(RejectedSale(why));
    if !env.sessionOpen then reject(NoOpenSession)
    else if dto.customer.Some? && !env.customerFound then reject(CustomerNotFound)
    else if WantsRedemption(dto) && !env.loyalty.enabled then reject(LoyaltyDisabled)
    else if WantsRedemption(dto) && dto.customer.None? then reject(CustomerRequiredToRedeem)
    else if WantsRedemption(dto) && env.balance < dto.redeemPoints.value then reject(InsufficientPoints)
    else
      match PriceLines(env.pricing, dto.lines, dto.discount.Some?)
      case Refused(line, code) => reject(PriceRefused(line, code))
      case Priced(results) =>
        if (exists i :: 0 <= i < |results| && results[i].Approved?) && !env.pooledWrites then reject(AtomicWriteRequired)
        else if dto.hasCoupon && env.coupon.None? then reject(CouponRejected)
        else
          var totals := PosEngine.Checkout(PricedAs(dto.lines, results), Reductions(dto, env));
          var error := CheckPayment(totals.total, dto.tender);
          if error.Some? then reject(PaymentRejected(error.value))
          else Ready(Draft(DraftLines(dto.lines, results), totals, StoredPayment(totals.total, dto.tender), dto.customer,
                           if WantsRedemption(dto) then dto.redeemPoints else None, dto.hasCoupon, env.loyalty,
                           env.pooledWrites))
  }

  function DraftLines(lines: seq<SaleLine>, results: seq<Resolution>): seq<DraftLine>
    requires |lines| == |results|
  {
    seq(|lines|, i requires 0 <= i < |lines| => DraftLine(lines[i].itemId, lines[i].quantity, results[i]))
  }

  /** What validation guarantees about every draft it lets through. */
  predicate DraftOk(d: Draft) {
    && (forall i :: 0 <= i < |d.lines| ==> !d.lines[i].resolution.Rejected? && (d.lines[i].resolution.Approved? ==> d.pooled))
    && (d.payment.paymentMethod.Split? ==> d.payment.cashAmount.Some? && d.payment.cardAmount.Some?)
    && d.payment.total == d.totals.total == d.totals.subtotal - d.totals.discount + d.totals.tax
    && d.totals.discount <= d.totals.subtotal
  }

  /** The client's own lines, at the client's own prices. */
  function RequestedLines(dto: SaleDto): seq<PosEngine.Line> {
    seq(|dto.lines|, i requires 0 <= i < |dto.lines| => PosEngine.Line(dto.lines[i].unitPrice, dto.lines[i].quantity))
  }

  /** The draft sells what was asked for: a price is never silently changed, it is confirmed or the sale is refused. */
  predicate DraftFits(dto: SaleDto, d: Draft) {
    && DraftOk(d)
    && |d.lines| == |dto.lines|
    && (forall i :: 0 <= i < |d.lines| ==>
          && d.lines[i].itemId == dto.lines[i].itemId && d.lines[i].quantity == dto.lines[i].quantity
          && FinalPrice(d.lines[i].resolution) == dto.lines[i].unitPrice)
    && d.totals.subtotal == PosEngine.CalculateSubtotal(RequestedLines(dto))
  }

  lemma ValidateGivesFittingDraft(dto: SaleDto, env: Environment)
    requires ValidDto(dto)
    ensures Validate(dto, env).Ready? ==> DraftFits(dto, Validate(dto, env).draft)
  {
    hide PosEngine.ApplyDiscount, PosEngine.CouponPart, PosEngine.RedemptionValue, PosEngine.ApplyTax, Times, PriceLines,
         CheckPayment, ResolvePrice, PosEngine.ExactSubtotal;
    if Validate(dto, env).Ready? {
      var results := PriceLines(env.pricing, dto.lines, dto.discount.Some?).results;
      var lines, r := PricedAs(dto.lines, results), Reductions(dto, env);
      var t := PosEngine.Checkout(lines, r);
      PosEngine.TotalIsExact(t.subtotal, t.discount, t.tax);
      if dto.tender.paymentMethod.Split? { SplitHasBothParts(t.total, dto.tender); }
      forall i | 0 <= i < |results| ensures FinalPrice(results[i]) == dto.lines[i].unitPrice {
        ApprovedIffAllConditionsHold(env.pricing, RequestOf(dto.lines[i], dto.discount.Some?));
      }
      assert lines == RequestedLines(dto);
    }
  }

  lemma SplitHasBothParts(total: int, t: Tender)
    requires CheckPayment(total, t).None? && t.paymentMethod.Split?
    ensures t.cashAmount.Some? && t.cardAmount.Some?
  {
  }

  // ----- the rows of a sale -----

  function OrderRowOf(tenant: string, attempt: string, d: Draft, rid: RequestId): OrderRow {
    OrderRow(tenant, attempt, d.totals.subtotal, d.totals.discount, d.totals.tax, d.payment, rid)
  }

  function ItemRows(d: Draft): (rows: seq<ItemRow>)
    requires DraftOk(d)
    ensures |rows| == |d.lines|
  {
    seq(|d.lines|, i requires 0 <= i < |d.lines| =>
      ItemRow(d.lines[i].itemId, d.lines[i].quantity, ToCents(FinalPrice(d.lines[i].resolution)), d.lines[i].resolution.official))
  }

  function AuditRows(d: Draft, id: OrderId): set<AuditRow> {
    set i | 0 <= i < |d.lines| && d.lines[i].resolution.Approved? ::
      AuditRow(id, i, d.lines[i].resolution.official, ToCents(d.lines[i].resolution.approved))
  }

  /** One committed transaction: order, items, audit rows. */
  function WithSale(st: Store, id: OrderId, order: OrderRow, d: Draft): Store
    requires DraftOk(d)
  {
    st.(orders := st.orders[id := order], items := st.items[id := ItemRows(d)], audits := st.audits + AuditRows(d, id))
  }

  // ----- steps -----

  /** What the database does to the insert beyond its own checks; posting to the accounts is part of the pooled transaction. */
  datatype InsertFault = NoInsertFault | StatementFails | PostingRefuses

  /** Every choice the environment makes, faults and crashes included, is a parameter of the action. */
  datatype Action =
    | Check
    | DoValidate(env: Environment)
    | Redeem(fault: bool)
    | Insert(id: OrderId, insertFault: InsertFault)
    | InsertItems(fault: bool)
    | LookUpViolation
    | AfterSale(happens: bool, tierMultiplier: real)
    | Crash

  datatype Step =
    | Arrive(rid: RequestId, tenant: string, dto: SaleDto)
    | Act(rid: RequestId, action: Action)

  /** What an action leaves behind: the store, and the phase of the request that took it. */
  datatype Moved = Moved(store: Store, phase: Phase)

  function Advance(s: System, rid: RequestId, m: Moved): System
    requires rid in s.requests
  {
    System(m.store, s.requests[rid := s.requests[rid].(phase := m.phase)])
  }

  ghost function Exec(s: System, step: Step): System {
    match step
    case Arrive(rid, tenant, dto) =>
      if rid in s.requests || !ValidDto(dto) then s
      else s.(requests := s.requests[rid := SaleRequest(tenant, dto, Started)])
    case Act(rid, action) =>
      if rid in s.requests then Advance(s, rid, ActionOutcome(s.store, rid, s.requests[rid], action)) else s
  }

  /** An action reads the store and its own request only. One whose phase does not match changes nothing. */
  ghost function ActionOutcome(st: Store, rid: RequestId, r: SaleRequest, action: Action): Moved {
    match (action, r.phase)
    case (Check, Started) => Moved(st, CheckPhase(st, r))
    case (DoValidate(env), Checked) => if ValidDto(r.dto) then Moved(st, Validate(r.dto, env)) else Moved(st, r.phase)
    case (Redeem(fault), Ready(d)) => RedeemOutcome(st, rid, d, fault)
    case (Insert(id, fault), Redeemed(d)) => if DraftOk(d) then InsertOutcome(st, rid, r, d, id, fault) else Moved(st, r.phase)
    case (InsertItems(fault), HeaderInserted(d, id)) => if DraftOk(d) then ItemsOutcome(st, d, id, fault) else Moved(st, r.phase)
    case (LookUpViolation, ViolationSeen) => Moved(st, LookUpPhase(st, r))
    case (AfterSale(happens, tierMultiplier), Committed(d, id, stage)) => AfterSaleOutcome(st, d, id, stage, happens, tierMultiplier)
    case (Crash, Finished(_)) => Moved(st, r.phase)
    case (Crash, _) => Moved(st, Finished(Failed))
    case _ => Moved(st, r.phase)
  }

  ghost function CheckPhase(st: Store, r: SaleRequest): Phase {
    var found := FindBySaleAttemptId(st, r.tenant, r.dto.attempt);
    if found.Some? then Finished(Conflict(found.value)) else Checked
  }

  ghost function LookUpPhase(st: Store, r: SaleRequest): Phase {
    var found := FindBySaleAttemptId(st, r.tenant, r.dto.attempt);
    if found.Some? then Finished(Conflict(found.value)) else Finished(Failed)
  }

  /** The sale redeems points. */
  predicate Pays(d: Draft) {
    d.redeemPoints.Some? && d.redeemPoints.value > 0.0 && d.customer.Some?
  }

  /** The balance is decremented only when it covers the points, in one guarded update. */
  function RedeemOutcome(st: Store, rid: RequestId, d: Draft, fault: bool): Moved {
    if !Pays(d) then Moved(st, Redeemed(d))
    else if fault then Moved(st, Finished(Failed))
    else if d.customer.value !in st.points || st.points[d.customer.value] < d.redeemPoints.value
    then Moved(st, Finished(RejectedSale(InsufficientPoints)))
    else
      Moved(st.(points := st.points[d.customer.value := st.points[d.customer.value] - d.redeemPoints.value],
                effects := st.effects + multiset{PointsRedeemed(rid)}),
            Redeemed(d))
  }

  /**
   Pooled: order, items and audit rows in one transaction, undone when the posting is refused. Otherwise: the order
   row alone, and no posting.
   */
  function InsertOutcome(st: Store, rid: RequestId, r: SaleRequest, d: Draft, id: OrderId, fault: InsertFault): Moved
    requires DraftOk(d)
  {
    var order := OrderRowOf(r.tenant, r.dto.attempt, d, rid);
    if id in st.orders then Moved(st, r.phase)
    else if fault.StatementFails? || !RowChecks(d.payment) then Moved(st, Finished(Failed))
    else if Taken(st, r.tenant, r.dto.attempt) then Moved(st, ViolationSeen)
    else if d.pooled && fault.PostingRefuses? then Moved(st, Finished(RejectedSale(AccountingRefused)))
    else if d.pooled then Moved(WithSale(st, id, order, d), Committed(d, id, 0))
    else Moved(st.(orders := st.orders[id := order]), HeaderInserted(d, id))
  }

  function ItemsOutcome(st: Store, d: Draft, id: OrderId, fault: bool): Moved
    requires DraftOk(d)
  {
    if fault then Moved(st, Finished(Failed))
    else Moved(st.(items := st.items[id := ItemRows(d)]), Committed(d, id, 0))
  }

  /** Coupon, then stock, then points: each is attempted once and may fail without failing the sale. */
  function AfterSaleOutcome(st: Store, d: Draft, id: OrderId, stage: nat, happens: bool, tierMultiplier: real): Moved {
    var earned := PosEngine.PointsEarned(d.totals.total, d.loyalty, tierMultiplier);
    if stage == 0 then
      Moved(if d.hasCoupon && happens then st.(effects := st.effects + multiset{CouponRedeemed(id)}) else st, Committed(d, id, 1))
    else if stage == 1 then
      Moved(if happens then st.(effects := st.effects + multiset{StockDeducted(id)}) else st, Committed(d, id, 2))
    else
      Moved(if d.customer.Some? && d.loyalty.enabled && earned > 0 && happens && d.customer.value in st.points
            then st.(points := st.points[d.customer.value := st.points[d.customer.value] + earned as real],
                     effects := st.effects + multiset{PointsAwarded(id)})
            else st,
            Finished(Created(id)))
  }

  /** The three steps after a sale, one after the other, whether or not each of them happens. */
  function AfterThree(st: Store, d: Draft, id: OrderId, couponOk: bool, stockOk: bool, awardOk: bool, tierMultiplier: real): Moved {
    var m0 := AfterSaleOutcome(st, d, id, 0, couponOk, tierMultiplier);
    var m1 := AfterSaleOutcome(m0.store, d, id, 1, stockOk, tierMultiplier);
    AfterSaleOutcome(m1.store, d, id, 2, awardOk, tierMultiplier)
  }

  ghost function Run(s: System, steps: seq<Step>): System
    decreases |steps|
  {
    if steps == [] then s else Run(Exec(s, steps[0]), steps[1..])
  }

  predicate Initial(s: System) {
    && s.store.orders == map[] && s.store.items == map[] && s.store.audits == {} && s.store.effects == multiset{}
    && s.requests == map[] && (forall c :: c in s.store.points ==> s.store.points[c] >= 0.0)
  }
}
