/**
 `InvoicesService.create` and the repository writes beneath it as imperative code over mutable tables,
 proved against the steps of the protocol.
 */
module SaleService {
  import opened Options
  import opened Rounding
  import opened PriceResolution
  import opened PricedLines
  import opened Payments
  import opened SaleProtocol
  import SaleSafety
  import PosEngine

  /** Where a pooled transaction fails, if it does. */
  datatype Fault = NoFault | AtOrder | AtItem(line: nat) | AtAudit(line: nat) | AtPosting(refused: bool)

  datatype WriteResult = Written | UniqueViolation | WriteFailed | PostingFailed

  /** The fault names a statement that this draft really executes. */
  predicate Hits(fault: Fault, d: Draft) {
    match fault
    case NoFault => false
    case AtItem(i) => i < |d.lines|
    case AtAudit(i) => i < |d.lines| && d.lines[i].resolution.Approved?
    case _ => true
  }

  class SalesDatabase {
    var orders: map<OrderId, OrderRow>
    var items: map<OrderId, seq<ItemRow>>
    var audits: set<AuditRow>
    var points: map<string, real>
    var effects: multiset<Effect>

    constructor (points: map<string, real>)
      ensures Current() == Store(map[], map[], {}, points, multiset{})
    {
      this.orders, this.items, this.audits, this.points, this.effects := map[], map[], {}, points, multiset{};
    }

    function Current(): Store
      reads this
    {
      Store(orders, items, audits, points, effects)
    }

    ghost predicate Valid()
      reads this
    {
      SaleSafety.UniqueAttempts(Current())
    }

    method FindOrder(tenant: string, attempt: string) returns (found: Option<OrderId>)
      requires Valid()
      ensures found == FindBySaleAttemptId(Current(), tenant, attempt)
    {
      if id :| id in orders && orders[id].tenant == tenant && orders[id].attempt == attempt {
        ghost var other := FindBySaleAttemptId(Current(), tenant, attempt);
        assert SaleSafety.SameAttempt(orders[id], orders[other.value]);
        found := Some(id);
      } else {
        found := None;
      }
    }

    /** One item and, for an override, its audit row. */
    method WriteLine(id: OrderId, d: Draft, n: nat, fault: Fault) returns (ok: bool)
      requires DraftOk(d) && n < |d.lines| && id in items
      modifies this`items, this`audits
      ensures ok <==> fault != AtItem(n) && !(fault == AtAudit(n) && d.lines[n].resolution.Approved?)
      ensures ok ==> items == old(items)[id := old(items)[id] + [ItemRows(d)[n]]]
      ensures ok ==> audits == old(audits) + LineAudit(d, id, n)
    {
      hide ToCents;
      var line := d.lines[n];
      if fault == AtItem(n) { return false; }
      items := items[id := items[id] + [ItemRow(line.itemId, line.quantity, ToCents(FinalPrice(line.resolution)), line.resolution.official)]];
      if line.resolution.Approved? {
        if fault == AtAudit(n) { return false; }
        audits := audits + {AuditRow(id, n, line.resolution.official, ToCents(line.resolution.approved))};
      }
      ok := true;
    }

    /** The statements of the transaction in their order, up to the first that fails. */
    method WriteSale(id: OrderId, order: OrderRow, d: Draft, fault: Fault) returns (r: WriteResult)
      requires DraftOk(d) && order.payment == d.payment && id !in orders
      modifies this`orders, this`items, this`audits
      ensures r.Written? ==> Current() == WithSale(old(Current()), id, order, d)
      ensures r.UniqueViolation? <==> !fault.AtOrder? && RowChecks(d.payment) && Taken(old(Current()), order.tenant, order.attempt)
      ensures r.Written? <==> !Hits(fault, d) && RowChecks(d.payment) && !Taken(old(Current()), order.tenant, order.attempt)
      ensures r.PostingFailed? <==> fault == AtPosting(true) && RowChecks(d.payment) && !Taken(old(Current()), order.tenant, order.attempt)
    {
      hide RowChecks, ItemRows, LineAudit;
      if fault.AtOrder? || !RowChecks(order.payment) { return WriteFailed; }
      if exists k :: k in orders && orders[k].tenant == order.tenant && orders[k].attempt == order.attempt {
        return UniqueViolation;
      }
      orders := orders[id := order];
      items := items[id := []];
      NoLineYet(d, id);
      for n := 0 to |d.lines|
        invariant id in items && items[id] == ItemRows(d)[..n]
        invariant items == old(items)[id := items[id]] && orders == old(orders)[id := order]
        invariant audits == old(audits) + AuditRowsBefore(d, id, n)
        invariant fault.AtItem? ==> n <= fault.line
        invariant fault.AtAudit? && fault.line < n ==> !d.lines[fault.line].resolution.Approved?
      {
        var ok := WriteLine(id, d, n, fault);
        if !ok { return WriteFailed; }
        OneMoreLineWritten(d, id, n);
      }
      if fault.AtPosting? { return if fault.refused then PostingFailed else WriteFailed; }
      AllLines(d, id);
      r := Written;
    }

    /** BEGIN, the statements, COMMIT; or ROLLBACK: either the whole sale is written or the tables are as before. */
    method CreateWithItemsPooled(id: OrderId, order: OrderRow, d: Draft, fault: Fault) returns (r: WriteResult)
      requires DraftOk(d) && order.payment == d.payment && id !in orders
      modifies this
      ensures r.Written? ==> Current() == WithSale(old(Current()), id, order, d)
      ensures !r.Written? ==> Current() == old(Current())
      ensures r.UniqueViolation? <==> !fault.AtOrder? && RowChecks(d.payment) && Taken(old(Current()), order.tenant, order.attempt)
      ensures r.Written? <==> !Hits(fault, d) && RowChecks(d.payment) && !Taken(old(Current()), order.tenant, order.attempt)
      ensures r.PostingFailed? <==> fault == AtPosting(true) && RowChecks(d.payment) && !Taken(old(Current()), order.tenant, order.attempt)
    {
      hide RowChecks, WithSale, Hits;
      var savedOrders, savedItems, savedAudits := orders, items, audits;
      r := WriteSale(id, order, d, fault);
      if !r.Written? { orders, items, audits := savedOrders, savedItems, savedAudits; }
    }

    /** Everything up to the first write. The lines get their resolved prices in place, even when a later check refuses. */
    method ValidateSale(dto: SaleDto, lines: array<SaleLine>, env: Environment) returns (phase: Phase)
      requires ValidDto(dto) && lines[..] == dto.lines
      modifies lines
      ensures phase == Validate(dto, env)
    {
      hide ResolvePrice, PosEngine.Checkout, CheckPayment;
      if !env.sessionOpen { return Finished(RejectedSale(NoOpenSession)); }
      if dto.customer.Some? && !env.customerFound { return Finished(RejectedSale(CustomerNotFound)); }
      if WantsRedemption(dto) {
        if !env.loyalty.enabled { return Finished(RejectedSale(LoyaltyDisabled)); }
        if dto.customer.None? { return Finished(RejectedSale(CustomerRequiredToRedeem)); }
        if env.balance < dto.redeemPoints.value { return Finished(RejectedSale(InsufficientPoints)); }
      }
      var out, anyApprovedOverride, _ := ResolveLines(env.pricing, lines, dto.discount.Some?);
      if out.Refused? { return Finished(RejectedSale(PriceRefused(out.index, out.code))); }
      var results := out.results;
      if anyApprovedOverride && !env.pooledWrites { return Finished(RejectedSale(AtomicWriteRequired)); }
      if dto.hasCoupon && env.coupon.None? { return Finished(RejectedSale(CouponRejected)); }
      var totals := PosEngine.Checkout(PricedAs(dto.lines, results), Reductions(dto, env));
      var error := CheckPayment(totals.total, dto.tender);
      if error.Some? { return Finished(RejectedSale(PaymentRejected(error.value))); }
      phase := Ready(Draft(DraftLines(dto.lines, results), totals, StoredPayment(totals.total, dto.tender), dto.customer,
                           if WantsRedemption(dto) then dto.redeemPoints else None, dto.hasCoupon, env.loyalty, env.pooledWrites));
    }

    /** The guarded decrement: no row comes back when the balance does not cover the points. */
    method RedeemPoints(rid: RequestId, d: Draft, fault: bool) returns (phase: Phase)
      modifies this`points, this`effects
      ensures Moved(Current(), phase) == RedeemOutcome(old(Current()), rid, d, fault)
      ensures phase == Redeemed(d) || phase.Finished?
      ensures phase.Finished? ==> phase.response == RejectedSale(InsufficientPoints) || (phase.response == Failed && fault)
    {
      phase := Redeemed(d);
      if d.redeemPoints.Some? && d.redeemPoints.value > 0.0 && d.customer.Some? {
        var customer, wanted := d.customer.value, d.redeemPoints.value;
        if fault { return Finished(Failed); }
        if customer !in points || points[customer] < wanted { return Finished(RejectedSale(InsufficientPoints)); }
        points := points[customer := points[customer] - wanted];
        effects := effects + multiset{PointsRedeemed(rid)};
      }
    }

    /** The try block around the insert, with its race backstop. */
    method InsertSale(rid: RequestId, r: SaleRequest, d: Draft, id: OrderId, fault: Fault) returns (phase: Phase, insertFault: InsertFault, itemsFault: bool)
      requires Valid() && DraftOk(d) && id !in orders && r.phase == Redeemed(d)
      modifies this
      ensures Moved(Current(), phase) == Drive(old(Current()), rid, r, [Insert(id, insertFault), InsertItems(itemsFault), LookUpViolation])
      ensures phase.Committed? ==> phase.draft == d && phase.order == id && phase.stage == 0
      ensures phase.Committed? || (phase.Finished? && !phase.response.Created?)
      ensures insertFault.StatementFails? ==> Hits(fault, d) || !RowChecks(d.payment)
      ensures insertFault.PostingRefuses? ==> fault == AtPosting(true)
      ensures itemsFault ==> fault.AtItem?
      ensures phase == Finished(Failed) ==> !fault.NoFault? || !RowChecks(d.payment)
      ensures phase.Committed? ==> id in orders && id in items
      ensures Valid()
    {
      hide RowChecks, DraftOk, ItemRows, AuditRows, OrderRowOf;
      ghost var before := Current();
      var order := OrderRowOf(r.tenant, r.dto.attempt, d, rid);
      OrderRowShape(r.tenant, r.dto.attempt, d, rid);
      insertFault, itemsFault := if fault.AtOrder? then StatementFails else NoInsertFault, fault.AtItem?;
      var written: WriteResult;
      if d.pooled {
        written := CreateWithItemsPooled(id, order, d, fault);
        insertFault := if written.WriteFailed? then StatementFails else if written.PostingFailed? then PostingRefuses else NoInsertFault;
      } else if fault.AtOrder? || !RowChecks(d.payment) {
        written := WriteFailed;
      } else if exists k :: k in orders && orders[k].tenant == r.tenant && orders[k].attempt == r.dto.attempt {
        written := UniqueViolation;
      } else {
        orders := orders[id := order];
        if itemsFault {
          written := WriteFailed;
        } else {
          items := items[id := ItemRows(d)];
          written := Written;
        }
      }
      NewKeepsUnique(before, id, order);
      DriveInsert(before, rid, r, d, id, insertFault, itemsFault);
      if written.Written? {
        phase := Committed(d, id, 0);
      } else if written.UniqueViolation? {
        var existing := FindOrder(r.tenant, r.dto.attempt);
        phase := if existing.Some? then Finished(Conflict(existing.value)) else Finished(Failed);
      } else if written.PostingFailed? {
        phase := Finished(RejectedSale(AccountingRefused));
      } else {
        phase := Finished(Failed);
      }
    }

    /** Coupon, stock, points: best effort, in this order. */
    method AfterTheSale(rid: RequestId, d: Draft, id: OrderId, couponOk: bool, stockOk: bool, awardOk: bool, tierMultiplier: real)
      modifies this`points, this`effects
      ensures Current() == AfterThree(old(Current()), d, id, couponOk, stockOk, awardOk, tierMultiplier).store
    {
      hide PosEngine.PointsEarned;
      if d.hasCoupon && couponOk { effects := effects + multiset{CouponRedeemed(id)}; }
      if stockOk { effects := effects + multiset{StockDeducted(id)}; }
      if d.customer.Some? && d.loyalty.enabled {
        var pointsEarned := PosEngine.PointsEarned(d.totals.total, d.loyalty, tierMultiplier);
        if pointsEarned > 0 && awardOk && d.customer.value in points {
          points := points[d.customer.value := points[d.customer.value] + pointsEarned as real];
          effects := effects + multiset{PointsAwarded(id)};
        }
      }
    }

    /** The insert, and after a sale that was written its three follow-up steps. */
    method CompleteSale(rid: RequestId, r: SaleRequest, d: Draft, id: OrderId, fault: Fault,
                        couponOk: bool, stockOk: bool, awardOk: bool, tierMultiplier: real)
      returns (response: Response, insertFault: InsertFault, itemsFault: bool)
      requires Valid() && DraftOk(d) && id !in orders && r.phase == Redeemed(d)
      modifies this
      ensures Moved(Current(), Finished(response)) ==
                Drive(old(Current()), rid, r,
                      [Insert(id, insertFault), InsertItems(itemsFault), LookUpViolation] +
                      [AfterSale(couponOk, tierMultiplier), AfterSale(stockOk, tierMultiplier), AfterSale(awardOk, tierMultiplier)])
      ensures insertFault.StatementFails? ==> Hits(fault, d) || !RowChecks(d.payment)
      ensures insertFault.PostingRefuses? ==> fault == AtPosting(true)
      ensures itemsFault ==> fault.AtItem?
      ensures response == Failed ==> !fault.NoFault? || !RowChecks(d.payment)
      ensures response.Created? ==> response.order == id && id in orders && id in items
      ensures Valid()
    {
      hide ActionOutcome, Drive, AfterThree, DraftOk;
      ghost var st0 := Current();
      ghost var after := [AfterSale(couponOk, tierMultiplier), AfterSale(stockOk, tierMultiplier), AfterSale(awardOk, tierMultiplier)];
      var inserted: Phase;
      inserted, insertFault, itemsFault := InsertSale(rid, r, d, id, fault);
      ghost var sold := Current();
      DriveAppend(st0, rid, r, [Insert(id, insertFault), InsertItems(itemsFault), LookUpViolation], after);
      if inserted.Finished? {
        DriveFinished(sold, rid, r.(phase := inserted), after);
        return inserted.response, insertFault, itemsFault;
      }
      AfterTheSale(rid, d, id, couponOk, stockOk, awardOk, tierMultiplier);
      DriveAfterSale(sold, rid, r.(phase := inserted), d, id, couponOk, stockOk, awardOk, tierMultiplier);
      response := Created(id);
    }

    /** Everything up to the insert: the answer to a repeated attempt, the checks, the redemption. */
    method PrepareSale(rid: RequestId, tenant: string, dto: SaleDto, lines: array<SaleLine>, env: Environment, redeemFault: bool)
      returns (phase: Phase)
      requires Valid() && ValidDto(dto) && lines[..] == dto.lines
      modifies this`points, this`effects, lines
      ensures Moved(Current(), phase) ==
                Drive(old(Current()), rid, SaleRequest(tenant, dto, Started), [Check, DoValidate(env), Redeem(redeemFault)])
      ensures phase.Redeemed? || (phase.Finished? && !phase.response.Created?)
      ensures phase.Redeemed? ==> Validate(dto, env) == Ready(phase.draft) && DraftOk(phase.draft)
      ensures phase == Finished(Failed) ==> redeemFault
      ensures Valid()
    {
      hide ActionOutcome, Drive, Validate, RedeemOutcome, FindBySaleAttemptId, DraftOk;
      DriveStart(Current(), rid, SaleRequest(tenant, dto, Started), env, redeemFault);
      var existing := FindOrder(tenant, dto.attempt);
      if existing.Some? { return Finished(Conflict(existing.value)); }
      phase := ValidateSale(dto, lines, env);
      if phase.Finished? { return; }
      ValidateGivesFittingDraft(dto, env);
      phase := RedeemPoints(rid, phase.draft, redeemFault);
    }

    /**
     The endpoint, run on its own: whatever it reads and wherever it fails, its answer and everything it
     leaves in the tables are those of one run of the protocol's steps.
     */
    method Create(rid: RequestId, tenant: string, dto: SaleDto, lines: array<SaleLine>, env: Environment, redeemFault: bool,
                  id: OrderId, fault: Fault, couponOk: bool, stockOk: bool, awardOk: bool, tierMultiplier: real)
      returns (response: Response, insertFault: InsertFault, itemsFault: bool)
      requires Valid() && ValidDto(dto) && lines[..] == dto.lines && id !in orders
      modifies this, lines
      ensures Moved(Current(), Finished(response)) ==
                Drive(old(Current()), rid, SaleRequest(tenant, dto, Started),
                      Script(env, redeemFault, id, insertFault, itemsFault, couponOk, stockOk, awardOk, tierMultiplier))
      ensures insertFault.PostingRefuses? ==> fault == AtPosting(true)
      ensures insertFault.StatementFails? ==>
                Validate(dto, env).Ready? && (Hits(fault, Validate(dto, env).draft) || !RowChecks(Validate(dto, env).draft.payment))
      ensures itemsFault ==> fault.AtItem?
      ensures response == Failed ==> redeemFault || !fault.NoFault? ||
                                     (Validate(dto, env).Ready? && !RowChecks(Validate(dto, env).draft.payment))
      ensures response.Created? ==> response.order == id && id in orders && id in items
      ensures Valid()
    {
      hide Drive, Validate, Hits, RowChecks, DraftOk, DraftFits;
      ghost var st0, r := Current(), SaleRequest(tenant, dto, Started);
      ghost var start := [Check, DoValidate(env), Redeem(redeemFault)];
      ghost var after := [AfterSale(couponOk, tierMultiplier), AfterSale(stockOk, tierMultiplier), AfterSale(awardOk, tierMultiplier)];
      insertFault, itemsFault := NoInsertFault, false;
      var prepared := PrepareSale(rid, tenant, dto, lines, env, redeemFault);
      ghost var m := Moved(Current(), prepared);
      if prepared.Finished? {
        response := prepared.response;
        DriveFinished(m.store, rid, r.(phase := prepared), [Insert(id, insertFault), InsertItems(itemsFault), LookUpViolation] + after);
      } else {
        response, insertFault, itemsFault :=
          CompleteSale(rid, SaleRequest(tenant, dto, prepared), prepared.draft, id, fault, couponOk, stockOk, awardOk, tierMultiplier);
      }
      ghost var insert := [Insert(id, insertFault), InsertItems(itemsFault), LookUpViolation];
      DriveAppend(st0, rid, r, start, insert + after);
      assert start + (insert + after) == start + insert + after;
    }
  }

  // ----- the lines of a sale, one after the other -----

  ghost function LineAudit(d: Draft, id: OrderId, n: nat): set<AuditRow>
    requires n < |d.lines|
  {
    var res := d.lines[n].resolution;
    if res.Approved? then {AuditRow(id, n, res.official, ToCents(res.approved))} else {}
  }

  ghost function AuditRowsBefore(d: Draft, id: OrderId, n: nat): set<AuditRow>
    requires n <= |d.lines|
  {
    set i | 0 <= i < n && d.lines[i].resolution.Approved? ::
      AuditRow(id, i, d.lines[i].resolution.official, ToCents(d.lines[i].resolution.approved))
  }

  lemma NoLineYet(d: Draft, id: OrderId)
    requires DraftOk(d)
    ensures ItemRows(d)[..0] == [] && AuditRowsBefore(d, id, 0) == {}
  {
  }

  lemma OneMoreLineWritten(d: Draft, id: OrderId, n: nat)
    requires DraftOk(d) && n < |d.lines|
    ensures AuditRowsBefore(d, id, n + 1) == AuditRowsBefore(d, id, n) + LineAudit(d, id, n)
    ensures |ItemRows(d)| == |d.lines| && ItemRows(d)[..n + 1] == ItemRows(d)[..n] + [ItemRows(d)[n]]
  {
    hide ToCents;
  }

  lemma AllLines(d: Draft, id: OrderId)
    requires DraftOk(d)
    ensures AuditRowsBefore(d, id, |d.lines|) == AuditRows(d, id) && ItemRows(d)[..|d.lines|] == ItemRows(d)
  {
    hide ToCents;
  }

  // ----- one request driven alone -----

  /** The actions of one request, one after the other; actions that are not enabled are skipped. */
  ghost function Drive(st: Store, rid: RequestId, r: SaleRequest, actions: seq<Action>): Moved
    decreases |actions|
  {
    if actions == [] then Moved(st, r.phase) else
    var m := ActionOutcome(st, rid, r, actions[0]);
    Drive(m.store, rid, r.(phase := m.phase), actions[1..])
  }

  function Acts(rid: RequestId, actions: seq<Action>): seq<Step> {
    if actions == [] then [] else [Act(rid, actions[0])] + Acts(rid, actions[1..])
  }

  /** Driving a request alone is a run of the protocol. */
  lemma {:induction false} DriveIsRun(s: System, rid: RequestId, actions: seq<Action>)
    requires rid in s.requests
    ensures Run(s, Acts(rid, actions)) == Advance(s, rid, Drive(s.store, rid, s.requests[rid], actions))
    decreases |actions|
  {
    hide ActionOutcome;
    if actions == [] {
      assert s.requests[rid := s.requests[rid]] == s.requests;
    } else {
      var s' := Exec(s, Act(rid, actions[0]));
      DriveIsRun(s', rid, actions[1..]);
      assert Acts(rid, actions)[1..] == Acts(rid, actions[1..]);
    }
  }

  /** The whole life of one request, in the order in which `create` is written. */
  function Script(env: Environment, redeemFault: bool, id: OrderId, insertFault: InsertFault, itemsFault: bool, couponOk: bool,
                  stockOk: bool, awardOk: bool, tierMultiplier: real): seq<Action> {
    [Check, DoValidate(env), Redeem(redeemFault)] + [Insert(id, insertFault), InsertItems(itemsFault), LookUpViolation]
    + [AfterSale(couponOk, tierMultiplier), AfterSale(stockOk, tierMultiplier), AfterSale(awardOk, tierMultiplier)]
  }

  lemma {:induction false} DriveAppend(st: Store, rid: RequestId, r: SaleRequest, a: seq<Action>, b: seq<Action>)
    ensures var m := Drive(st, rid, r, a);
            Drive(st, rid, r, a + b) == Drive(m.store, rid, r.(phase := m.phase), b)
    decreases |a|
  {
    hide ActionOutcome;
    if a == [] {
      assert a + b == b;
    } else {
      var m := ActionOutcome(st, rid, r, a[0]);
      DriveAppend(m.store, rid, r.(phase := m.phase), a[1..], b);
      assert (a + b)[1..] == a[1..] + b;
    }
  }

  /** A finished request does nothing more. */
  lemma {:induction false} DriveFinished(st: Store, rid: RequestId, r: SaleRequest, actions: seq<Action>)
    requires r.phase.Finished?
    ensures Drive(st, rid, r, actions) == Moved(st, r.phase)
    decreases |actions|
  {
    if actions != [] { DriveFinished(st, rid, r, actions[1..]); }
  }

  lemma DriveStart(st: Store, rid: RequestId, r: SaleRequest, env: Environment, redeemFault: bool)
    requires r.phase.Started? && ValidDto(r.dto)
    ensures Drive(st, rid, r, [Check, DoValidate(env), Redeem(redeemFault)]) ==
              if FindBySaleAttemptId(st, r.tenant, r.dto.attempt).Some?
              then Moved(st, Finished(Conflict(FindBySaleAttemptId(st, r.tenant, r.dto.attempt).value)))
              else if Validate(r.dto, env).Finished? then Moved(st, Validate(r.dto, env))
              else RedeemOutcome(st, rid, Validate(r.dto, env).draft, redeemFault)
  {
    hide Validate, RedeemOutcome, FindBySaleAttemptId;
    DriveThree(st, rid, r, Check, DoValidate(env), Redeem(redeemFault));
  }

  lemma DriveAfterSale(st: Store, rid: RequestId, r: SaleRequest, d: Draft, id: OrderId, couponOk: bool, stockOk: bool,
                       awardOk: bool, tierMultiplier: real)
    requires r.phase == Committed(d, id, 0)
    ensures Drive(st, rid, r, [AfterSale(couponOk, tierMultiplier), AfterSale(stockOk, tierMultiplier), AfterSale(awardOk, tierMultiplier)])
         == AfterThree(st, d, id, couponOk, stockOk, awardOk, tierMultiplier)
    ensures AfterThree(st, d, id, couponOk, stockOk, awardOk, tierMultiplier).phase == Finished(Created(id))
    ensures AfterThree(st, d, id, couponOk, stockOk, awardOk, tierMultiplier).store.orders == st.orders
  {
    DriveThree(st, rid, r, AfterSale(couponOk, tierMultiplier), AfterSale(stockOk, tierMultiplier), AfterSale(awardOk, tierMultiplier));
  }

  lemma DriveInsert(st: Store, rid: RequestId, r: SaleRequest, d: Draft, id: OrderId, insertFault: InsertFault, itemsFault: bool)
    requires DraftOk(d) && id !in st.orders && r.phase == Redeemed(d)
    ensures var m := InsertOutcome(st, rid, r, d, id, insertFault);
            Drive(st, rid, r, [Insert(id, insertFault), InsertItems(itemsFault), LookUpViolation]) ==
              match m.phase
              case HeaderInserted(_, _) => ItemsOutcome(m.store, d, id, itemsFault)
              case ViolationSeen => Moved(m.store, LookUpPhase(m.store, r.(phase := ViolationSeen)))
              case _ => m
  {
    hide RowChecks, DraftOk, WithSale, ItemRows, OrderRowOf, LookUpPhase;
    var m := InsertOutcome(st, rid, r, d, id, insertFault);
    var r1 := r.(phase := m.phase);
    var m2 := ActionOutcome(m.store, rid, r1, InsertItems(itemsFault));
    DriveThree(st, rid, r, Insert(id, insertFault), InsertItems(itemsFault), LookUpViolation);
  }

  lemma DriveThree(st: Store, rid: RequestId, r: SaleRequest, a: Action, b: Action, c: Action)
    ensures var m := ActionOutcome(st, rid, r, a);
            var m2 := ActionOutcome(m.store, rid, r.(phase := m.phase), b);
            Drive(st, rid, r, [a, b, c]) == ActionOutcome(m2.store, rid, r.(phase := m2.phase), c)
  {
    hide ActionOutcome;
    var m := ActionOutcome(st, rid, r, a);
    var m2 := ActionOutcome(m.store, rid, r.(phase := m.phase), b);
    assert [a, b, c][1..] == [b, c] && [b, c][1..] == [c] && [c][1..] == [];
    assert Drive(st, rid, r, [a, b, c]) == Drive(m.store, rid, r.(phase := m.phase), [b, c]);
    assert Drive(m.store, rid, r.(phase := m.phase), [b, c]) == Drive(m2.store, rid, r.(phase := m2.phase), [c]);
  }

  lemma OrderRowShape(tenant: string, attempt: string, d: Draft, rid: RequestId)
    ensures var o := OrderRowOf(tenant, attempt, d, rid);
            o.tenant == tenant && o.attempt == attempt && o.payment == d.payment
  {
  }

  lemma NewKeepsUnique(st: Store, id: OrderId, order: OrderRow)
    requires SaleSafety.UniqueAttempts(st) && id !in st.orders
    ensures !Taken(st, order.tenant, order.attempt) ==>
              forall st': Store :: st'.orders == st.orders[id := order] ==> SaleSafety.UniqueAttempts(st')
  {
  }
}
