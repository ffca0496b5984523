/**
 What every interleaving of sale requests keeps, and the theorems over whole runs that follow.
 */
module SaleSafety {
  import opened Options
  import opened Rounding
  import opened PriceResolution
  import opened PricedLines
  import opened Payments
  import opened SaleProtocol
  import PosEngine

  // ----- the invariant -----

  predicate SameAttempt(a: OrderRow, b: OrderRow) {
    a.tenant == b.tenant && a.attempt == b.attempt
  }

  ghost predicate UniqueAttempts(st: Store) {
    forall a, b :: a in st.orders && b in st.orders && SameAttempt(st.orders[a], st.orders[b]) ==> a == b
  }

  /** Each line is sold at its official price, or its deviation is recorded exactly. */
  ghost predicate PricesAccountedFor(st: Store) {
    && st.items.Keys <= st.orders.Keys
    && (forall id, i :: id in st.items && 0 <= i < |st.items[id]| ==>
          || st.items[id][i].price == st.items[id][i].officialSnapshot
          || AuditRow(id, i, st.items[id][i].officialSnapshot, st.items[id][i].price) in st.audits)
    && (forall a :: a in st.audits ==>
          && a.order in st.items && a.line < |st.items[a.order]|
          && st.items[a.order][a.line].officialSnapshot == a.official && st.items[a.order][a.line].price == a.approved)
  }

  ghost predicate PaymentsReconcile(st: Store) {
    forall id :: id in st.orders ==>
      var o := st.orders[id];
      && RowChecks(o.payment)
      && o.payment.total == o.subtotal - o.discount + o.tax && o.discount <= o.subtotal
      && (o.payment.paymentMethod.Split? ==> o.payment.cashAmount.Some?)
  }

  ghost predicate EffectsBounded(st: Store) {
    && (forall id :: st.effects[CouponRedeemed(id)] <= 1 && st.effects[StockDeducted(id)] <= 1 && st.effects[PointsAwarded(id)] <= 1)
    && (forall rid :: st.effects[PointsRedeemed(rid)] <= 1)
    && (forall id :: id !in st.orders ==> NoEffects(st, id))
    && (forall c :: c in st.points ==> st.points[c] >= 0.0)
  }

  ghost predicate NoEffects(st: Store, id: OrderId) {
    CouponRedeemed(id) !in st.effects && StockDeducted(id) !in st.effects && PointsAwarded(id) !in st.effects
  }

  ghost predicate StoreOk(st: Store) {
    UniqueAttempts(st) && PricesAccountedFor(st) && PaymentsReconcile(st) && EffectsBounded(st)
  }

  ghost predicate Owns(st: Store, rid: RequestId, r: SaleRequest, id: OrderId) {
    ForAttempt(st, r, id) && st.orders[id].request == rid
  }

  ghost predicate ForAttempt(st: Store, r: SaleRequest, id: OrderId) {
    id in st.orders && st.orders[id].tenant == r.tenant && st.orders[id].attempt == r.dto.attempt
  }

  ghost predicate OwnsNothing(st: Store, rid: RequestId) {
    forall id :: id in st.orders ==> st.orders[id].request != rid
  }

  /** What is true of a request in each phase. */
  ghost predicate PhaseOk(st: Store, rid: RequestId, r: SaleRequest) {
    match r.phase
    case Started => OwnsNothing(st, rid) && PointsRedeemed(rid) !in st.effects
    case Checked => OwnsNothing(st, rid) && PointsRedeemed(rid) !in st.effects
    case Ready(d) => OwnsNothing(st, rid) && PointsRedeemed(rid) !in st.effects && DraftFits(r.dto, d)
    case Redeemed(d) => OwnsNothing(st, rid) && DraftFits(r.dto, d) && (Pays(d) <==> PointsRedeemed(rid) in st.effects)
    case ViolationSeen => OwnsNothing(st, rid) && Taken(st, r.tenant, r.dto.attempt)
    case HeaderInserted(d, id) =>
      && Owns(st, rid, r, id) && DraftFits(r.dto, d) && !d.pooled && id !in st.items && NoEffects(st, id)
      && (Pays(d) <==> PointsRedeemed(rid) in st.effects)
    case Committed(d, id, stage) =>
      && Owns(st, rid, r, id) && id in st.items && stage <= 2
      && (stage == 0 ==> CouponRedeemed(id) !in st.effects)
      && (stage <= 1 ==> StockDeducted(id) !in st.effects)
      && PointsAwarded(id) !in st.effects
    case Finished(Created(id)) => Owns(st, rid, r, id) && id in st.items
    case Finished(Conflict(id)) => OwnsNothing(st, rid) && ForAttempt(st, r, id)
    case Finished(RejectedSale(why)) => OwnsNothing(st, rid) && (why.AccountingRefused? || PointsRedeemed(rid) !in st.effects)
    case Finished(Failed) => true
  }

  /** The item rows of an order are the lines of a request, at the prices asked for. */
  ghost predicate HasLines(st: Store, id: OrderId, dto: SaleDto) {
    && id in st.items && |st.items[id]| == |dto.lines|
    && forall i :: 0 <= i < |dto.lines| ==>
         && st.items[id][i].itemId == dto.lines[i].itemId && st.items[id][i].quantity == dto.lines[i].quantity
         && st.items[id][i].price == ToCents(dto.lines[i].unitPrice)
  }

  /** What an order and its item rows, if they are written, have in common with the request that inserted them. */
  ghost predicate Matches(st: Store, id: OrderId, dto: SaleDto)
    requires id in st.orders
  {
    st.orders[id].subtotal == PosEngine.CalculateSubtotal(RequestedLines(dto)) && (id in st.items ==> HasLines(st, id, dto))
  }

  ghost predicate OrdersMatchRequests(s: System) {
    forall id :: id in s.store.orders ==>
      && s.store.orders[id].request in s.requests
      && Owns(s.store, s.store.orders[id].request, s.requests[s.store.orders[id].request], id)
      && Matches(s.store, id, s.requests[s.store.orders[id].request].dto)
  }

  ghost predicate Inv(s: System) {
    && StoreOk(s.store) && OrdersMatchRequests(s)
    && (forall rid :: rid in s.requests ==> ValidDto(s.requests[rid].dto) && PhaseOk(s.store, rid, s.requests[rid]))
    && (forall rid :: rid !in s.requests ==> OwnsNothing(s.store, rid) && PointsRedeemed(rid) !in s.store.effects)
  }

  // ----- every step keeps it -----

  /** A request moves to a phase that is right for it, and the store stays as it is. */
  lemma PhaseChangeKeepsInv(s: System, rid: RequestId, phase: Phase)
    requires Inv(s) && rid in s.requests
    requires PhaseOk(s.store, rid, s.requests[rid].(phase := phase))
    ensures Inv(Advance(s, rid, Moved(s.store, phase)))
  {
    hide StoreOk, PhaseOk, OwnsNothing, ValidDto;
  }

  /** The store grows by one request's own writes; nobody else's facts are touched. */
  lemma StoreChangeKeepsInv(s: System, rid: RequestId, st: Store, phase: Phase)
    requires Inv(s) && rid in s.requests && StoreOk(st) && OrdersMatchRequests(s.(store := st))
    requires PhaseOk(st, rid, s.requests[rid].(phase := phase))
    requires forall other, r :: other != rid && PhaseOk(s.store, other, r) ==> PhaseOk(st, other, r)
    requires forall other :: other != rid && OwnsNothing(s.store, other) ==> OwnsNothing(st, other)
    requires forall other :: other != rid && PointsRedeemed(other) !in s.store.effects ==> PointsRedeemed(other) !in st.effects
    ensures Inv(Advance(s, rid, Moved(st, phase)))
  {
    hide StoreOk, PhaseOk, OwnsNothing, ValidDto, Matches;
  }

  lemma ArriveKeepsInv(s: System, rid: RequestId, tenant: string, dto: SaleDto)
    requires Inv(s)
    ensures Inv(Exec(s, Arrive(rid, tenant, dto)))
  {
    hide StoreOk, OwnsNothing, ValidDto;
  }

  /** The effect belongs to request rid: its own redemption, or an effect of an order it inserted. */
  ghost predicate OwnEffect(st: Store, rid: RequestId, effect: Effect) {
    match effect
    case PointsRedeemed(r) => r == rid
    case _ => effect.order in st.orders && st.orders[effect.order].request == rid
  }

  /** The store after one effect: only the effects and the balances differ. */
  ghost predicate AddsEffect(st: Store, st': Store, effect: Effect) {
    && st' == st.(points := st'.points, effects := st'.effects)
    && st'.effects == st.effects + multiset{effect}
    && forall c :: c in st'.points ==> st'.points[c] >= 0.0
  }

  lemma EffectKeepsOthers(st: Store, st': Store, rid: RequestId, effect: Effect, other: RequestId, q: SaleRequest)
    requires OwnEffect(st, rid, effect) && AddsEffect(st, st', effect) && other != rid
    requires PhaseOk(st, other, q)
    ensures PhaseOk(st', other, q)
  {
    hide DraftFits;
  }

  lemma EffectKeepsStoreOk(st: Store, st': Store, rid: RequestId, effect: Effect)
    requires StoreOk(st) && OwnEffect(st, rid, effect) && AddsEffect(st, st', effect) && effect !in st.effects
    ensures StoreOk(st')
  {
  }

  lemma EffectKeepsOrders(s: System, st: Store, effect: Effect)
    requires OrdersMatchRequests(s) && AddsEffect(s.store, st, effect)
    ensures OrdersMatchRequests(s.(store := st))
  {
    hide PosEngine.CalculateSubtotal, RequestedLines;
  }

  lemma EffectKeepsInv(s: System, rid: RequestId, st: Store, effect: Effect, phase: Phase)
    requires Inv(s) && rid in s.requests
    requires OwnEffect(s.store, rid, effect) && AddsEffect(s.store, st, effect) && effect !in s.store.effects
    requires PhaseOk(st, rid, s.requests[rid].(phase := phase))
    ensures Inv(Advance(s, rid, Moved(st, phase)))
  {
    hide PhaseOk, StoreOk, Matches;
    EffectKeepsStoreOk(s.store, st, rid, effect);
    assert OrdersMatchRequests(s.(store := st)) by { EffectKeepsOrders(s, st, effect); }
    forall other, q | other != rid && PhaseOk(s.store, other, q) ensures PhaseOk(st, other, q) {
      EffectKeepsOthers(s.store, st, rid, effect, other, q);
    }
    StoreChangeKeepsInv(s, rid, st, phase);
  }

  lemma RedeemKeepsInv(s: System, rid: RequestId, fault: bool)
    requires Inv(s) && rid in s.requests && s.requests[rid].phase.Ready?
    ensures Inv(Advance(s, rid, RedeemOutcome(s.store, rid, s.requests[rid].phase.draft, fault)))
  {
    hide UniqueAttempts, PricesAccountedFor, PaymentsReconcile, OrdersMatchRequests, DraftFits, ValidDto;
    var m := RedeemOutcome(s.store, rid, s.requests[rid].phase.draft, fault);
    if m.store == s.store {
      PhaseChangeKeepsInv(s, rid, m.phase);
    } else {
      EffectKeepsInv(s, rid, m.store, PointsRedeemed(rid), m.phase);
    }
  }

  lemma SaleRowsAccounted(st: Store, id: OrderId, order: OrderRow, d: Draft)
    requires PricesAccountedFor(st) && DraftOk(d) && id !in st.items
    ensures PricesAccountedFor(WithSale(st, id, order, d))
  {
    var st' := WithSale(st, id, order, d);
    forall i | 0 <= i < |st'.items[id]|
      ensures || st'.items[id][i].price == st'.items[id][i].officialSnapshot
              || AuditRow(id, i, st'.items[id][i].officialSnapshot, st'.items[id][i].price) in st'.audits
    {
      var res := d.lines[i].resolution;
      if res.NoOverride? {
        ToCentsOfAmount(res.official);
      } else {
        assert AuditRow(id, i, res.official, ToCents(res.approved)) in AuditRows(d, id);
      }
    }
  }

  /** An order inserted under a free attempt: what the two insert paths have in common. */
  lemma NewOrderKeepsInv(s: System, rid: RequestId, id: OrderId, st: Store, phase: Phase)
    requires Inv(s) && rid in s.requests && s.requests[rid].phase.Redeemed? && id !in s.store.orders
    requires var r := s.requests[rid];
             && RowChecks(r.phase.draft.payment) && !Taken(s.store, r.tenant, r.dto.attempt)
             && st.orders == s.store.orders[id := OrderRowOf(r.tenant, r.dto.attempt, r.phase.draft, rid)]
    requires st.effects == s.store.effects && st.points == s.store.points
    requires PricesAccountedFor(st)
    requires st.items - {id} == s.store.items && Matches(st, id, s.requests[rid].dto)
    requires (phase == Committed(s.requests[rid].phase.draft, id, 0) && id in st.items)
          || (phase == HeaderInserted(s.requests[rid].phase.draft, id) && id !in st.items && !s.requests[rid].phase.draft.pooled)
    ensures Inv(Advance(s, rid, Moved(st, phase)))
  {
    hide DraftOk, RowChecks, StoreOk, PricesAccountedFor, Matches, PosEngine.CalculateSubtotal;
    var r := s.requests[rid];
    NewOrderKeepsStoreOk(s.store, st, id, r, rid);
    NewOrderMatches(s, rid, id, st);
    forall other, q | other != rid && PhaseOk(s.store, other, q) ensures PhaseOk(st, other, q) {
      assert id !in st.items - {id};
      OthersKeepPhase(s.store, st, id, other, q);
    }
    StoreChangeKeepsInv(s, rid, st, phase);
  }

  lemma NewOrderKeepsStoreOk(st: Store, st': Store, id: OrderId, r: SaleRequest, rid: RequestId)
    requires StoreOk(st) && r.phase.Redeemed? && id !in st.orders && DraftOk(r.phase.draft) && RowChecks(r.phase.draft.payment)
    requires !Taken(st, r.tenant, r.dto.attempt) && st'.orders == st.orders[id := OrderRowOf(r.tenant, r.dto.attempt, r.phase.draft, rid)]
    requires st'.effects == st.effects && st'.points == st.points && PricesAccountedFor(st')
    ensures StoreOk(st') && NoEffects(st', id)
  {
    hide DraftOk, RowChecks, PricesAccountedFor;
    assert UniqueAttempts(st');
    DraftReconciles(r.phase.draft);
    assert PaymentsReconcile(st');
  }

  lemma NewOrderMatches(s: System, rid: RequestId, id: OrderId, st: Store)
    requires OrdersMatchRequests(s) && rid in s.requests && s.requests[rid].phase.Redeemed? && id !in s.store.orders
    requires var r := s.requests[rid];
             st.orders == s.store.orders[id := OrderRowOf(r.tenant, r.dto.attempt, r.phase.draft, rid)]
    requires st.items - {id} == s.store.items && Matches(st, id, s.requests[rid].dto)
    ensures OrdersMatchRequests(s.(store := st))
  {
    hide PosEngine.CalculateSubtotal, RequestedLines;
    forall k | k in st.orders && k != id ensures Matches(st, k, s.requests[st.orders[k].request].dto) {
      assert k in st.items ==> k in st.items - {id};
      assert k in s.store.items ==> k in st.items - {id};
    }
  }

  lemma DraftReconciles(d: Draft)
    requires DraftOk(d)
    ensures d.payment.total == d.totals.subtotal - d.totals.discount + d.totals.tax && d.totals.discount <= d.totals.subtotal
    ensures d.payment.paymentMethod.Split? ==> d.payment.cashAmount.Some?
  {
  }

  lemma OthersKeepPhase(st: Store, st': Store, id: OrderId, other: RequestId, q: SaleRequest)
    requires id !in st.orders && id in st'.orders && st'.orders == st.orders[id := st'.orders[id]]
    requires st'.orders[id].request != other && st'.effects == st.effects
    requires st'.items - {id} == st.items && id !in st.items
    requires PhaseOk(st, other, q)
    ensures PhaseOk(st', other, q)
  {
    hide DraftFits;
    assert forall k :: k in st.items <==> k in st'.items && k != id;
    if q.phase.ViolationSeen? {
      var k :| k in st.orders && st.orders[k].tenant == q.tenant && st.orders[k].attempt == q.dto.attempt;
      assert k in st'.orders && st'.orders[k] == st.orders[k];
    }
  }

  lemma InsertKeepsInv(s: System, rid: RequestId, id: OrderId, fault: InsertFault)
    requires Inv(s) && rid in s.requests && s.requests[rid].phase.Redeemed? && DraftOk(s.requests[rid].phase.draft)
    ensures Inv(Advance(s, rid, InsertOutcome(s.store, rid, s.requests[rid], s.requests[rid].phase.draft, id, fault)))
  {
    hide DraftOk, RowChecks, PricesAccountedFor, WithSale, PosEngine.CalculateSubtotal;
    var r := s.requests[rid];
    var d, order := r.phase.draft, OrderRowOf(r.tenant, r.dto.attempt, r.phase.draft, rid);
    if id in s.store.orders {
      PhaseChangeKeepsInv(s, rid, r.phase);
    } else if fault.StatementFails? || !RowChecks(d.payment) {
      PhaseChangeKeepsInv(s, rid, Finished(Failed));
    } else if Taken(s.store, r.tenant, r.dto.attempt) {
      PhaseChangeKeepsInv(s, rid, ViolationSeen);
    } else if d.pooled && fault.PostingRefuses? {
      PhaseChangeKeepsInv(s, rid, Finished(RejectedSale(AccountingRefused)));
    } else {
      ItemsWithinOrders(s.store);
      if d.pooled {
        SaleRowsAccounted(s.store, id, order, d);
        WithSaleShape(s.store, id, order, d);
        SaleMatches(s.store, id, rid, r.tenant, r.dto, d);
        NewOrderKeepsInv(s, rid, id, WithSale(s.store, id, order, d), Committed(d, id, 0));
      } else {
        HeaderAloneAccounted(s.store, id, order);
        NewOrderKeepsInv(s, rid, id, s.store.(orders := s.store.orders[id := order]), HeaderInserted(d, id));
      }
    }
  }

  lemma ItemsWithinOrders(st: Store)
    requires PricesAccountedFor(st)
    ensures st.items.Keys <= st.orders.Keys
  {
  }

  lemma WithSaleShape(st: Store, id: OrderId, order: OrderRow, d: Draft)
    requires DraftOk(d) && id !in st.items
    ensures var st' := WithSale(st, id, order, d);
            && st'.orders == st.orders[id := order] && st'.items - {id} == st.items && id in st'.items
            && st'.effects == st.effects && st'.points == st.points
  {
  }

  lemma SaleMatches(st: Store, id: OrderId, rid: RequestId, tenant: string, dto: SaleDto, d: Draft)
    requires DraftFits(dto, d)
    ensures Matches(WithSale(st, id, OrderRowOf(tenant, dto.attempt, d, rid), d), id, dto)
  {
  }

  lemma HeaderAloneAccounted(st: Store, id: OrderId, order: OrderRow)
    requires PricesAccountedFor(st) && id !in st.orders
    ensures PricesAccountedFor(st.(orders := st.orders[id := order]))
  {
  }

  /** Outside the pooled path a draft holds no override, so its items need no audit row. */
  lemma InsertItemsKeepsInv(s: System, rid: RequestId, d: Draft, id: OrderId, fault: bool)
    requires Inv(s) && rid in s.requests && s.requests[rid].phase == HeaderInserted(d, id) && DraftOk(d)
    ensures Inv(Advance(s, rid, ItemsOutcome(s.store, d, id, fault)))
  {
    hide StoreOk, OrdersMatchRequests, DraftOk, ValidDto;
    var st := ItemsOutcome(s.store, d, id, fault).store;
    if fault {
      PhaseChangeKeepsInv(s, rid, Finished(Failed));
    } else {
      assert PhaseOk(s.store, rid, s.requests[rid]);
      ItemsKeepStoreOk(s.store, id, d);
      ItemsMatchRequest(s, rid);
      forall other, q | other != rid && PhaseOk(s.store, other, q) ensures PhaseOk(st, other, q) {
        hide DraftFits;
      }
      StoreChangeKeepsInv(s, rid, st, Committed(d, id, 0));
    }
  }

  lemma ItemsKeepStoreOk(st: Store, id: OrderId, d: Draft)
    requires StoreOk(st) && id in st.orders && id !in st.items && DraftOk(d) && !d.pooled
    ensures StoreOk(st.(items := st.items[id := ItemRows(d)]))
  {
    assert AuditRows(d, id) == {};
    assert st.orders[id := st.orders[id]] == st.orders;
    assert WithSale(st, id, st.orders[id], d) == st.(items := st.items[id := ItemRows(d)]);
    SaleRowsAccounted(st, id, st.orders[id], d);
  }

  lemma ItemsMatchRequest(s: System, rid: RequestId)
    requires OrdersMatchRequests(s) && rid in s.requests && s.requests[rid].phase.HeaderInserted?
    requires var HeaderInserted(d, id) := s.requests[rid].phase;
             DraftFits(s.requests[rid].dto, d) && Owns(s.store, rid, s.requests[rid], id)
    ensures var HeaderInserted(d, id) := s.requests[rid].phase;
            OrdersMatchRequests(s.(store := s.store.(items := s.store.items[id := ItemRows(d)])))
  {
    hide PosEngine.CalculateSubtotal;
  }

  lemma AfterSaleKeepsInv(s: System, rid: RequestId, d: Draft, id: OrderId, stage: nat, happens: bool, tierMultiplier: real)
    requires Inv(s) && rid in s.requests && s.requests[rid].phase == Committed(d, id, stage)
    ensures Inv(Advance(s, rid, AfterSaleOutcome(s.store, d, id, stage, happens, tierMultiplier)))
  {
    hide UniqueAttempts, PricesAccountedFor, PaymentsReconcile, OrdersMatchRequests, DraftFits, ValidDto, PosEngine.PointsEarned;
    var m := AfterSaleOutcome(s.store, d, id, stage, happens, tierMultiplier);
    assert PhaseOk(s.store, rid, s.requests[rid]);
    if m.store == s.store {
      PhaseChangeKeepsInv(s, rid, m.phase);
    } else {
      var effect := if stage == 0 then CouponRedeemed(id) else if stage == 1 then StockDeducted(id) else PointsAwarded(id);
      EffectKeepsInv(s, rid, m.store, effect, m.phase);
    }
  }

  lemma StepKeepsInv(s: System, step: Step)
    requires Inv(s)
    ensures Inv(Exec(s, step))
  {
    hide Inv, PhaseOk, DraftFits, StoreOk;
    match step
    case Arrive(rid, tenant, dto) => ArriveKeepsInv(s, rid, tenant, dto);
    case Act(rid, action) => if rid in s.requests { ActionKeepsInv(s, rid, action); }
  }

  /** The actions that only read. */
  lemma ReadingKeepsInv(s: System, rid: RequestId, action: Action)
    requires Inv(s) && rid in s.requests && (action.Check? || action.DoValidate? || action.LookUpViolation? || action.Crash?)
    ensures Inv(Exec(s, Act(rid, action)))
  {
    hide StoreOk, OrdersMatchRequests, DraftOk, RedeemOutcome, InsertOutcome, ItemsOutcome, AfterSaleOutcome, Validate, OwnsNothing,
         Advance;
    var r := s.requests[rid];
    assert PhaseOk(s.store, rid, r);
    match (action, r.phase)
    case (Check, Started) => PhaseChangeKeepsInv(s, rid, CheckPhase(s.store, r));
    case (DoValidate(env), Checked) =>
      ValidateGivesFittingDraft(r.dto, env);
      PhaseChangeKeepsInv(s, rid, Validate(r.dto, env));
    case (LookUpViolation, ViolationSeen) => PhaseChangeKeepsInv(s, rid, LookUpPhase(s.store, r));
    case (Crash, Finished(_)) => PhaseChangeKeepsInv(s, rid, r.phase);
    case (Crash, _) => PhaseChangeKeepsInv(s, rid, Finished(Failed));
    case _ => PhaseChangeKeepsInv(s, rid, r.phase);
  }

  lemma NoActionKeepsInv(s: System, rid: RequestId, action: Action)
    requires Inv(s) && rid in s.requests
    requires ActionOutcome(s.store, rid, s.requests[rid], action) == Moved(s.store, s.requests[rid].phase)
    ensures Inv(Exec(s, Act(rid, action)))
  {
    hide StoreOk, OrdersMatchRequests, PhaseOk, ActionOutcome, OwnsNothing, Advance;
    PhaseChangeKeepsInv(s, rid, s.requests[rid].phase);
  }

  lemma ActionKeepsInv(s: System, rid: RequestId, action: Action)
    requires Inv(s) && rid in s.requests
    ensures Inv(Exec(s, Act(rid, action)))
  {
    hide StoreOk, OrdersMatchRequests, DraftOk, RedeemOutcome, InsertOutcome, ItemsOutcome, AfterSaleOutcome, Validate, OwnsNothing,
         Advance;
    if action.Check? || action.DoValidate? || action.LookUpViolation? || action.Crash? {
      ReadingKeepsInv(s, rid, action);
    } else {
      var r := s.requests[rid];
      assert PhaseOk(s.store, rid, r);
      match (action, r.phase)
      case (Redeem(fault), Ready(_)) => RedeemKeepsInv(s, rid, fault);
      case (Insert(id, fault), Redeemed(_)) => InsertKeepsInv(s, rid, id, fault);
      case (InsertItems(fault), HeaderInserted(d, id)) => InsertItemsKeepsInv(s, rid, d, id, fault);
      case (AfterSale(happens, m), Committed(d, id, stage)) => AfterSaleKeepsInv(s, rid, d, id, stage, happens, m);
      case _ => NoActionKeepsInv(s, rid, action);
    }
  }

  lemma {:induction false} RunKeepsInv(s: System, steps: seq<Step>)
    requires Inv(s)
    ensures Inv(Run(s, steps))
    decreases |steps|
  {
    hide Inv, Exec;
    if steps != [] {
      StepKeepsInv(s, steps[0]);
      RunKeepsInv(Exec(s, steps[0]), steps[1..]);
    }
  }

  lemma InitialInv(s: System)
    requires Initial(s)
    ensures Inv(s)
  {
  }
}
