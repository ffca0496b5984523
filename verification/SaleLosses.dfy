/**
 Points are redeemed before the order is inserted, and nothing gives them back. Exactly which requests pay
 without getting a sale, in every run, and how that happens with no race and no fault at all. An order
 without lines is no sale.
 */
module SaleLosses {
  import opened Options
  import opened Rounding
  import opened PricedLines
  import opened Payments
  import opened SaleProtocol
  import opened SaleSafety
  import opened SaleTheorems
  import opened EmptyOrders
  import PosEngine
  import PriceResolution

  /** The insert of a draft under a free id stores the order. */
  ghost predicate InsertStores(st: Store, r: SaleRequest, d: Draft, fault: InsertFault) {
    && RowChecks(d.payment) && !Taken(st, r.tenant, r.dto.attempt)
    && (fault.NoInsertFault? || (fault.PostingRefuses? && !d.pooled))
  }

  /** The insert stores the order if and only if the database accepts every statement and the attempt is free. */
  lemma InsertStoresIff(st: Store, rid: RequestId, r: SaleRequest, d: Draft, id: OrderId, fault: InsertFault)
    requires DraftOk(d) && id !in st.orders
    ensures id in InsertOutcome(st, rid, r, d, id, fault).store.orders <==> InsertStores(st, r, d, fault)
  {
    hide RowChecks, Taken, DraftOk, ItemRows, AuditRows;
  }

  /** Every order of the request is without lines; it may have none at all. */
  ghost predicate SoldNothing(st: Store, rid: RequestId) {
    forall id :: id in st.orders && st.orders[id].request == rid ==> EmptyOrder(st, rid, id)
  }

  /** The request has redeemed points, has sold nothing and never will. */
  ghost predicate PaidForNothing(s: System, rid: RequestId) {
    && rid in s.requests && PointsRedeemed(rid) in s.store.effects && SoldNothing(s.store, rid)
    && (s.requests[rid].phase.ViolationSeen? || s.requests[rid].phase.Finished?)
  }

  /**
   The step at which a request that has paid loses its sale: it crashes before its items are written, its insert does
   not store the order, or the insert of the items fails.
   */
  ghost predicate Loses(s: System, step: Step, rid: RequestId) {
    && step.Act? && step.rid == rid && rid in s.requests
    && match s.requests[rid].phase
       case Redeemed(d) =>
         && Pays(d) && DraftOk(d)
         && (match step.action
             case Crash => true
             case Insert(id, fault) => id !in s.store.orders && !InsertStores(s.store, s.requests[rid], d, fault)
             case _ => false)
       case HeaderInserted(d, _) => Pays(d) && Strands(s, step, rid)
       case _ => false
  }

  /** What an action of another request leaves as it was. */
  lemma OthersActionKeeps(s: System, other: RequestId, action: Action, rid: RequestId)
    requires Inv(s) && other in s.requests && other != rid
    ensures var s' := Exec(s, Act(other, action));
            && (rid in s'.requests <==> rid in s.requests) && (rid in s.requests ==> s'.requests[rid] == s.requests[rid])
            && (PointsRedeemed(rid) in s'.store.effects <==> PointsRedeemed(rid) in s.store.effects)
            && (SoldNothing(s'.store, rid) <==> SoldNothing(s.store, rid))
  {
    OthersEffects(s, other, action, rid);
    OrdersStay(s, Act(other, action));
    NewRowsAreOwn(s, other, action);
    hide Inv, ActionOutcome;
    var st, st' := s.store, Exec(s, Act(other, action)).store;
    forall id ensures (id in st.orders && st.orders[id].request == rid <==> id in st'.orders && st'.orders[id].request == rid)
                      && (EmptyOrder(st, rid, id) <==> EmptyOrder(st', rid, id)) {
    }
  }

  lemma OthersEffects(s: System, other: RequestId, action: Action, rid: RequestId)
    requires other in s.requests && other != rid
    ensures PointsRedeemed(rid) in Exec(s, Act(other, action)).store.effects <==> PointsRedeemed(rid) in s.store.effects
  {
    hide Validate, RowChecks, PosEngine.PointsEarned, ItemRows, AuditRows, CheckPhase, LookUpPhase, DraftOk, Taken, ValidDto, Pays;
  }

  lemma OthersLoseNothing(s: System, step: Step, rid: RequestId)
    requires Inv(s) && !(step.Act? && step.rid == rid)
    ensures PaidForNothing(Exec(s, step), rid) <==> PaidForNothing(s, rid)
  {
    hide Inv, ActionOutcome, ValidDto, SoldNothing;
    if step.Act? && step.rid in s.requests { OthersActionKeeps(s, step.rid, step.action, rid); }
  }

  lemma OwnStepLoses(s: System, action: Action, rid: RequestId)
    requires Inv(s) && rid in s.requests
    ensures PaidForNothing(Exec(s, Act(rid, action)), rid) <==> PaidForNothing(s, rid) || Loses(s, Act(rid, action), rid)
  {
    hide RowChecks, PosEngine.PointsEarned, ItemRows, AuditRows, StoreOk, OrdersMatchRequests, ValidDto, Taken, DraftOk, DraftFits, Pays, SoldNothing;
    var r := s.requests[rid];
    assert PhaseOk(s.store, rid, r);
    DraftsFitOk(r);
    if action.Insert? && r.phase.Redeemed? {
      InsertLoses(s, rid, action.id, action.insertFault);
    } else if r.phase.HeaderInserted? {
      HeaderLoses(s, action, rid);
    } else if r.phase.Committed? {
      CommittedLosesNothing(s, action, rid);
    } else {
      OtherActionsLose(s, action, rid);
    }
  }

  /** Between the two inserts the request has paid or not, and owns one order without lines. */
  lemma HeaderLoses(s: System, action: Action, rid: RequestId)
    requires Inv(s) && rid in s.requests && s.requests[rid].phase.HeaderInserted?
    ensures PaidForNothing(Exec(s, Act(rid, action)), rid) <==> Loses(s, Act(rid, action), rid)
  {
    var HeaderInserted(d, id) := s.requests[rid].phase;
    assert PhaseOk(s.store, rid, s.requests[rid]);
    OnlyOrder(s, rid, id);
    hide StoreOk, OrdersMatchRequests, OwnsNothing, DraftOk, DraftFits, ItemRows, ValidDto, Pays, NoEffects, Inv;
  }

  lemma OnlyOrder(s: System, rid: RequestId, id: OrderId)
    requires Inv(s) && id in s.store.orders && s.store.orders[id].request == rid
    ensures forall other :: other in s.store.orders && s.store.orders[other].request == rid ==> other == id
  {
    hide Inv;
    forall other | other in s.store.orders && s.store.orders[other].request == rid ensures other == id { OneOrderEach(s, id, other); }
  }

  /** A request past its items has sold them. */
  lemma CommittedLosesNothing(s: System, action: Action, rid: RequestId)
    requires Inv(s) && rid in s.requests && s.requests[rid].phase.Committed?
    ensures !PaidForNothing(Exec(s, Act(rid, action)), rid) && !PaidForNothing(s, rid)
  {
    hide StoreOk, OrdersMatchRequests, OwnsNothing, PosEngine.PointsEarned, ValidDto;
    assert PhaseOk(s.store, rid, s.requests[rid]);
    var id := s.requests[rid].phase.order;
    assert !EmptyOrder(s.store, rid, id) && !EmptyOrder(Exec(s, Act(rid, action)).store, rid, id);
  }

  lemma DraftsFitOk(r: SaleRequest)
    ensures (r.phase.Ready? || r.phase.Redeemed?) && DraftFits(r.dto, r.phase.draft) ==> DraftOk(r.phase.draft)
  {
    hide DraftOk;
  }

  lemma InsertLoses(s: System, rid: RequestId, id: OrderId, fault: InsertFault)
    requires rid in s.requests && s.requests[rid].phase.Redeemed? && DraftOk(s.requests[rid].phase.draft)
    requires PhaseOk(s.store, rid, s.requests[rid])
    ensures PaidForNothing(Exec(s, Act(rid, Insert(id, fault))), rid) <==> Loses(s, Act(rid, Insert(id, fault)), rid)
  {
    hide RowChecks, ItemRows, AuditRows, Taken, DraftOk, DraftFits, Pays;
    var s' := Exec(s, Act(rid, Insert(id, fault)));
    if id !in s.store.orders && InsertStores(s.store, s.requests[rid], s.requests[rid].phase.draft, fault) {
      assert id in s'.store.orders && s'.store.orders[id].request == rid;
    }
  }

  lemma OtherActionsLose(s: System, action: Action, rid: RequestId)
    requires rid in s.requests && PhaseOk(s.store, rid, s.requests[rid]) && !(action.Insert? && s.requests[rid].phase.Redeemed?)
    requires !s.requests[rid].phase.HeaderInserted? && !s.requests[rid].phase.Committed?
    ensures PaidForNothing(Exec(s, Act(rid, action)), rid) <==> PaidForNothing(s, rid) || Loses(s, Act(rid, action), rid)
  {
    hide RowChecks, PosEngine.PointsEarned, ItemRows, AuditRows, Validate, Taken, ValidDto;
  }

  lemma StepLoses(s: System, step: Step, rid: RequestId)
    requires Inv(s)
    ensures PaidForNothing(Exec(s, step), rid) <==> PaidForNothing(s, rid) || Loses(s, step, rid)
  {
    hide Inv, Exec, PaidForNothing;
    if step.Act? && step.rid == rid && rid in s.requests {
      OwnStepLoses(s, step.action, rid);
    } else if step.Act? && step.rid == rid {
      StrangerDoesNothing(s, step);
    } else {
      OthersLoseNothing(s, step, rid);
    }
  }

  /**
   In every run, a request has redeemed points for no sale if and only if at some step, with the points redeemed and the
   items not yet written, it crashed, its insert was refused, by a failing statement, by the table's checks on the
   payment, by the posting, or by the order of another request of the attempt, or its insert of the items failed.
   */
  lemma {:induction false} PaidForNothingIff(s0: System, steps: seq<Step>, rid: RequestId)
    requires Initial(s0)
    ensures PaidForNothing(Run(s0, steps), rid) <==> exists i :: 0 <= i < |steps| && Loses(Run(s0, steps[..i]), steps[i], rid)
    decreases |steps|
  {
    hide Initial, Exec, Inv, PaidForNothing, Loses;
    if steps == [] {
      NobodyPaidYet(s0, rid);
    } else {
      var init, last := steps[..|steps| - 1], steps[|steps| - 1];
      assert steps == init + [last];
      PaidForNothingIff(s0, init, rid);
      RunInv(s0, init);
      StepLoses(Run(s0, init), last, rid);
      RunSnoc(s0, init, last);
      assert forall i :: 0 <= i < |init| ==> steps[..i] == init[..i] && steps[i] == init[i];
      assert steps[..|init|] == init;
    }
  }

  lemma NobodyPaidYet(s0: System, rid: RequestId)
    requires Initial(s0)
    ensures !PaidForNothing(Run(s0, []), rid)
  {
  }

  // ----- with no race and no fault -----

  /** What a client asks for and the server reads, when the payment passes every guard and the table still refuses it. */
  ghost predicate RefusedByTable(points: map<string, real>, dto: SaleDto, env: Environment) {
    && ValidDto(dto) && Validate(dto, env).Ready?
    && var d := Validate(dto, env).draft;
    && Pays(d) && !RowChecks(d.payment) && d.customer.value in points && points[d.customer.value] >= d.redeemPoints.value
  }

  /**
   One request alone, with every statement of the database working: the points are taken, the table refuses the order, and
   the attempt is as free as before, so that the next try costs the same again.
   */
  lemma EachTryCostsPoints(s: System, rid: RequestId, tenant: string, dto: SaleDto, env: Environment, id: OrderId)
    requires Inv(s) && rid !in s.requests && id !in s.store.orders && !Taken(s.store, tenant, dto.attempt)
    requires RefusedByTable(s.store.points, dto, env)
    ensures var (d, s') := (Validate(dto, env).draft, Run(s, Attempt(rid, tenant, dto, env, id)));
            && PaidForNothing(s', rid) && s'.requests[rid].phase == Finished(Failed)
            && s'.store == s.store.(points := s.store.points[d.customer.value := s.store.points[d.customer.value] - d.redeemPoints.value],
                                    effects := s.store.effects + multiset{PointsRedeemed(rid)})
            && !Taken(s'.store, tenant, dto.attempt) && Inv(s')
  {
    hide Inv, Validate, RowChecks, ValidDto, Run, DraftOk;
    var steps := Attempt(rid, tenant, dto, env, id);
    RunFive(s, steps[0], steps[1], steps[2], steps[3], steps[4]);
    assert steps == [steps[0], steps[1], steps[2], steps[3], steps[4]];
    RunKeepsInv(s, steps);
    NewcomerOwnsNothing(s, rid);
    ReadyInThree(s, rid, tenant, dto, env);
  }

  lemma NewcomerOwnsNothing(s: System, rid: RequestId)
    requires Inv(s) && rid !in s.requests
    ensures OwnsNothing(s.store, rid)
  {
  }

  const SPLIT := Tender(Split, None, Some(1.005), Some(1.005), true)
  const LINE := SaleLine("item", None, 2.01, 1.0, None)
  const PRICING := PriceResolution.Context(
    PriceResolution.Catalogue(map["item" := PriceResolution.Item(201, true, false)], map[]), None, false, None, "branch")
  const SETTINGS := PosEngine.LoyaltySettings(0.0, 0.0, true)

  lemma OneLinePriced()
    ensures PriceLines(PRICING, [LINE], false) == Priced([PriceResolution.NoOverride(201)])
  {
    assert [LINE][..0] == [];
    assert PriceLines(PRICING, [], false) == Priced([]);
    assert ResolveAlone(PRICING, LINE, false) == PriceResolution.NoOverride(201);
  }

  lemma OneLineTotals()
    ensures PosEngine.Checkout([PosEngine.Line(2.01, 1.0)], PosEngine.Reductions(None, None, 5.0, SETTINGS, 0.0)).total == 201
  {
    var line := PosEngine.Line(2.01, 1.0);
    PosEngine.SubtotalSnoc([line]);
    assert [line][..0] == [];
    assert PosEngine.ExactSubtotal([]) == 0.0;
    assert (2.01 * 100.0 + 0.5).Floor == 201 && (0.0 * 100.0 + 0.5).Floor == 0;
    assert PosEngine.CalculateSubtotal([line]) == 201;
    assert PosEngine.RedemptionValue(5.0, SETTINGS) == 0;
  }

  /** One item at 2.01, paid with 1.005 in cash and 1.005 by card, and 5 points redeemed. */
  lemma SuchAPaymentExists()
    ensures exists points, dto, env :: RefusedByTable(points, dto, env)
  {
    var dto := SaleDto("attempt", [LINE], None, Some("customer"), SPLIT, Some(5.0), false);
    var env := Environment(true, true, 0.0, SETTINGS, 10.0, PRICING, None, true);
    OneLinePriced();
    OneLineTotals();
    GuardedSplitRefusedByTable(true);
    hide PriceLines, PosEngine.Checkout, CheckPayment, RowChecks, StoredPayment;
    var results := [PriceResolution.NoOverride(201)];
    assert PricedAs(dto.lines, results) == [PosEngine.Line(2.01, 1.0)];
    assert RefusedByTable(map["customer" := 10.0], dto, env);
  }

  const CARD := Tender(Card, None, None, None, true)

  lemma CardIsAccepted(total: int)
    ensures CheckPayment(total, CARD).None? && RowChecks(StoredPayment(total, CARD))
  {
  }

  /** One item at 2.01 outside the pooled path, paid by card, and 5 points redeemed: a failing insert of its items leaves an empty order that was paid for. */
  lemma SuchABrokenSaleExists()
    ensures exists points, dto, env :: Unpooled(points, dto, env) && Pays(Validate(dto, env).draft)
  {
    var dto := SaleDto("attempt", [LINE], None, Some("customer"), CARD, Some(5.0), false);
    var env := Environment(true, true, 0.0, SETTINGS, 10.0, PRICING, None, false);
    OneLinePriced();
    OneLineTotals();
    CardIsAccepted(201);
    hide PriceLines, PosEngine.Checkout, CheckPayment, RowChecks, StoredPayment;
    var results := [PriceResolution.NoOverride(201)];
    assert PricedAs(dto.lines, results) == [PosEngine.Line(2.01, 1.0)];
    assert Unpooled(map["customer" := 10.0], dto, env) && Pays(Validate(dto, env).draft);
  }
}
