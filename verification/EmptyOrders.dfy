/**
 Outside the pooled path the order row is committed before its items, with no transaction around the two. Exactly
 which orders stay without lines, in every run, and that all the others sell what was asked for.
 */
module EmptyOrders {
  import opened Options
  import opened Rounding
  import opened PricedLines
  import opened Payments
  import opened SaleProtocol
  import opened SaleSafety
  import opened SaleTheorems
  import PosEngine

  /** An order of this request without item rows. */
  predicate EmptyOrder(st: Store, rid: RequestId, id: OrderId) {
    id in st.orders && st.orders[id].request == rid && id !in st.items
  }

  /** The request is over and has left an order without lines. */
  ghost predicate Stranded(s: System, rid: RequestId) {
    rid in s.requests && s.requests[rid].phase.Finished? && exists id :: EmptyOrder(s.store, rid, id)
  }

  /** The step that strands a request: between the order row and its items it crashes, or the insert of the items fails. */
  predicate Strands(s: System, step: Step, rid: RequestId) {
    && step.Act? && step.rid == rid && rid in s.requests && s.requests[rid].phase.HeaderInserted?
    && (step.action.Crash? || (step.action.InsertItems? && step.action.fault))
  }

  // ----- one step -----

  lemma NewRowsAreOwn(s: System, other: RequestId, action: Action)
    requires Inv(s) && other in s.requests
    ensures var st' := Exec(s, Act(other, action)).store;
            && (forall id :: id in st'.orders && id !in s.store.orders ==> st'.orders[id].request == other)
            && s.store.items.Keys <= st'.items.Keys
            && (forall id :: id in st'.items && id !in s.store.items ==> id in st'.orders && st'.orders[id].request == other)
  {
    hide StoreOk, OrdersMatchRequests, OwnsNothing, Validate, RowChecks, PosEngine.PointsEarned, ItemRows, AuditRows, CheckPhase, LookUpPhase,
         DraftOk, DraftFits, Taken, ValidDto, Pays;
    assert PhaseOk(s.store, other, s.requests[other]);
  }

  lemma OthersKeepEmpty(s: System, other: RequestId, action: Action, rid: RequestId, id: OrderId)
    requires Inv(s) && other in s.requests && other != rid
    ensures EmptyOrder(Exec(s, Act(other, action)).store, rid, id) <==> EmptyOrder(s.store, rid, id)
  {
    hide Inv, ActionOutcome;
    OrdersStay(s, Act(other, action));
    NewRowsAreOwn(s, other, action);
  }

  lemma OthersStrandNothing(s: System, step: Step, rid: RequestId)
    requires Inv(s) && !(step.Act? && step.rid == rid)
    ensures Stranded(Exec(s, step), rid) <==> Stranded(s, rid)
  {
    hide Inv, ActionOutcome, EmptyOrder, ValidDto;
    if step.Act? && step.rid in s.requests {
      forall id ensures EmptyOrder(Exec(s, step).store, rid, id) <==> EmptyOrder(s.store, rid, id) {
        OthersKeepEmpty(s, step.rid, step.action, rid, id);
      }
    }
  }

  /** Two orders of one request are the same. */
  lemma OneOrderEach(s: System, a: OrderId, b: OrderId)
    requires Inv(s) && a in s.store.orders && b in s.store.orders && s.store.orders[a].request == s.store.orders[b].request
    ensures a == b
  {
    hide PhaseOk, PricesAccountedFor, PaymentsReconcile, EffectsBounded, Matches;
    assert SameAttempt(s.store.orders[a], s.store.orders[b]);
  }

  /** A request with an order without lines is between the two inserts, or has failed. */
  lemma EmptyOrderPhase(s: System, rid: RequestId, id: OrderId)
    requires Inv(s) && EmptyOrder(s.store, rid, id)
    ensures rid in s.requests && (s.requests[rid].phase.HeaderInserted? || s.requests[rid].phase == Finished(Failed))
  {
    hide StoreOk, DraftFits, Matches;
    assert PhaseOk(s.store, rid, s.requests[rid]);
    match s.requests[rid].phase
    case Committed(_, other, _) => OneOrderEach(s, id, other);
    case Finished(Created(other)) => OneOrderEach(s, id, other);
    case _ =>
  }

  /** After a step of its own a request has an empty order exactly when it had one that the step did not fill, or just got it. */
  lemma OwnStepStrands(s: System, action: Action, rid: RequestId)
    requires Inv(s) && rid in s.requests
    ensures Stranded(Exec(s, Act(rid, action)), rid) <==> Stranded(s, rid) || Strands(s, Act(rid, action), rid)
  {
    var s', r := Exec(s, Act(rid, action)), s.requests[rid];
    StepKeepsInv(s, Act(rid, action));
    OrdersStay(s, Act(rid, action));
    if r.phase.HeaderInserted? {
      HeaderStepStrands(s, action, rid);
    } else if r.phase.Finished? {
      FinishedStays(s, action, rid);
    } else {
      hide Exec, ActionOutcome, StoreOk, DraftFits, Matches;
      if id :| EmptyOrder(s'.store, rid, id) {
        NoEmptyOrderNow(s, action, rid, id);
      }
    }
  }

  lemma FinishedStays(s: System, action: Action, rid: RequestId)
    requires rid in s.requests && s.requests[rid].phase.Finished?
    ensures Exec(s, Act(rid, action)) == s
  {
  }

  lemma HeaderStepStrands(s: System, action: Action, rid: RequestId)
    requires Inv(s) && rid in s.requests && s.requests[rid].phase.HeaderInserted?
    ensures Stranded(Exec(s, Act(rid, action)), rid) <==> Strands(s, Act(rid, action), rid)
  {
    hide StoreOk, OrdersMatchRequests, OwnsNothing, DraftOk, ItemRows, ValidDto, Pays;
    assert PhaseOk(s.store, rid, s.requests[rid]);
    assert EmptyOrder(s.store, rid, s.requests[rid].phase.order);
  }

  /** A request that is neither between its two inserts nor over is never over with an empty order one step later. */
  lemma NoEmptyOrderNow(s: System, action: Action, rid: RequestId, id: OrderId)
    requires Inv(s) && rid in s.requests && !s.requests[rid].phase.HeaderInserted? && !s.requests[rid].phase.Finished?
    requires EmptyOrder(Exec(s, Act(rid, action)).store, rid, id)
    ensures !Exec(s, Act(rid, action)).requests[rid].phase.Finished?
  {
    hide StoreOk, OrdersMatchRequests, Validate, RowChecks, PosEngine.PointsEarned, ItemRows, AuditRows, CheckPhase, LookUpPhase, DraftOk,
         DraftFits, Taken, ValidDto, Pays;
    assert PhaseOk(s.store, rid, s.requests[rid]);
    if EmptyOrder(s.store, rid, id) { EmptyOrderPhase(s, rid, id); }
  }

  lemma StepStrands(s: System, step: Step, rid: RequestId)
    requires Inv(s)
    ensures Stranded(Exec(s, step), rid) <==> Stranded(s, rid) || Strands(s, step, rid)
  {
    hide Inv, Exec, Stranded;
    if step.Act? && step.rid == rid && rid in s.requests {
      OwnStepStrands(s, step.action, rid);
    } else if step.Act? && step.rid == rid {
      StrangerDoesNothing(s, step);
    } else {
      OthersStrandNothing(s, step, rid);
    }
  }

  lemma StrangerDoesNothing(s: System, step: Step)
    requires step.Act? && step.rid !in s.requests
    ensures Exec(s, step) == s
  {
  }

  // ----- every run -----

  lemma {:induction false} RunSnoc(s: System, steps: seq<Step>, step: Step)
    ensures Run(s, steps + [step]) == Exec(Run(s, steps), step)
    decreases |steps|
  {
    hide Exec;
    if steps == [] {
      RunOne(s, step, []);
      assert [step] + [] == [] + [step];
    } else {
      RunSnoc(Exec(s, steps[0]), steps[1..], step);
      assert steps + [step] == [steps[0]] + (steps[1..] + [step]) && steps == [steps[0]] + steps[1..];
      RunOne(s, steps[0], steps[1..] + [step]);
      RunOne(s, steps[0], steps[1..]);
    }
  }

  /** In every run, a request that is over has left an order without lines if and only if it crashed, or its insert of the items failed, between the two inserts. */
  lemma {:induction false} StrandedIff(s0: System, steps: seq<Step>, rid: RequestId)
    requires Initial(s0)
    ensures Stranded(Run(s0, steps), rid) <==> exists i :: 0 <= i < |steps| && Strands(Run(s0, steps[..i]), steps[i], rid)
    decreases |steps|
  {
    hide Initial, Exec, Inv, Stranded, Strands;
    if steps == [] {
      NobodyStrandedYet(s0, rid);
    } else {
      var init, last := steps[..|steps| - 1], steps[|steps| - 1];
      assert steps == init + [last];
      StrandedIff(s0, init, rid);
      RunInv(s0, init);
      StepStrands(Run(s0, init), last, rid);
      RunSnoc(s0, init, last);
      assert forall i :: 0 <= i < |init| ==> steps[..i] == init[..i] && steps[i] == init[i];
      assert steps[..|init|] == init;
    }
  }

  lemma NobodyStrandedYet(s0: System, rid: RequestId)
    requires Initial(s0)
    ensures !Stranded(Run(s0, []), rid)
  {
  }

  /**
   In every reachable state an order belongs to a request of its tenant and attempt and has the subtotal of the lines
   that request asked for. Its item rows are exactly those lines, at the prices asked for, if and only if the request is
   not between the two inserts and was not broken off there.
   */
  lemma OrdersSellWhatWasRequested(s0: System, steps: seq<Step>, id: OrderId)
    requires Initial(s0) && id in Run(s0, steps).store.orders
    ensures var (s, rid) := (Run(s0, steps), Run(s0, steps).store.orders[id].request);
            && rid in s.requests && Owns(s.store, rid, s.requests[rid], id)
            && s.store.orders[id].subtotal == PosEngine.CalculateSubtotal(RequestedLines(s.requests[rid].dto))
            && (HasLines(s.store, id, s.requests[rid].dto) <==>
                  && !s.requests[rid].phase.HeaderInserted?
                  && !exists i :: 0 <= i < |steps| && Strands(Run(s0, steps[..i]), steps[i], rid))
  {
    var s := Run(s0, steps);
    RunInv(s0, steps);
    var rid := s.store.orders[id].request;
    StrandedIff(s0, steps, rid);
    FilledIff(s, id);
    hide Run, Strands, Stranded, StoreOk, PhaseOk, HasLines;
  }

  lemma FilledIff(s: System, id: OrderId)
    requires Inv(s) && id in s.store.orders
    ensures var rid := s.store.orders[id].request;
            rid in s.requests && (HasLines(s.store, id, s.requests[rid].dto) <==> !s.requests[rid].phase.HeaderInserted? && !Stranded(s, rid))
  {
    hide StoreOk, DraftFits, PosEngine.CalculateSubtotal;
    var rid := s.store.orders[id].request;
    assert Matches(s.store, id, s.requests[rid].dto);
    assert PhaseOk(s.store, rid, s.requests[rid]);
    if id !in s.store.items {
      assert EmptyOrder(s.store, rid, id);
      EmptyOrderPhase(s, rid, id);
    } else {
      if s.requests[rid].phase.HeaderInserted? { OneOrderEach(s, id, s.requests[rid].phase.order); }
      if other :| EmptyOrder(s.store, rid, other) { OneOrderEach(s, id, other); }
    }
  }

  // ----- such a sale is never completed -----

  /** An order left without lines stays so on every continuation, and no request of its attempt is ever told that it created the sale. */
  lemma {:induction false} StrandedSaleIsNeverCompleted(s: System, steps: seq<Step>, rid: RequestId, id: OrderId)
    requires Inv(s) && Stranded(s, rid) && EmptyOrder(s.store, rid, id)
    ensures var s' := Run(s, steps);
            && EmptyOrder(s'.store, rid, id) && s'.store.orders[id] == s.store.orders[id]
            && forall q, x :: q in s'.requests && s'.requests[q].phase == Finished(Created(x)) ==>
                 s'.requests[q].tenant != s.store.orders[id].tenant || s'.requests[q].dto.attempt != s.store.orders[id].attempt
    decreases |steps|
  {
    if steps == [] {
      NobodyCreatedIt(s, rid, id);
    } else {
      hide Inv, Exec, Stranded, EmptyOrder;
      var s1 := Exec(s, steps[0]);
      StepKeepsInv(s, steps[0]);
      StepStrands(s, steps[0], rid);
      StaysEmpty(s, steps[0], rid, id);
      StrandedSaleIsNeverCompleted(s1, steps[1..], rid, id);
    }
  }

  lemma StaysEmpty(s: System, step: Step, rid: RequestId, id: OrderId)
    requires Inv(s) && Stranded(s, rid) && EmptyOrder(s.store, rid, id)
    ensures EmptyOrder(Exec(s, step).store, rid, id) && Exec(s, step).store.orders[id] == s.store.orders[id]
  {
    hide Inv, ActionOutcome, EmptyOrder, ValidDto;
    OrderStays(s, step, id);
    if step.Act? && step.rid == rid {
      FinishedStays(s, step.action, rid);
    } else if step.Act? && step.rid in s.requests {
      OthersKeepEmpty(s, step.rid, step.action, rid, id);
    }
  }

  lemma OrderStays(s: System, step: Step, id: OrderId)
    ensures id in s.store.orders ==> id in Exec(s, step).store.orders && Exec(s, step).store.orders[id] == s.store.orders[id]
    ensures forall rid :: EmptyOrder(s.store, rid, id) ==> id in s.store.orders
  {
    hide Exec;
    OrdersStay(s, step);
  }

  lemma NobodyCreatedIt(s: System, rid: RequestId, id: OrderId)
    requires Inv(s) && EmptyOrder(s.store, rid, id)
    ensures forall q, x :: q in s.requests && s.requests[q].phase == Finished(Created(x)) ==>
              s.requests[q].tenant != s.store.orders[id].tenant || s.requests[q].dto.attempt != s.store.orders[id].attempt
  {
    hide PricesAccountedFor, PaymentsReconcile, EffectsBounded, Matches, DraftFits;
    forall q, x | q in s.requests && s.requests[q].phase == Finished(Created(x))
      ensures s.requests[q].tenant != s.store.orders[id].tenant || s.requests[q].dto.attempt != s.store.orders[id].attempt
    {
      assert PhaseOk(s.store, q, s.requests[q]);
      assert SameAttempt(s.store.orders[x], s.store.orders[id]) ==> x == id;
    }
  }

  // ----- one request, one failing statement -----

  /** A request that passes every check, outside the pooled path. */
  ghost predicate Unpooled(points: map<string, real>, dto: SaleDto, env: Environment) {
    && ValidDto(dto) && Validate(dto, env).Ready?
    && var d := Validate(dto, env).draft;
    && !d.pooled && RowChecks(d.payment)
    && (Pays(d) ==> d.customer.value in points && points[d.customer.value] >= d.redeemPoints.value)
  }

  /** The steps of a request alone, with every statement up to the order row working. */
  function Attempt(rid: RequestId, tenant: string, dto: SaleDto, env: Environment, id: OrderId): seq<Step> {
    [Arrive(rid, tenant, dto), Act(rid, Check), Act(rid, DoValidate(env)), Act(rid, Redeem(false)), Act(rid, Insert(id, NoInsertFault))]
  }

  /**
   One request alone whose insert of the items fails: its order is stored without a line, its points are spent, and the
   next try of the attempt, whatever it asks for, is told of a conflict with that order.
   */
  lemma FailedItemsLeaveEmptyOrder(s: System, rid: RequestId, next: RequestId, tenant: string, dto: SaleDto, dto': SaleDto, env: Environment, id: OrderId)
    requires Inv(s) && rid !in s.requests && next !in s.requests && rid != next && id !in s.store.orders
    requires !Taken(s.store, tenant, dto.attempt) && Unpooled(s.store.points, dto, env)
    requires ValidDto(dto') && dto'.attempt == dto.attempt
    ensures var d := Validate(dto, env).draft;
            var s' := Run(s, Attempt(rid, tenant, dto, env, id) + [Act(rid, InsertItems(true))]);
            var s'' := Run(s', [Arrive(next, tenant, dto'), Act(next, Check)]);
            && EmptyOrder(s'.store, rid, id) && s'.store.orders[id] == OrderRowOf(tenant, dto.attempt, d, rid)
            && Stranded(s', rid) && s'.requests[rid].phase == Finished(Failed)
            && (Pays(d) <==> PointsRedeemed(rid) in s'.store.effects)
            && (Pays(d) ==> d.customer.value in s'.store.points
                            && s'.store.points[d.customer.value] == s.store.points[d.customer.value] - d.redeemPoints.value)
            && s''.store == s'.store && next in s''.requests && s''.requests[next].phase == Finished(Conflict(id))
  {
    hide Inv, Validate, RowChecks, ValidDto, Run, DraftOk, Exec, Pays;
    var up, last := Attempt(rid, tenant, dto, env, id), Act(rid, InsertItems(true));
    var s5 := Run(s, up);
    HeaderIsInserted(s, rid, tenant, dto, env, id);
    RunKeepsInv(s, up);
    RunSnoc(s, up, last);
    var s' := Run(s, up + [last]);
    StepKeepsInv(s5, last);
    ItemsFail(s5, rid, Validate(dto, env).draft, id);
    assert EmptyOrder(s'.store, rid, id);
    NextIsTold(s', next, tenant, dto', id);
  }

  /** Request r has redeemed its points, if it pays any, and inserted its order row; nothing else has happened. */
  ghost predicate HeaderStands(s: System, s': System, rid: RequestId, r: SaleRequest, d: Draft, id: OrderId) {
    && s'.store.orders == s.store.orders[id := OrderRowOf(r.tenant, r.dto.attempt, d, rid)] && s'.store.items == s.store.items
    && s'.requests == s.requests[rid := r.(phase := HeaderInserted(d, id))]
    && (Pays(d) <==> PointsRedeemed(rid) in s'.store.effects)
    && (Pays(d) ==> d.customer.value in s'.store.points && d.customer.value in s.store.points
                    && s'.store.points[d.customer.value] == s.store.points[d.customer.value] - d.redeemPoints.value)
  }

  lemma HeaderIsInserted(s: System, rid: RequestId, tenant: string, dto: SaleDto, env: Environment, id: OrderId)
    requires Inv(s) && rid !in s.requests && id !in s.store.orders
    requires !Taken(s.store, tenant, dto.attempt) && Unpooled(s.store.points, dto, env)
    ensures var d := Validate(dto, env).draft;
            DraftOk(d) && HeaderStands(s, Run(s, Attempt(rid, tenant, dto, env, id)), rid, SaleRequest(tenant, dto, Ready(d)), d, id)
  {
    NewcomerPaidNothing(s, rid);
    hide Inv, Validate, RowChecks, ValidDto, Run, DraftOk, DraftFits, Pays, Exec, Taken, HeaderStands;
    RunFive(s, Arrive(rid, tenant, dto), Act(rid, Check), Act(rid, DoValidate(env)), Act(rid, Redeem(false)), Act(rid, Insert(id, NoInsertFault)));
    ReadyInThree(s, rid, tenant, dto, env);
    RedeemThenInsert(s, rid, SaleRequest(tenant, dto, Ready(Validate(dto, env).draft)), id);
  }

  /** A new request that validation lets through is ready after three steps. */
  lemma ReadyInThree(s: System, rid: RequestId, tenant: string, dto: SaleDto, env: Environment)
    requires rid !in s.requests && !Taken(s.store, tenant, dto.attempt) && ValidDto(dto) && Validate(dto, env).Ready?
    ensures var d := Validate(dto, env).draft;
            && DraftOk(d)
            && Exec(Exec(Exec(s, Arrive(rid, tenant, dto)), Act(rid, Check)), Act(rid, DoValidate(env))) ==
               s.(requests := s.requests[rid := SaleRequest(tenant, dto, Ready(d))])
  {
    hide Validate, DraftOk, ValidDto, Taken;
    ValidateGivesFittingDraft(dto, env);
    var s1 := Exec(s, Arrive(rid, tenant, dto));
    assert s1 == s.(requests := s.requests[rid := SaleRequest(tenant, dto, Started)]);
    var s2 := Exec(s1, Act(rid, Check));
    assert s2 == s.(requests := s.requests[rid := SaleRequest(tenant, dto, Checked)]);
  }

  lemma RedeemThenInsert(s: System, rid: RequestId, r: SaleRequest, id: OrderId)
    requires r.phase.Ready? && DraftOk(r.phase.draft) && !r.phase.draft.pooled && RowChecks(r.phase.draft.payment)
    requires !Taken(s.store, r.tenant, r.dto.attempt) && id !in s.store.orders && PointsRedeemed(rid) !in s.store.effects
    requires var d := r.phase.draft;
             Pays(d) ==> d.customer.value in s.store.points && s.store.points[d.customer.value] >= d.redeemPoints.value
    ensures var s' := Exec(Exec(s.(requests := s.requests[rid := r]), Act(rid, Redeem(false))), Act(rid, Insert(id, NoInsertFault)));
            HeaderStands(s, s', rid, r, r.phase.draft, id)
  {
    hide RowChecks, DraftOk, Taken, RedeemOutcome, Pays;
    RedeemGoesThrough(s.store, rid, r.phase.draft);
    SameTaken(s.store, RedeemOutcome(s.store, rid, r.phase.draft, false).store);
  }

  lemma RedeemGoesThrough(st: Store, rid: RequestId, d: Draft)
    requires PointsRedeemed(rid) !in st.effects
    requires Pays(d) ==> d.customer.value in st.points && st.points[d.customer.value] >= d.redeemPoints.value
    ensures var m := RedeemOutcome(st, rid, d, false);
            && m.phase == Redeemed(d) && m.store.orders == st.orders && m.store.items == st.items
            && (Pays(d) <==> PointsRedeemed(rid) in m.store.effects)
            && (Pays(d) ==> d.customer.value in m.store.points && m.store.points[d.customer.value] == st.points[d.customer.value] - d.redeemPoints.value)
  {
  }

  lemma NewcomerPaidNothing(s: System, rid: RequestId)
    requires Inv(s) && rid !in s.requests
    ensures PointsRedeemed(rid) !in s.store.effects
  {
  }

  lemma ItemsFail(s: System, rid: RequestId, d: Draft, id: OrderId)
    requires Inv(s) && rid in s.requests && s.requests[rid].phase == HeaderInserted(d, id) && DraftOk(d)
    ensures Exec(s, Act(rid, InsertItems(true))) == s.(requests := s.requests[rid := s.requests[rid].(phase := Finished(Failed))])
    ensures EmptyOrder(s.store, rid, id)
  {
    hide StoreOk, OrdersMatchRequests, DraftOk, DraftFits, ValidDto, Pays;
    assert PhaseOk(s.store, rid, s.requests[rid]);
  }

  lemma NextIsTold(s: System, next: RequestId, tenant: string, dto: SaleDto, id: OrderId)
    requires Inv(s) && next !in s.requests && ValidDto(dto)
    requires id in s.store.orders && s.store.orders[id].tenant == tenant && s.store.orders[id].attempt == dto.attempt
    ensures var s' := Run(s, [Arrive(next, tenant, dto), Act(next, Check)]);
            s'.store == s.store && next in s'.requests && s'.requests[next].phase == Finished(Conflict(id))
  {
    hide PhaseOk, OrdersMatchRequests, PricesAccountedFor, PaymentsReconcile, EffectsBounded, ValidDto, OwnsNothing;
    var s1 := Exec(s, Arrive(next, tenant, dto));
    assert [Arrive(next, tenant, dto), Act(next, Check)][1..] == [Act(next, Check)] && [Act(next, Check)][1..] == [];
    assert Run(s1, [Act(next, Check)]) == Run(Exec(s1, Act(next, Check)), []);
    var found := FindBySaleAttemptId(s.store, tenant, dto.attempt);
    assert Taken(s.store, tenant, dto.attempt);
    assert SameAttempt(s.store.orders[found.value], s.store.orders[id]);
  }
}
