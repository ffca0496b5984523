/**
 The guarantees of the sale endpoint over every run: any number of requests, in any interleaving, with
 any faults and crashes.
 */
module SaleTheorems {
  import opened Options
  import opened Rounding
  import opened PricedLines
  import opened Payments
  import opened SaleProtocol
  import opened SaleSafety
  import PosEngine

  lemma RunInv(s: System, steps: seq<Step>)
    requires Initial(s)
    ensures Inv(Run(s, steps))
  {
    InitialInv(s);
    RunKeepsInv(s, steps);
  }

  /**
   Each (tenant, attempt) has at most one order, every conflict names that order, no two requests are
   told that they created it, and a unique-key violation always resolves to the winner's order.
   */
  lemma OneSalePerAttempt(s0: System, steps: seq<Step>)
    requires Initial(s0)
    ensures var s := Run(s0, steps);
            && UniqueAttempts(s.store)
            && (forall rid, id :: rid in s.requests && s.requests[rid].phase == Finished(Conflict(id)) ==>
                  ForAttempt(s.store, s.requests[rid], id))
            && (forall a, b, x, y :: a in s.requests && b in s.requests
                  && s.requests[a].phase == Finished(Created(x)) && s.requests[b].phase == Finished(Created(y))
                  && s.requests[a].tenant == s.requests[b].tenant && s.requests[a].dto.attempt == s.requests[b].dto.attempt
                  ==> a == b && x == y)
            && (forall rid :: rid in s.requests && s.requests[rid].phase.ViolationSeen? ==>
                  LookUpPhase(s.store, s.requests[rid]).response.Conflict?)
  {
    hide StoreOk, Run;
    RunInv(s0, steps);
    var s := Run(s0, steps);
    assert UniqueAttempts(s.store) by { StoreParts(s.store); }
    forall a, b, x, y | a in s.requests && b in s.requests
      && s.requests[a].phase == Finished(Created(x)) && s.requests[b].phase == Finished(Created(y))
      && s.requests[a].tenant == s.requests[b].tenant && s.requests[a].dto.attempt == s.requests[b].dto.attempt
      ensures a == b && x == y
    {
      assert PhaseOk(s.store, a, s.requests[a]) && PhaseOk(s.store, b, s.requests[b]);
      assert SameAttempt(s.store.orders[x], s.store.orders[y]);
    }
  }

  lemma StoreParts(st: Store)
    requires StoreOk(st)
    ensures UniqueAttempts(st) && PricesAccountedFor(st) && PaymentsReconcile(st) && EffectsBounded(st)
  {
  }

  /** Coupon redemption, stock deduction and point award each happen at most once per attempt, and only for an existing order. */
  lemma AfterStepsAtMostOncePerAttempt(s0: System, steps: seq<Step>, a: OrderId, b: OrderId)
    requires Initial(s0)
    ensures var st := Run(s0, steps).store;
            && (a !in st.orders ==> NoEffects(st, a))
            && (a in st.orders && b in st.orders && SameAttempt(st.orders[a], st.orders[b]) ==>
                  && a == b && st.effects[CouponRedeemed(a)] <= 1 && st.effects[StockDeducted(a)] <= 1
                  && st.effects[PointsAwarded(a)] <= 1)
            && (forall rid :: st.effects[PointsRedeemed(rid)] <= 1)
  {
    hide Run, OrdersMatchRequests, PhaseOk;
    RunInv(s0, steps);
    StoreParts(Run(s0, steps).store);
  }

  /** In every reachable state each sold line has its official price or an audit row with exactly that pair of prices. */
  lemma SoldPricesAreAccountedFor(s0: System, steps: seq<Step>)
    requires Initial(s0)
    ensures PricesAccountedFor(Run(s0, steps).store)
  {
    hide Run, OrdersMatchRequests, PhaseOk;
    RunInv(s0, steps);
    StoreParts(Run(s0, steps).store);
  }

  /**
   A rejected request, whatever the reason and whichever line it was, has inserted nothing, and redeemed nothing unless
   the reason is the refused posting, the only one that comes after the redemption.
   */
  lemma RejectedRequestLeavesNoTrace(s0: System, steps: seq<Step>, rid: RequestId)
    requires Initial(s0) && rid in Run(s0, steps).requests
    requires Run(s0, steps).requests[rid].phase.Finished? && Run(s0, steps).requests[rid].phase.response.RejectedSale?
    ensures OwnsNothing(Run(s0, steps).store, rid)
    ensures PointsRedeemed(rid) in Run(s0, steps).store.effects ==>
              Run(s0, steps).requests[rid].phase == Finished(RejectedSale(AccountingRefused))
  {
    hide Run, StoreOk, OrdersMatchRequests;
    RunInv(s0, steps);
    assert PhaseOk(Run(s0, steps).store, rid, Run(s0, steps).requests[rid]);
  }

  // ----- a request that comes after the sale -----

  function Without(steps: seq<Step>, rid: RequestId): seq<Step> {
    if steps == [] then []
    else (if steps[0].Act? && steps[0].rid == rid then [] else [steps[0]]) + Without(steps[1..], rid)
  }

  /** The same system except for what request rid itself knows. */
  ghost predicate SameButFor(s: System, t: System, rid: RequestId) {
    && s.store == t.store && s.requests.Keys == t.requests.Keys
    && forall other :: other in s.requests && other != rid ==> s.requests[other] == t.requests[other]
  }

  /** The attempt already has an order; rid has not looked yet, was told of that order, or crashed. */
  ghost predicate TooLate(s: System, rid: RequestId) {
    && rid in s.requests
    && Taken(s.store, s.requests[rid].tenant, s.requests[rid].dto.attempt)
    && match s.requests[rid].phase
       case Started => true
       case Finished(Conflict(id)) => ForAttempt(s.store, s.requests[rid], id)
       case Finished(Failed) => true
       case _ => false
  }

  lemma OrdersStay(s: System, step: Step)
    ensures forall id :: id in s.store.orders ==> id in Exec(s, step).store.orders && Exec(s, step).store.orders[id] == s.store.orders[id]
  {
    hide Validate, DraftOk, RowChecks, PosEngine.PointsEarned, ItemRows, AuditRows, CheckPhase, LookUpPhase, Taken;
  }

  lemma TakenStays(st: Store, st': Store, tenant: string, attempt: string)
    requires Taken(st, tenant, attempt)
    requires forall id :: id in st.orders ==> id in st'.orders && st'.orders[id] == st.orders[id]
    ensures Taken(st', tenant, attempt)
  {
    var id :| id in st.orders && st.orders[id].tenant == tenant && st.orders[id].attempt == attempt;
    assert id in st'.orders;
  }

  lemma TooLateStays(s: System, step: Step, rid: RequestId)
    requires TooLate(s, rid)
    ensures TooLate(Exec(s, step), rid)
    ensures step.Act? && step.rid == rid ==> SameButFor(Exec(s, step), s, rid)
    ensures HasFailed(Exec(s, step), rid) ==> HasFailed(s, rid) || step == Act(rid, Crash)
  {
    hide Validate, DraftOk, RowChecks, PosEngine.PointsEarned, Taken;
    OrdersStay(s, step);
    TakenStays(s.store, Exec(s, step).store, s.requests[rid].tenant, s.requests[rid].dto.attempt);
  }

  predicate HasFailed(s: System, rid: RequestId) {
    rid in s.requests && s.requests[rid].phase == Finished(Failed)
  }

  lemma OthersSeeNoDifference(s: System, t: System, step: Step, rid: RequestId)
    requires SameButFor(s, t, rid) && !(step.Act? && step.rid == rid) && rid in s.requests
    ensures SameButFor(Exec(s, step), Exec(t, step), rid)
  {
    hide ActionOutcome, ValidDto;
  }

  /**
   A request that starts after its attempt has an order is invisible: erasing all its steps from any run
   gives the same store and the same answers to everyone else. All it is ever told is the conflict, with an
   order of its attempt, unless it crashes.
   */
  lemma {:induction false} LateRequestIsInvisible(s: System, t: System, steps: seq<Step>, rid: RequestId)
    requires TooLate(s, rid) && SameButFor(s, t, rid)
    ensures SameButFor(Run(s, steps), Run(t, Without(steps, rid)), rid)
    ensures TooLate(Run(s, steps), rid)
    ensures HasFailed(Run(s, steps), rid) ==> HasFailed(s, rid) || Act(rid, Crash) in steps
    decreases |steps|
  {
    hide Exec, TooLate, SameButFor, HasFailed;
    if steps != [] {
      TooLateStays(s, steps[0], rid);
      if steps[0].Act? && steps[0].rid == rid {
        SameTransitive(Exec(s, steps[0]), s, t, rid);
        LateRequestIsInvisible(Exec(s, steps[0]), t, steps[1..], rid);
        assert Without(steps, rid) == Without(steps[1..], rid);
      } else {
        TooLateIn(s, rid);
        OthersSeeNoDifference(s, t, steps[0], rid);
        LateRequestIsInvisible(Exec(s, steps[0]), Exec(t, steps[0]), steps[1..], rid);
        assert Without(steps, rid)[0] == steps[0] && Without(steps, rid)[1..] == Without(steps[1..], rid);
      }
    }
  }

  lemma TooLateIn(s: System, rid: RequestId)
    requires TooLate(s, rid)
    ensures rid in s.requests
  {
  }

  lemma SameTransitive(s: System, t: System, u: System, rid: RequestId)
    requires SameButFor(s, t, rid) && SameButFor(t, u, rid)
    ensures SameButFor(s, u, rid)
  {
  }

  // ----- the stored money -----

  /**
   For the orders of any reachable state, in any selection and order: revenue outside cash and card is exactly
   that of the other payment methods, since every split order carries a breakdown that adds up.
   */
  lemma StoredOrdersReconcile(s0: System, steps: seq<Step>, ids: seq<OrderId>)
    requires Initial(s0) && forall i :: 0 <= i < |ids| ==> ids[i] in Run(s0, steps).store.orders
    ensures var orders := seq(|ids|, i requires 0 <= i < |ids| => Run(s0, steps).store.orders[ids[i]].payment);
            && TotalRevenue(orders) - TotalCash(orders) - TotalCard(orders) == TotalRevenue(UnbucketedOrders(orders))
            && forall o :: o in UnbucketedOrders(orders) ==> !o.paymentMethod.Cash? && !o.paymentMethod.Card? && !o.paymentMethod.Split?
  {
    hide Run, OrdersMatchRequests, PhaseOk, RowChecks;
    RunInv(s0, steps);
    var st := Run(s0, steps).store;
    StoreParts(st);
    var orders := seq(|ids|, i requires 0 <= i < |ids| => st.orders[ids[i]].payment);
    forall i | 0 <= i < |orders| ensures RowChecks(orders[i]) && (orders[i].paymentMethod.Split? ==> orders[i].cashAmount.Some?) {
      assert st.orders[ids[i]].payment == orders[i];
    }
    RevenueReconciles(orders);
    UnbucketedAreOthers(orders);
  }

  lemma {:induction false} UnbucketedAreOthers(orders: seq<PaymentRow>)
    requires forall i :: 0 <= i < |orders| ==> (orders[i].paymentMethod.Split? ==> orders[i].cashAmount.Some?)
    ensures forall o :: o in UnbucketedOrders(orders) ==> !o.paymentMethod.Cash? && !o.paymentMethod.Card? && !o.paymentMethod.Split?
  {
    if orders != [] { UnbucketedAreOthers(orders[..|orders| - 1]); }
  }

  // ----- what is not guaranteed -----

  /** Both requests of one attempt have passed every check, and either could pay for its redemption and insert. */
  ghost predicate Racing(s: System, a: RequestId, b: RequestId) {
    && a != b && a in s.requests && b in s.requests
    && s.requests[a].phase.Ready? && s.requests[b].phase.Ready?
    && s.requests[a].tenant == s.requests[b].tenant && s.requests[a].dto.attempt == s.requests[b].dto.attempt
    && !Taken(s.store, s.requests[a].tenant, s.requests[a].dto.attempt)
    && var d, e := s.requests[a].phase.draft, s.requests[b].phase.draft;
    && RowChecks(d.payment) && RowChecks(e.payment) && d.pooled && e.pooled
    && d.customer.Some? && e.customer == d.customer && d.redeemPoints.Some? && e.redeemPoints.Some?
    && d.redeemPoints.value > 0.0 && e.redeemPoints.value > 0.0
    && d.customer.value in s.store.points
    && s.store.points[d.customer.value] >= d.redeemPoints.value + e.redeemPoints.value
  }

  /**
   Points are redeemed before the insert, so the loser of a race is told of the conflict after it has
   also paid: one order, two redemptions, and nothing gives the loser's points back.
   */
  lemma RacingLoserAlsoRedeems(s: System, a: RequestId, b: RequestId, id: OrderId, other: OrderId)
    requires Inv(s) && Racing(s, a, b) && id != other && id !in s.store.orders && other !in s.store.orders
    ensures var d, e := s.requests[a].phase.draft, s.requests[b].phase.draft;
            var s' := Run(s, [Act(a, Redeem(false)), Act(b, Redeem(false)), Act(a, Insert(id, NoInsertFault)),
                              Act(b, Insert(other, NoInsertFault)), Act(b, LookUpViolation)]);
            && b in s'.requests && s'.requests[b].phase == Finished(Conflict(id))
            && d.customer.value in s'.store.points
            && s'.store.orders.Keys == s.store.orders.Keys + {id}
            && PointsRedeemed(a) in s'.store.effects && PointsRedeemed(b) in s'.store.effects
            && s'.store.points[d.customer.value] == s.store.points[d.customer.value] - d.redeemPoints.value - e.redeemPoints.value
  {
    var d, e := s.requests[a].phase.draft, s.requests[b].phase.draft;
    DraftsOk(s, a, b);
    BothRedeem(s, a, b);
    RunFive(s, Act(a, Redeem(false)), Act(b, Redeem(false)), Act(a, Insert(id, NoInsertFault)), Act(b, Insert(other, NoInsertFault)), Act(b, LookUpViolation));
    hide RowChecks, WithSale, Inv, DraftOk, Taken, FindBySaleAttemptId, Exec, Run;
    var s2 := Exec(Exec(s, Act(a, Redeem(false))), Act(b, Redeem(false)));
    SameTaken(s.store, s2.store);
    InsertFree(s2, a, d, id);
    var s3 := Exec(s2, Act(a, Insert(id, NoInsertFault)));
    LoserIsTold(s3, b, e, id, other);
    WithSaleKeeps(s2.store, id, OrderRowOf(s.requests[a].tenant, s.requests[a].dto.attempt, d, a), d);
  }

  // ----- such a race does happen -----

  /** Two clients' requests for one attempt, with what each reads, that a race can be made of. */
  ghost predicate CanRace(points: map<string, real>, dto: SaleDto, env: Environment, dto': SaleDto, env': Environment) {
    && ValidDto(dto) && ValidDto(dto') && dto.attempt == dto'.attempt
    && Validate(dto, env).Ready? && Validate(dto', env').Ready?
    && var d, e := Validate(dto, env).draft, Validate(dto', env').draft;
    && RowChecks(d.payment) && RowChecks(e.payment) && d.pooled && e.pooled
    && d.customer.Some? && e.customer == d.customer && d.redeemPoints.Some? && e.redeemPoints.Some?
    && d.redeemPoints.value > 0.0 && e.redeemPoints.value > 0.0
    && d.customer.value in points && points[d.customer.value] >= d.redeemPoints.value + e.redeemPoints.value
  }

  /** From an empty shop two such requests get into the race by arriving, checking and validating in turn. */
  lemma RaceIsReachable(s0: System, a: RequestId, b: RequestId, tenant: string, dto: SaleDto, env: Environment, dto': SaleDto, env': Environment)
    requires Initial(s0) && a != b && CanRace(s0.store.points, dto, env, dto', env')
    ensures var s := Run(s0, [Arrive(a, tenant, dto), Arrive(b, tenant, dto'), Act(a, Check), Act(b, Check),
                              Act(a, DoValidate(env)), Act(b, DoValidate(env'))]);
            s.store == s0.store && Inv(s) && Racing(s, a, b)
  {
    hide Inv, Validate, RowChecks, ValidDto, Run;
    var steps := [Arrive(a, tenant, dto), Arrive(b, tenant, dto'), Act(a, Check), Act(b, Check), Act(a, DoValidate(env)), Act(b, DoValidate(env'))];
    RunInv(s0, steps);
    assert steps == [steps[0]] + [steps[1], steps[2], steps[3], steps[4], steps[5]];
    RunOne(s0, steps[0], [steps[1], steps[2], steps[3], steps[4], steps[5]]);
    RunFive(Exec(s0, steps[0]), steps[1], steps[2], steps[3], steps[4], steps[5]);
    assert !Taken(s0.store, tenant, dto.attempt);
    var s1 := Exec(Exec(s0, steps[0]), steps[1]);
    assert s1.store == s0.store && s1.requests == map[a := SaleRequest(tenant, dto, Started), b := SaleRequest(tenant, dto', Started)];
    var s2 := Exec(Exec(s1, steps[2]), steps[3]);
    assert s2.store == s0.store && s2.requests == map[a := SaleRequest(tenant, dto, Checked), b := SaleRequest(tenant, dto', Checked)];
  }

  /** One item at its catalogue price of 10.00, paid by card, with 5 of the customer's points redeemed for nothing off. */
  lemma SuchRequestsExist()
    ensures exists points, dto, env :: CanRace(points, dto, env, dto, env)
  {
    var line := SaleLine("item", None, 10.0, 1.0, None);
    var dto := SaleDto("attempt", [line], None, Some("customer"), Tender(Card, None, None, None, true), Some(5.0), false);
    var pricing := PriceResolution.Context(PriceResolution.Catalogue(map["item" := PriceResolution.Item(1000, true, false)], map[]),
                                           None, false, None, "branch");
    var env := Environment(true, true, 0.0, PosEngine.LoyaltySettings(0.0, 0.0, true), 10.0, pricing, None, true);
    assert Validate(dto, env).Ready? by {
      assert [line][..0] == [];
      assert PriceLines(pricing, [], false) == Priced([]);
      assert ResolveAlone(pricing, line, false) == PriceResolution.NoOverride(1000);
      assert PriceLines(pricing, [line], false) == Priced([PriceResolution.NoOverride(1000)]);
    }
    hide Validate;
    assert CanRace(map["customer" := 10.0], dto, env, dto, env);
  }

  lemma SameTaken(st: Store, st': Store)
    requires st.orders == st'.orders
    ensures forall tenant, attempt :: Taken(st, tenant, attempt) <==> Taken(st', tenant, attempt)
  {
  }

  lemma WithSaleKeeps(st: Store, id: OrderId, order: OrderRow, d: Draft)
    requires DraftOk(d)
    ensures var st' := WithSale(st, id, order, d);
            st'.orders.Keys == st.orders.Keys + {id} && st'.effects == st.effects && st'.points == st.points
  {
  }

  lemma LoserIsTold(s: System, b: RequestId, e: Draft, winner: OrderId, other: OrderId)
    requires b in s.requests && s.requests[b].phase == Redeemed(e) && DraftOk(e) && RowChecks(e.payment) && other !in s.store.orders
    requires FindBySaleAttemptId(s.store, s.requests[b].tenant, s.requests[b].dto.attempt) == Some(winner)
    ensures var s' := Exec(Exec(s, Act(b, Insert(other, NoInsertFault))), Act(b, LookUpViolation));
            s'.store == s.store && b in s'.requests && s'.requests[b].phase == Finished(Conflict(winner))
  {
    hide RowChecks, DraftOk, WithSale;
  }

  lemma DraftsOk(s: System, a: RequestId, b: RequestId)
    requires Inv(s) && Racing(s, a, b)
    ensures DraftOk(s.requests[a].phase.draft) && DraftOk(s.requests[b].phase.draft)
  {
    hide StoreOk, OrdersMatchRequests, DraftOk;
    assert PhaseOk(s.store, a, s.requests[a]) && PhaseOk(s.store, b, s.requests[b]);
  }

  lemma BothRedeem(s: System, a: RequestId, b: RequestId)
    requires Racing(s, a, b)
    ensures var d, e := s.requests[a].phase.draft, s.requests[b].phase.draft;
            Exec(Exec(s, Act(a, Redeem(false))), Act(b, Redeem(false))) ==
              System(s.store.(
                       points := s.store.points[d.customer.value :=
                                   s.store.points[d.customer.value] - d.redeemPoints.value - e.redeemPoints.value],
                       effects := s.store.effects + multiset{PointsRedeemed(a)} + multiset{PointsRedeemed(b)}),
                     s.requests[a := s.requests[a].(phase := Redeemed(d))][b := s.requests[b].(phase := Redeemed(e))])
  {
    hide RowChecks, DraftOk, Taken;
    var d, e := s.requests[a].phase.draft, s.requests[b].phase.draft;
    var c := d.customer.value;
    var mid := s.store.points[c := s.store.points[c] - d.redeemPoints.value];
    assert mid[c := mid[c] - e.redeemPoints.value] == s.store.points[c := mid[c] - e.redeemPoints.value];
  }

  /** A pooled insert under a free attempt, and the lookup that a loser makes afterwards. */
  lemma InsertFree(s: System, a: RequestId, d: Draft, id: OrderId)
    requires a in s.requests && s.requests[a].phase == Redeemed(d) && DraftOk(d) && RowChecks(d.payment) && d.pooled
    requires id !in s.store.orders && !Taken(s.store, s.requests[a].tenant, s.requests[a].dto.attempt)
    ensures var r := s.requests[a];
            var s' := Exec(s, Act(a, Insert(id, NoInsertFault)));
            && s' == Advance(s, a, Moved(WithSale(s.store, id, OrderRowOf(r.tenant, r.dto.attempt, d, a), d), Committed(d, id, 0)))
            && Taken(s'.store, r.tenant, r.dto.attempt)
            && FindBySaleAttemptId(s'.store, r.tenant, r.dto.attempt) == Some(id)
  {
    hide RowChecks, ItemRows, AuditRows, DraftOk;
    var s' := Exec(s, Act(a, Insert(id, NoInsertFault)));
    assert s'.store.orders[id] == OrderRowOf(s.requests[a].tenant, s.requests[a].dto.attempt, d, a);
  }

  lemma RunOne(s: System, step: Step, rest: seq<Step>)
    ensures Run(s, [step] + rest) == Run(Exec(s, step), rest)
  {
    hide Exec;
    assert ([step] + rest)[1..] == rest;
  }

  lemma RunFive(s: System, a: Step, b: Step, c: Step, d: Step, e: Step)
    ensures Run(s, [a, b, c, d, e]) == Exec(Exec(Exec(Exec(Exec(s, a), b), c), d), e)
  {
    hide Exec;
    assert [a, b, c, d, e] == [a] + [b, c, d, e] && [b, c, d, e] == [b] + [c, d, e];
    assert [c, d, e] == [c] + [d, e] && [d, e] == [d] + [e];
    RunOne(s, a, [b, c, d, e]);
    RunOne(Exec(s, a), b, [c, d, e]);
    RunOne(Exec(Exec(s, a), b), c, [d, e]);
    RunOne(Exec(Exec(Exec(s, a), b), c), d, [e]);
    RunOne(Exec(Exec(Exec(Exec(s, a), b), c), d), e, []);
    assert [e] + [] == [e];
  }
}
