/**
 What a sale decides, said of the request and of what the server reads alone: when it is accepted and why it is
 refused, what an accepted sale charges, and what its steps take from and give to the customer.
 */
module SaleDecisions {
  import opened Options
  import opened Rounding
  import opened EffectiveRoles
  import opened PriceResolution
  import opened PricedLines
  import opened Payments
  import opened SaleProtocol
  import PosEngine

  // ----- the lines -----

  /** The request asks to redeem points. */
  predicate Redeems(dto: SaleDto) {
    dto.redeemPoints.Some? && dto.redeemPoints.value != 0.0
  }

  predicate AtOfficialPrice(ctx: Context, l: SaleLine) {
    var official := ResolveOfficialPrice(ctx.catalogue, l.itemId, l.variantId);
    official.Some? && l.unitPrice == official.value as real / 100.0
  }

  /** Another price is asked for, and every condition of an override is met. */
  ghost predicate MayHaveItsPrice(ctx: Context, l: SaleLine, discounted: bool) {
    && !AtOfficialPrice(ctx, l)
    && forall c :: !Unmet(ctx, Request(l.itemId, l.variantId, l.unitPrice, l.reason, discounted), ResolveEffectiveRole(ctx.roleRows), c)
  }

  ghost predicate LineAccepted(ctx: Context, l: SaleLine, discounted: bool) {
    AtOfficialPrice(ctx, l) || MayHaveItsPrice(ctx, l, discounted)
  }

  lemma LineDecided(ctx: Context, l: SaleLine, discounted: bool)
    requires l.unitPrice >= 0.0
    ensures var r := ResolveAlone(ctx, l, discounted);
            && (r.NoOverride? <==> AtOfficialPrice(ctx, l))
            && (r.Approved? <==> MayHaveItsPrice(ctx, l, discounted))
            && (r.Rejected? ==> FirstUnmet(ctx, Request(l.itemId, l.variantId, l.unitPrice, l.reason, discounted),
                                           ResolveEffectiveRole(ctx.roleRows), r.code))
            && (!r.Rejected? ==> Some(r.official) == ResolveOfficialPrice(ctx.catalogue, l.itemId, l.variantId))
  {
    hide ResolvePrice, Unmet, ResolveOfficialPrice, ResolveEffectiveRole, ResolveEffectivePolicy;
    DecisionSaysWhy(ctx, RequestOf(l, discounted));
  }

  // ----- what an accepted sale charges -----

  /** The reductions that a request asks for: its discount, its coupon when it names one, and its points. */
  ghost predicate Charges(dto: SaleDto, env: Environment, t: PosEngine.Totals) {
    PosEngine.AreAmounts(t, RequestedLines(dto),
      PosEngine.Reductions(dto.discount, if dto.hasCoupon then env.coupon else None,
                           if Redeems(dto) then dto.redeemPoints.value else 0.0, env.loyalty, env.taxRate))
  }

  /** Each line of a draft is the requested one with the decision made for it. */
  ghost predicate Lines(dto: SaleDto, env: Environment, lines: seq<DraftLine>) {
    && |lines| == |dto.lines|
    && forall i :: 0 <= i < |lines| ==>
         && lines[i].itemId == dto.lines[i].itemId && lines[i].quantity == dto.lines[i].quantity
         && Some(lines[i].resolution.official) == ResolveOfficialPrice(env.pricing.catalogue, dto.lines[i].itemId, dto.lines[i].variantId)
         && (if AtOfficialPrice(env.pricing, dto.lines[i]) then lines[i].resolution.NoOverride? else lines[i].resolution.Approved?)
  }

  /** An accepted sale is drafted as asked for and as read: nothing is dropped, swapped or charged otherwise. */
  lemma DraftIsWhatWasAsked(dto: SaleDto, env: Environment)
    requires ValidDto(dto) && Validate(dto, env).Ready?
    ensures var d := Validate(dto, env).draft;
            && Charges(dto, env, d.totals) && Lines(dto, env, d.lines)
            && d.payment == StoredPayment(d.totals.total, dto.tender)
            && d.customer == dto.customer && d.redeemPoints == (if Redeems(dto) then dto.redeemPoints else None)
            && d.hasCoupon == dto.hasCoupon && d.loyalty == env.loyalty && d.pooled == env.pooledWrites
  {
    var results := PriceLines(env.pricing, dto.lines, dto.discount.Some?).results;
    ValidateGivesFittingDraft(dto, env);
    hide PriceLines, PosEngine.Checkout, CheckPayment, StoredPayment, ResolveAlone, ResolveOfficialPrice, AtOfficialPrice, Unmet, Charges,
         PosEngine.CalculateSubtotal;
    var d := Validate(dto, env).draft;
    ChargesFollow(dto, env, PricedAs(dto.lines, results));
    forall i | 0 <= i < |d.lines|
      ensures Some(d.lines[i].resolution.official) == ResolveOfficialPrice(env.pricing.catalogue, dto.lines[i].itemId, dto.lines[i].variantId)
      ensures if AtOfficialPrice(env.pricing, dto.lines[i]) then d.lines[i].resolution.NoOverride? else d.lines[i].resolution.Approved?
    {
      LineDecided(env.pricing, dto.lines[i], dto.discount.Some?);
    }
    assert PricedAs(dto.lines, results) == RequestedLines(dto);
  }

  lemma ChargesFollow(dto: SaleDto, env: Environment, lines: seq<PosEngine.Line>)
    requires lines == RequestedLines(dto)
    ensures Charges(dto, env, PosEngine.Checkout(lines, SaleProtocol.Reductions(dto, env)))
  {
    hide PosEngine.Checkout, PosEngine.AreAmounts;
    PosEngine.CheckoutAmounts(lines, SaleProtocol.Reductions(dto, env));
  }

  // ----- accepted or refused -----

  /** The line is the first that is not accepted, and the code is of its first condition that is not met. */
  ghost predicate FirstBadLine(ctx: Context, lines: seq<SaleLine>, discounted: bool, line: nat, code: ReasonCode) {
    && line < |lines| && !LineAccepted(ctx, lines[line], discounted)
    && (forall i :: 0 <= i < line ==> LineAccepted(ctx, lines[i], discounted))
    && var l := lines[line];
    FirstUnmet(ctx, Request(l.itemId, l.variantId, l.unitPrice, l.reason, discounted), ResolveEffectiveRole(ctx.roleRows), code)
  }

  lemma PricedOrFirstBadLine(ctx: Context, lines: seq<SaleLine>, discounted: bool)
    requires ValidLines(lines)
    ensures var out := PriceLines(ctx, lines, discounted);
            && (out.Priced? ==> forall i :: 0 <= i < |lines| ==>
                  && LineAccepted(ctx, lines[i], discounted)
                  && (out.results[i].Approved? <==> MayHaveItsPrice(ctx, lines[i], discounted)))
            && (out.Refused? ==> FirstBadLine(ctx, lines, discounted, out.index, out.code))
  {
    hide ResolveAlone, FirstUnmet, MayHaveItsPrice, AtOfficialPrice;
    forall i | 0 <= i < |lines|
      ensures !ResolveAlone(ctx, lines[i], discounted).Rejected? <==> LineAccepted(ctx, lines[i], discounted)
      ensures ResolveAlone(ctx, lines[i], discounted).Approved? <==> MayHaveItsPrice(ctx, lines[i], discounted)
    {
      LineDecided(ctx, lines[i], discounted);
    }
    var out := PriceLines(ctx, lines, discounted);
    if out.Refused? { LineDecided(ctx, lines[out.index], discounted); }
  }

  /** The condition that a refusal before the first write says is not met, given what the sale would charge. */
  ghost predicate NotMet(dto: SaleDto, env: Environment, total: int, why: Rejection)
    requires ValidDto(dto)
  {
    match why
    case NoOpenSession => !env.sessionOpen
    case CustomerNotFound => dto.customer.Some? && !env.customerFound
    case LoyaltyDisabled => Redeems(dto) && !env.loyalty.enabled
    case CustomerRequiredToRedeem => Redeems(dto) && dto.customer.None?
    case InsufficientPoints => Redeems(dto) && env.balance < dto.redeemPoints.value
    case PriceRefused(line, code) => FirstBadLine(env.pricing, dto.lines, dto.discount.Some?, line, code)
    case AtomicWriteRequired =>
      !env.pooledWrites && exists i :: 0 <= i < |dto.lines| && MayHaveItsPrice(env.pricing, dto.lines[i], dto.discount.Some?)
    case CouponRejected => dto.hasCoupon && env.coupon.None?
    case PaymentRejected(error) => CheckPayment(total, dto.tender) == Some(error)
    case AccountingRefused => false
  }

  /** The order in which the conditions are looked at. */
  function Order(why: Rejection): nat {
    match why
    case NoOpenSession => 0
    case CustomerNotFound => 1
    case LoyaltyDisabled => 2
    case CustomerRequiredToRedeem => 3
    case InsufficientPoints => 4
    case PriceRefused(_, _) => 5
    case AtomicWriteRequired => 6
    case CouponRejected => 7
    case PaymentRejected(_) => 8
    case AccountingRefused => 9
  }

  /** A sale is accepted exactly when every condition is met, and refused for the first that is not. */
  lemma AcceptedOrRefused(dto: SaleDto, env: Environment)
    requires ValidDto(dto)
    ensures var t := PosEngine.Checkout(RequestedLines(dto), SaleProtocol.Reductions(dto, env));
            var phase := Validate(dto, env);
            && Charges(dto, env, t)
            && (phase.Ready? <==> forall why :: !NotMet(dto, env, t.total, why))
            && (phase.Finished? ==> && NotMet(dto, env, t.total, phase.response.why)
                                    && forall other :: Order(other) < Order(phase.response.why) ==> !NotMet(dto, env, t.total, other))
  {
    hide PriceLines, PosEngine.Checkout, CheckPayment, StoredPayment, ResolveAlone, Charges, FirstUnmet, MayHaveItsPrice, AtOfficialPrice,
         SaleProtocol.Reductions;
    ChargesFollow(dto, env, RequestedLines(dto));
    PricedOrFirstBadLine(env.pricing, dto.lines, dto.discount.Some?);
    ValidateGivesFittingDraft(dto, env);
    var out := PriceLines(env.pricing, dto.lines, dto.discount.Some?);
    if out.Priced? { PricedAsRequested(dto, env); }
    var t := PosEngine.Checkout(RequestedLines(dto), SaleProtocol.Reductions(dto, env));
    var phase := Validate(dto, env);
    if phase.Ready? {
      assert phase.draft.totals == t;
      forall why ensures !NotMet(dto, env, t.total, why) {}
    } else {
      var why := phase.response.why;
      assert NotMet(dto, env, t.total, why);
      forall other | Order(other) < Order(why) ensures !NotMet(dto, env, t.total, other) {}
    }
  }

  lemma PricedAsRequested(dto: SaleDto, env: Environment)
    requires ValidDto(dto) && PriceLines(env.pricing, dto.lines, dto.discount.Some?).Priced?
    ensures PricedAs(dto.lines, PriceLines(env.pricing, dto.lines, dto.discount.Some?).results) == RequestedLines(dto)
  {
    hide PriceLines, ResolvePrice;
    var results := PriceLines(env.pricing, dto.lines, dto.discount.Some?).results;
    forall i | 0 <= i < |results| ensures FinalPrice(results[i]) == dto.lines[i].unitPrice {
      DecisionSaysWhy(env.pricing, RequestOf(dto.lines[i], dto.discount.Some?));
    }
  }

  // ----- what is stored, over every run -----

  /** The order row has the amounts and the payment of a checkout of this request, for what the server read at some point. */
  ghost predicate ChargesAsAsked(o: OrderRow, tenant: string, dto: SaleDto, env: Environment, t: PosEngine.Totals) {
    && Charges(dto, env, t)
    && (forall why :: ValidDto(dto) ==> !NotMet(dto, env, t.total, why))
    && o.tenant == tenant && o.attempt == dto.attempt
    && o.subtotal == t.subtotal && o.discount == t.discount && o.tax == t.tax
    && o.payment == StoredPayment(t.total, dto.tender)
  }

  function DraftIn(phase: Phase): Option<Draft> {
    match phase
    case Ready(d) => Some(d)
    case Redeemed(d) => Some(d)
    case HeaderInserted(d, _) => Some(d)
    case Committed(d, _, _) => Some(d)
    case _ => None
  }

  ghost predicate Drafted(dto: SaleDto, d: Draft) {
    ValidDto(dto) && exists env :: Validate(dto, env) == Ready(d)
  }

  ghost predicate RowDrafted(o: OrderRow, r: SaleRequest) {
    exists d :: Drafted(r.dto, d) && o == OrderRowOf(r.tenant, r.dto.attempt, d, o.request)
  }

  ghost predicate AllDrafted(s: System) {
    && (forall rid :: rid in s.requests && DraftIn(s.requests[rid].phase).Some? ==>
          Drafted(s.requests[rid].dto, DraftIn(s.requests[rid].phase).value))
    && (forall id :: id in s.store.orders ==>
          s.store.orders[id].request in s.requests && RowDrafted(s.store.orders[id], s.requests[s.store.orders[id].request]))
  }

  lemma ActionKeepsDrafted(st: Store, rid: RequestId, r: SaleRequest, action: Action)
    requires DraftIn(r.phase).Some? ==> Drafted(r.dto, DraftIn(r.phase).value)
    ensures var m := ActionOutcome(st, rid, r, action);
            && (DraftIn(m.phase).Some? ==> Drafted(r.dto, DraftIn(m.phase).value))
            && (forall id :: id in m.store.orders ==>
                  (id in st.orders && m.store.orders[id] == st.orders[id]) || (m.store.orders[id].request == rid && RowDrafted(m.store.orders[id], r)))
  {
    hide Validate, DraftOk, RowChecks, Taken, ItemRows, AuditRows, PosEngine.PointsEarned;
    if action.DoValidate? && r.phase.Checked? && ValidDto(r.dto) {
      assert DraftIn(Validate(r.dto, action.env)).Some? ==> Validate(r.dto, action.env) == Ready(DraftIn(Validate(r.dto, action.env)).value);
    }
  }

  lemma StepKeepsDrafted(s: System, step: Step)
    requires AllDrafted(s)
    ensures AllDrafted(Exec(s, step))
  {
    hide ActionOutcome, Drafted, DraftIn, RowDrafted;
    if step.Act? && step.rid in s.requests {
      var r := s.requests[step.rid];
      ActionKeepsDrafted(s.store, step.rid, r, step.action);
      SameRowDrafted(s, step);
    } else {
      NothingDraftedAtStart();
    }
  }

  lemma NothingDraftedAtStart()
    ensures DraftIn(Started).None?
  {
  }

  lemma SameRowDrafted(s: System, step: Step)
    requires step.Act? && step.rid in s.requests
    ensures forall o, r: SaleRequest, phase :: RowDrafted(o, r) ==> RowDrafted(o, r.(phase := phase))
  {
  }

  lemma {:induction false} RunKeepsDrafted(s: System, steps: seq<Step>)
    requires AllDrafted(s)
    ensures AllDrafted(Run(s, steps))
    decreases |steps|
  {
    hide Exec, AllDrafted;
    if steps != [] {
      StepKeepsDrafted(s, steps[0]);
      RunKeepsDrafted(Exec(s, steps[0]), steps[1..]);
    }
  }

  /**
   In every reachable state each order charges what its request asked for: the subtotal of its lines less its discount, its
   coupon and its points, with the tax on the rest, paid as it said, after every condition was met.
   */
  lemma OrdersChargeWhatWasAsked(s0: System, steps: seq<Step>, id: OrderId)
    requires Initial(s0) && id in Run(s0, steps).store.orders
    ensures var s := Run(s0, steps);
            var o := s.store.orders[id];
            && o.request in s.requests && ValidDto(s.requests[o.request].dto)
            && exists env, t :: ChargesAsAsked(o, s.requests[o.request].tenant, s.requests[o.request].dto, env, t)
  {
    hide Run, NotMet, Charges, Validate, PosEngine.Checkout;
    RunKeepsDrafted(s0, steps);
    var s := Run(s0, steps);
    var o := s.store.orders[id];
    var r := s.requests[o.request];
    var d :| Drafted(r.dto, d) && o == OrderRowOf(r.tenant, r.dto.attempt, d, o.request);
    var env :| Validate(r.dto, env) == Ready(d);
    AcceptedAsAsked(r.dto, env);
    assert ChargesAsAsked(o, r.tenant, r.dto, env, d.totals);
  }

  lemma AcceptedAsAsked(dto: SaleDto, env: Environment)
    requires ValidDto(dto) && Validate(dto, env).Ready?
    ensures var d := Validate(dto, env).draft;
            && Charges(dto, env, d.totals) && (forall why :: !NotMet(dto, env, d.totals.total, why))
            && d.payment == StoredPayment(d.totals.total, dto.tender)
  {
    hide PriceLines, PosEngine.Checkout, StoredPayment, CheckPayment, Charges, NotMet, SaleProtocol.Reductions;
    AcceptedOrRefused(dto, env);
    PricedOrFirstBadLine(env.pricing, dto.lines, dto.discount.Some?);
    if PriceLines(env.pricing, dto.lines, dto.discount.Some?).Priced? { PricedAsRequested(dto, env); }
  }

  // ----- what the steps write -----

  /** A redemption takes all the points asked for, or none: the balance must cover them, and then the request goes on. */
  lemma RedemptionTakesAllOrNone(st: Store, rid: RequestId, r: SaleRequest, d: Draft, fault: bool)
    requires r.phase == Ready(d)
    ensures var m := ActionOutcome(st, rid, r, Redeem(fault));
            var asked := d.customer.Some? && d.redeemPoints.Some? && d.redeemPoints.value > 0.0;
            var covered := d.customer.Some? && d.redeemPoints.Some? && d.customer.value in st.points && st.points[d.customer.value] >= d.redeemPoints.value;
            && (m.phase == Redeemed(d) <==> !asked || (covered && !fault))
            && (m.phase == Finished(Failed) <==> asked && fault)
            && (m.phase == Finished(RejectedSale(InsufficientPoints)) <==> asked && !fault && !covered)
            && m.store.points.Keys == st.points.Keys
            && (forall c :: c in st.points ==>
                  m.store.points[c] == if asked && covered && !fault && d.customer == Some(c) then st.points[c] - d.redeemPoints.value else st.points[c])
            && m.store.effects == (if asked && covered && !fault then st.effects + multiset{PointsRedeemed(rid)} else st.effects)
            && m.store.orders == st.orders && m.store.items == st.items && m.store.audits == st.audits
  {
  }

  /** The rows of an order: every line with its quantity, price and official price, and an audit row for each other price. */
  ghost predicate SaleRows(st: Store, id: OrderId, d: Draft) {
    && id in st.items && |st.items[id]| == |d.lines|
    && (forall i :: 0 <= i < |d.lines| && !d.lines[i].resolution.Rejected? ==>
          var (row, l) := (st.items[id][i], d.lines[i]);
          var price := if l.resolution.NoOverride? then l.resolution.official as real / 100.0 else l.resolution.approved;
          && row.itemId == l.itemId && row.quantity == l.quantity && row.officialSnapshot == l.resolution.official
          && PosEngine.Rounds(row.price, price))
  }

  ghost predicate AuditedExactly(st: Store, before: set<AuditRow>, id: OrderId, d: Draft) {
    && (forall a :: a in before ==> a in st.audits)
    && (forall a :: a in st.audits ==> a in before || (a.order == id && a.line < |d.lines| && d.lines[a.line].resolution.Approved?))
    && (forall i: nat :: i < |d.lines| && d.lines[i].resolution.Approved? ==>
          exists a :: a in st.audits && a.order == id && a.line == i && a.official == d.lines[i].resolution.official
                      && PosEngine.Rounds(a.approved, d.lines[i].resolution.approved))
  }

  /** A pooled sale that is stored has its order, all its item rows and all its audit rows at once. */
  lemma PooledSaleWritesAll(st: Store, id: OrderId, order: OrderRow, d: Draft)
    requires DraftOk(d)
    ensures var st' := WithSale(st, id, order, d);
            && st'.orders == st.orders[id := order] && SaleRows(st', id, d) && AuditedExactly(st', st.audits, id, d)
            && st'.points == st.points && st'.effects == st.effects
            && forall other :: other in st.items && other != id ==> other in st'.items && st'.items[other] == st.items[other]
  {
    hide ToCents, PosEngine.Rounds;
    forall i: nat | i < |d.lines| && !d.lines[i].resolution.Rejected?
      ensures PosEngine.Rounds(ToCents(FinalPrice(d.lines[i].resolution)), FinalPrice(d.lines[i].resolution))
    {
      PosEngine.RoundingIsNear(FinalPrice(d.lines[i].resolution));
    }
    var st' := WithSale(st, id, order, d);
    forall i: nat | i < |d.lines| && d.lines[i].resolution.Approved?
      ensures exists a :: a in st'.audits && a.order == id && a.line == i && a.official == d.lines[i].resolution.official
                          && PosEngine.Rounds(a.approved, d.lines[i].resolution.approved)
    {
      var a := AuditRow(id, i, d.lines[i].resolution.official, ToCents(d.lines[i].resolution.approved));
      assert a in AuditRows(d, id);
    }
  }

  /** What the three steps leave: the answer, the rows untouched, the coupon used up, the stock taken, the points given. */
  ghost predicate FollowedUp(st: Store, m: Moved, d: Draft, id: OrderId, coupon: bool, stock: bool, award: bool, earned: int) {
    var awarded := award && d.customer.Some? && d.customer.value in st.points && d.loyalty.enabled && earned > 0;
    && m.phase == Finished(Created(id))
    && m.store.orders == st.orders && m.store.items == st.items && m.store.audits == st.audits
    && m.store.effects == st.effects + (if d.hasCoupon && coupon then multiset{CouponRedeemed(id)} else multiset{})
                          + (if stock then multiset{StockDeducted(id)} else multiset{})
                          + (if awarded then multiset{PointsAwarded(id)} else multiset{})
    && m.store.points == if awarded then st.points[d.customer.value := st.points[d.customer.value] + earned as real] else st.points
  }

  /**
   A stored sale is always answered as created. The coupon is used up exactly when one was redeemed and that step worked,
   the stock goes down exactly when that step worked, and the customer gains exactly the points earned.
   */
  lemma SaleIsFollowedUp(st: Store, d: Draft, id: OrderId, coupon: bool, stock: bool, award: bool, tier: real)
    ensures exists earned :: PosEngine.Earns(earned, d.totals.total, d.loyalty, tier)
                             && FollowedUp(st, AfterThree(st, d, id, coupon, stock, award, tier), d, id, coupon, stock, award, earned)
  {
    hide PosEngine.PointsEarned, PosEngine.Earns, FollowedUp, AfterThree;
    var earned := PosEngine.PointsEarned(d.totals.total, d.loyalty, tier);
    PosEngine.PointsAreFlooredTwice(d.totals.total, d.loyalty, tier);
    StepsFollowUp(st, d, id, coupon, stock, award, tier);
    assert FollowedUp(st, AfterThree(st, d, id, coupon, stock, award, tier), d, id, coupon, stock, award, earned);
  }

  lemma StepsFollowUp(st: Store, d: Draft, id: OrderId, coupon: bool, stock: bool, award: bool, tier: real)
    ensures FollowedUp(st, AfterThree(st, d, id, coupon, stock, award, tier), d, id, coupon, stock, award,
                       PosEngine.PointsEarned(d.totals.total, d.loyalty, tier))
  {
    hide PosEngine.PointsEarned, AfterSaleOutcome;
    CouponIsFirst(st, d, id, coupon, tier);
    var first := AfterSaleOutcome(st, d, id, 0, coupon, tier).store;
    StockIsNext(first, d, id, stock, tier);
    AwardIsLast(AfterSaleOutcome(first, d, id, 1, stock, tier).store, d, id, award, tier);
  }

  lemma CouponIsFirst(st: Store, d: Draft, id: OrderId, coupon: bool, tier: real)
    ensures AfterSaleOutcome(st, d, id, 0, coupon, tier).store ==
              st.(effects := st.effects + if d.hasCoupon && coupon then multiset{CouponRedeemed(id)} else multiset{})
  {
    AddingNothing(st.effects);
  }

  lemma StockIsNext(st: Store, d: Draft, id: OrderId, stock: bool, tier: real)
    ensures AfterSaleOutcome(st, d, id, 1, stock, tier).store ==
              st.(effects := st.effects + if stock then multiset{StockDeducted(id)} else multiset{})
  {
    AddingNothing(st.effects);
  }

  lemma AddingNothing(effects: multiset<Effect>)
    ensures effects + multiset{} == effects
  {
  }

  lemma AwardIsLast(st: Store, d: Draft, id: OrderId, award: bool, tier: real)
    ensures var earned := PosEngine.PointsEarned(d.totals.total, d.loyalty, tier);
            var awarded := award && d.customer.Some? && d.customer.value in st.points && d.loyalty.enabled && earned > 0;
            AfterSaleOutcome(st, d, id, 2, award, tier) ==
              Moved(st.(points := if awarded then st.points[d.customer.value := st.points[d.customer.value] + earned as real] else st.points,
                        effects := st.effects + if awarded then multiset{PointsAwarded(id)} else multiset{}),
                    Finished(Created(id)))
  {
    AddingNothing(st.effects);
  }
}
