/**
 The per-line price loop of `InvoicesService.create`: every line's client price is replaced in place by
 the resolved one, the effective role is looked up at most once, and the first rejected line aborts.
 */
module PricedLines {
  import opened Options
  import opened Rounding
  import opened EffectiveRoles
  import opened PriceResolution
  import PosEngine

  datatype SaleLine = SaleLine(itemId: string, variantId: Option<string>, unitPrice: real, quantity: real,
                               reason: Option<string>)

  datatype Outcome = Priced(results: seq<Resolution>) | Refused(index: nat, code: ReasonCode)

  /** The request validation of the endpoint: no negative price. */
  predicate ValidLines(lines: seq<SaleLine>) {
    forall i :: 0 <= i < |lines| ==> lines[i].unitPrice >= 0.0
  }

  function RequestOf(l: SaleLine, hasDiscount: bool): Request {
    Request(l.itemId, l.variantId, l.unitPrice, l.reason, hasDiscount)
  }

  /** One line resolved on its own, with nothing carried over from other lines. */
  function ResolveAlone(ctx: Context, l: SaleLine, hasDiscount: bool): Resolution
    requires l.unitPrice >= 0.0
  {
    ResolvePrice(ctx, RequestOf(l, hasDiscount), None)
  }

  function FinalPrice(r: Resolution): real
    requires !r.Rejected?
  {
    if r.NoOverride? then Amount(r.official) else r.approved
  }

  function Repriced(l: SaleLine, r: Resolution): SaleLine
    requires !r.Rejected?
  {
    l.(unitPrice := FinalPrice(r))
  }

  /** The lines resolved independently of each other, up to the first rejection. */
  function PriceLines(ctx: Context, lines: seq<SaleLine>, hasDiscount: bool): (out: Outcome)
    requires ValidLines(lines)
    ensures out.Priced? ==> |out.results| == |lines| && forall i :: 0 <= i < |lines| ==>
                              out.results[i] == ResolveAlone(ctx, lines[i], hasDiscount) && !out.results[i].Rejected?
    ensures out.Refused? ==> out.index < |lines|
                             && ResolveAlone(ctx, lines[out.index], hasDiscount).Rejected?
                             && ResolveAlone(ctx, lines[out.index], hasDiscount).code == out.code
                             && forall i :: 0 <= i < out.index ==> !ResolveAlone(ctx, lines[i], hasDiscount).Rejected?
  {
    if lines == [] then Priced([]) else
    var before := PriceLines(ctx, lines[..|lines| - 1], hasDiscount);
    if before.Refused? then before else
    var r := ResolveAlone(ctx, lines[|lines| - 1], hasDiscount);
    if r.Rejected? then Refused(|lines| - 1, r.code) else Priced(before.results + [r])
  }

  /** The decision needs the effective role: the item is found, and the price differs from a non-zero official one. */
  predicate NeedsRole(ctx: Context, q: Request) {
    var official := ResolveOfficialPrice(ctx.catalogue, q.itemId, q.variantId);
    official.Some? && official.value != 0 && q.unitPrice != Amount(official.value)
  }

  /** One of the first n lines needs the role. */
  predicate SomeLineNeedsRole(ctx: Context, lines: seq<SaleLine>, n: nat, hasDiscount: bool)
    requires n <= |lines|
  {
    exists i :: 0 <= i < n && NeedsRole(ctx, RequestOf(lines[i], hasDiscount))
  }

  lemma OneMoreLine(ctx: Context, lines: seq<SaleLine>, n: nat, hasDiscount: bool)
    requires n < |lines|
    ensures SomeLineNeedsRole(ctx, lines, n + 1, hasDiscount) <==>
            SomeLineNeedsRole(ctx, lines, n, hasDiscount) || NeedsRole(ctx, RequestOf(lines[n], hasDiscount))
  {
    hide NeedsRole;
  }

  /** The caller's view of one call: `resolvePrice` asks the resolver only when no role was supplied. */
  method ResolveOne(ctx: Context, q: Request, supplied: Option<Option<EffectiveRole>>)
    returns (r: Resolution, asked: bool)
    requires q.unitPrice >= 0.0
    ensures r == ResolvePrice(ctx, q, supplied)
    ensures asked <==> supplied.None? && NeedsRole(ctx, q)
  {
    hide Decide, ResolveEffectiveRole, ResolveEffectivePolicy;
    r := ResolvePrice(ctx, q, supplied);
    asked := supplied.None? && (r.Approved? || (r.Rejected? && r.consulted.Some?));
  }

  /** One line, and the role that is kept for the lines after it. */
  method ResolveLine(ctx: Context, line: SaleLine, hasDiscount: bool, cached: Option<Option<EffectiveRole>>)
    returns (r: Resolution, asked: bool, kept: Option<Option<EffectiveRole>>)
    requires line.unitPrice >= 0.0 && (cached.Some? ==> cached.value == ResolveEffectiveRole(ctx.roleRows))
    ensures r == ResolveAlone(ctx, line, hasDiscount)
    ensures asked <==> cached.None? && NeedsRole(ctx, RequestOf(line, hasDiscount))
    ensures kept.Some? <==> cached.Some? || NeedsRole(ctx, RequestOf(line, hasDiscount))
    ensures kept.Some? ==> kept.value == ResolveEffectiveRole(ctx.roleRows)
  {
    hide ResolvePrice, ResolveEffectiveRole, NeedsRole, ResolveAlone, RequestOf;
    LineResolvedAlone(ctx, line, hasDiscount, cached);
    NeedsRoleIsConsulting(ctx, line, hasDiscount);
    kept := cached;
    r, asked := ResolveOne(ctx, RequestOf(line, hasDiscount), cached);
    match r {
      case Approved(_, _, _, _, _, _, role, _) => if cached.None? { kept := Some(Some(role)); }
      case Rejected(_, _, _, consulted) => if cached.None? && consulted.Some? { kept := consulted; }
      case NoOverride(_) =>
    }
  }

  /**
   The loop gives the same prices and the same first failure as resolving every line alone, and asks
   the role resolver at most once. Lines before a failure keep their new price; the rest are untouched.
   */
  method ResolveLines(ctx: Context, lines: array<SaleLine>, hasDiscount: bool)
    returns (out: Outcome, anyApprovedOverride: bool, resolverCalls: nat)
    requires ValidLines(lines[..])
    modifies lines
    ensures out == PriceLines(ctx, old(lines[..]), hasDiscount)
    ensures var done := if out.Priced? then lines.Length else out.index;
            && done <= lines.Length
            && (forall i :: 0 <= i < done ==>
                  && !ResolveAlone(ctx, old(lines[..])[i], hasDiscount).Rejected?
                  && lines[i] == Repriced(old(lines[..])[i], ResolveAlone(ctx, old(lines[..])[i], hasDiscount)))
            && (forall i :: done <= i < lines.Length ==> lines[i] == old(lines[..])[i])
            && (anyApprovedOverride <==> exists i :: 0 <= i < done && ResolveAlone(ctx, old(lines[..])[i], hasDiscount).Approved?)
            && resolverCalls == if SomeLineNeedsRole(ctx, old(lines[..]), if out.Priced? then done else done + 1, hasDiscount) then 1 else 0
  {
    hide ResolvePrice, ResolveEffectiveRole, NeedsRole, PriceLines, ResolveAlone, RequestOf, SomeLineNeedsRole;
    NoLines(ctx, hasDiscount);
    ghost var input := lines[..];
    var cached: Option<Option<EffectiveRole>> := None;
    var results := [];
    anyApprovedOverride, resolverCalls := false, 0;
    var n := 0;
    while n < lines.Length
      invariant 0 <= n <= lines.Length
      invariant PriceLines(ctx, input[..n], hasDiscount) == Priced(results)
      invariant |results| == n
      invariant forall i :: 0 <= i < n ==> !results[i].Rejected? && results[i] == ResolveAlone(ctx, input[i], hasDiscount)
      invariant forall i :: 0 <= i < n ==> lines[i] == Repriced(input[i], results[i])
      invariant forall i :: n <= i < lines.Length ==> lines[i] == input[i]
      invariant cached.Some? ==> cached.value == ResolveEffectiveRole(ctx.roleRows)
      invariant cached.Some? <==> SomeLineNeedsRole(ctx, input, n, hasDiscount)
      invariant anyApprovedOverride <==> exists i :: 0 <= i < n && results[i].Approved?
      invariant resolverCalls == if cached.Some? then 1 else 0
    {
      var line := lines[n];
      NextLine(ctx, input, n, hasDiscount);
      OneMoreLine(ctx, input, n, hasDiscount);
      var r, asked;
      r, asked, cached := ResolveLine(ctx, line, hasDiscount, cached);
      resolverCalls := resolverCalls + if asked then 1 else 0;
      if r.Rejected? {
        out := Refused(n, r.code);
        RefusalCarries(ctx, input, n + 1, hasDiscount);
        return;
      }
      anyApprovedOverride := anyApprovedOverride || r.Approved?;
      results := results + [r];
      lines[n] := line.(unitPrice := if r.NoOverride? then Amount(r.official) else r.approved);
      n := n + 1;
    }
    assert input[..n] == input;
    out := Priced(results);
  }

  lemma LineResolvedAlone(ctx: Context, l: SaleLine, hasDiscount: bool, supplied: Option<Option<EffectiveRole>>)
    requires l.unitPrice >= 0.0 && (supplied.Some? ==> supplied.value == ResolveEffectiveRole(ctx.roleRows))
    ensures RequestOf(l, hasDiscount).unitPrice >= 0.0
    ensures ResolvePrice(ctx, RequestOf(l, hasDiscount), supplied) == ResolveAlone(ctx, l, hasDiscount)
  {
    hide ResolvePrice, ResolveEffectiveRole;
    SuppliedRoleChangesNothing(ctx, RequestOf(l, hasDiscount));
  }

  lemma NoLines(ctx: Context, hasDiscount: bool)
    ensures PriceLines(ctx, [], hasDiscount) == Priced([])
    ensures forall lines :: !SomeLineNeedsRole(ctx, lines, 0, hasDiscount)
  {
  }

  lemma NextLine(ctx: Context, lines: seq<SaleLine>, n: nat, hasDiscount: bool)
    requires ValidLines(lines) && n < |lines| && PriceLines(ctx, lines[..n], hasDiscount).Priced?
    ensures var r := ResolveAlone(ctx, lines[n], hasDiscount);
            PriceLines(ctx, lines[..n + 1], hasDiscount) ==
              if r.Rejected? then Refused(n, r.code) else Priced(PriceLines(ctx, lines[..n], hasDiscount).results + [r])
  {
    hide ResolvePrice;
    assert lines[..n + 1][..n] == lines[..n] && lines[..n + 1][n] == lines[n];
  }

  /** Supplying the role found for an earlier line changes no decision. */
  lemma SuppliedRoleChangesNothing(ctx: Context, q: Request)
    requires q.unitPrice >= 0.0
    ensures ResolvePrice(ctx, q, Some(ResolveEffectiveRole(ctx.roleRows))) == ResolvePrice(ctx, q, None)
  {
  }

  lemma NeedsRoleIsConsulting(ctx: Context, l: SaleLine, hasDiscount: bool)
    requires l.unitPrice >= 0.0
    ensures var r := ResolveAlone(ctx, l, hasDiscount);
            && (NeedsRole(ctx, RequestOf(l, hasDiscount)) <==> r.Approved? || (r.Rejected? && r.consulted.Some?))
            && (r.Approved? ==> Some(r.role) == ResolveEffectiveRole(ctx.roleRows))
            && (r.Rejected? && r.consulted.Some? ==> r.consulted.value == ResolveEffectiveRole(ctx.roleRows))
  {
    hide ResolveEffectiveRole, ResolveEffectivePolicy, ResolveOfficialPrice;
  }

  /** A refusal found in a prefix is the refusal of the whole invoice: later lines are never looked at. */
  lemma {:induction false} RefusalCarries(ctx: Context, lines: seq<SaleLine>, n: nat, hasDiscount: bool)
    requires ValidLines(lines) && n <= |lines|
    requires PriceLines(ctx, lines[..n], hasDiscount).Refused?
    ensures PriceLines(ctx, lines, hasDiscount) == PriceLines(ctx, lines[..n], hasDiscount)
  {
    if n == |lines| {
      assert lines[..n] == lines;
    } else {
      var init := lines[..|lines| - 1];
      assert init[..n] == lines[..n];
      RefusalCarries(ctx, init, n, hasDiscount);
    }
  }

  // ----- the subtotal of an accepted invoice -----

  function PricedAs(lines: seq<SaleLine>, results: seq<Resolution>): (priced: seq<PosEngine.Line>)
    requires |lines| == |results| && forall i :: 0 <= i < |results| ==> !results[i].Rejected?
    ensures |priced| == |lines|
  {
    seq(|lines|, i requires 0 <= i < |lines| => PosEngine.Line(FinalPrice(results[i]), lines[i].quantity))
  }

  /** The same lines at their official prices. */
  function OfficiallyPriced(lines: seq<SaleLine>, results: seq<Resolution>): (priced: seq<PosEngine.Line>)
    requires |lines| == |results|
    ensures |priced| == |lines|
  {
    seq(|lines|, i requires 0 <= i < |lines| => PosEngine.Line(Amount(results[i].official), lines[i].quantity))
  }

  /** The factors of the one policy that governs every line of an invoice; without a policy there is no room at all. */
  function LowOf(p: Option<Policy>): real {
    if p.Some? then LowFactor(p.value) else 1.0
  }

  function HighOf(p: Option<Policy>): real {
    if p.Some? then HighFactor(p.value) else 1.0
  }

  function GoverningPolicy(ctx: Context): Option<Policy> {
    var role := ResolveEffectiveRole(ctx.roleRows);
    if role.None? then None else ResolveEffectivePolicy(ctx.policyRows, ctx.branchId, role.value.roleId)
  }

  lemma LineInBand(ctx: Context, l: SaleLine, hasDiscount: bool)
    requires l.unitPrice >= 0.0 && l.quantity >= 0.0
    requires GoverningPolicy(ctx).Some? ==> CapsNonNegative(GoverningPolicy(ctx).value)
    requires !ResolveAlone(ctx, l, hasDiscount).Rejected? && ResolveAlone(ctx, l, hasDiscount).official >= 0
    ensures var r := ResolveAlone(ctx, l, hasDiscount);
            var official := Times(Amount(r.official), l.quantity);
            Times(official, LowOf(GoverningPolicy(ctx))) <= Times(FinalPrice(r), l.quantity) <= Times(official, HighOf(GoverningPolicy(ctx)))
  {
    hide ResolveEffectiveRole, ResolveEffectivePolicy, ResolveOfficialPrice, Times, PercentOf, ResolvePrice;
    var q := RequestOf(l, hasDiscount);
    var r := ResolveAlone(ctx, l, hasDiscount);
    var official, low, high := Amount(r.official), LowOf(GoverningPolicy(ctx)), HighOf(GoverningPolicy(ctx));
    ApprovedIffAllConditionsHold(ctx, q);
    if r.Approved? {
      ApprovedInBandIffOfficialPositive(ctx, q);
    } else {
      TimesOne(official);
      TimesMonotone(low, 1.0, official);
      TimesMonotone(1.0, high, official);
    }
    TimesMonotone(Times(official, low), FinalPrice(r), l.quantity);
    TimesMonotone(FinalPrice(r), Times(official, high), l.quantity);
    Reassociate(official, low, l.quantity);
    Reassociate(official, high, l.quantity);
  }

  lemma Reassociate(x: real, y: real, z: real)
    ensures Times(Times(x, y), z) == Times(Times(x, z), y)
  {
  }

  lemma {:induction false} ExactBand(ctx: Context, lines: seq<SaleLine>, hasDiscount: bool)
    requires ValidLines(lines) && PriceLines(ctx, lines, hasDiscount).Priced?
    requires forall i :: 0 <= i < |lines| ==> lines[i].quantity >= 0.0 && PriceLines(ctx, lines, hasDiscount).results[i].official >= 0
    requires GoverningPolicy(ctx).Some? ==> CapsNonNegative(GoverningPolicy(ctx).value)
    ensures var rs := PriceLines(ctx, lines, hasDiscount).results;
            var official := PosEngine.ExactSubtotal(OfficiallyPriced(lines, rs));
            Times(official, LowOf(GoverningPolicy(ctx))) <= PosEngine.ExactSubtotal(PricedAs(lines, rs))
              <= Times(official, HighOf(GoverningPolicy(ctx)))
  {
    hide Times, ResolvePrice, LowOf, HighOf, GoverningPolicy, PriceLines, PosEngine.ExactSubtotal;
    var rs := PriceLines(ctx, lines, hasDiscount).results;
    var low, high := LowOf(GoverningPolicy(ctx)), HighOf(GoverningPolicy(ctx));
    if lines == [] {
      NoLinesNoSubtotal();
      TimesZero(low);
      TimesZero(high);
    } else {
      var k := |lines| - 1;
      var init := lines[..k];
      PricedPrefix(ctx, lines, hasDiscount);
      var initResults := PriceLines(ctx, init, hasDiscount).results;
      ExactBand(ctx, init, hasDiscount);
      assert PricedAs(lines, rs)[..k] == PricedAs(init, initResults);
      assert OfficiallyPriced(lines, rs)[..k] == OfficiallyPriced(init, initResults);
      PosEngine.SubtotalSnoc(PricedAs(lines, rs)); PosEngine.SubtotalSnoc(OfficiallyPriced(lines, rs));
      LineInBand(ctx, lines[k], hasDiscount);
      var before := PosEngine.ExactSubtotal(OfficiallyPriced(init, initResults));
      var added := Times(Amount(rs[k].official), lines[k].quantity);
      TimesDistributes(before, added, low);
      TimesDistributes(before, added, high);
    }
  }

  lemma NoLinesNoSubtotal()
    ensures PosEngine.ExactSubtotal([]) == 0.0
  {
  }

  lemma PricedPrefix(ctx: Context, lines: seq<SaleLine>, hasDiscount: bool)
    requires ValidLines(lines) && lines != [] && PriceLines(ctx, lines, hasDiscount).Priced?
    ensures var (init, out) := (lines[..|lines| - 1], PriceLines(ctx, lines, hasDiscount));
            && PriceLines(ctx, init, hasDiscount) == Priced(out.results[..|lines| - 1])
            && out.results[|lines| - 1] == ResolveAlone(ctx, lines[|lines| - 1], hasDiscount)
  {
    hide ResolveAlone;
  }

  lemma TimesZero(x: real)
    ensures Times(0.0, x) == 0.0
  {
  }

  /**
   For an accepted invoice of any length without negative official prices, the subtotal lies within
   half a cent of the governing policy's band around the official subtotal.
   */
  lemma SubtotalBand(ctx: Context, lines: seq<SaleLine>, hasDiscount: bool)
    requires ValidLines(lines) && PriceLines(ctx, lines, hasDiscount).Priced?
    requires forall i :: 0 <= i < |lines| ==> lines[i].quantity >= 0.0 && PriceLines(ctx, lines, hasDiscount).results[i].official >= 0
    requires GoverningPolicy(ctx).Some? ==> CapsNonNegative(GoverningPolicy(ctx).value)
    ensures var rs := PriceLines(ctx, lines, hasDiscount).results;
            var official := PosEngine.ExactSubtotal(OfficiallyPriced(lines, rs));
            Times(official, LowOf(GoverningPolicy(ctx))) - 0.005
              <= Amount(PosEngine.CalculateSubtotal(PricedAs(lines, rs)))
              <= Times(official, HighOf(GoverningPolicy(ctx))) + 0.005
  {
    hide Times, PosEngine.ExactSubtotal, PriceLines, LowOf, HighOf, GoverningPolicy;
    ExactBand(ctx, lines, hasDiscount);
    ToCentsHalfCent(PosEngine.ExactSubtotal(PricedAs(lines, PriceLines(ctx, lines, hasDiscount).results)));
  }
}
