/**
 Invoice arithmetic: the discount engine, the POS engine, coupon and loyalty amounts, and the way
 `InvoicesService.create` combines them into one set of totals. Rounded amounts are in cents.
 */
module PosEngine {
  import opened Options
  import opened Rounding

  datatype DiscountKind = Percentage | Fixed

  datatype Discount = Discount(kind: DiscountKind, value: real, maxAllowed: Option<real>)

  datatype Coupon = Coupon(id: string, kind: DiscountKind, value: real, maxDiscount: Option<real>)

  datatype LoyaltySettings = LoyaltySettings(pointsPerCurrency: real, redemptionValue: real, enabled: bool)

  datatype Line = Line(unitPrice: real, quantity: real)

  datatype Totals = Totals(subtotal: int, discount: int, tax: int, total: int)

  /** What a checkout subtracts from its subtotal, and the tax rate it adds. */
  datatype Reductions = Reductions(manual: Option<Discount>, coupon: Option<Coupon>, points: real,
                                   settings: LoyaltySettings, taxRate: real)

  // ----- the engines -----

  function LineAmount(l: Line): real {
    Times(l.unitPrice, l.quantity)
  }

  function ExactSubtotal(lines: seq<Line>): real {
    if lines == [] then 0.0
    else ExactSubtotal(lines[..|lines| - 1]) + LineAmount(lines[|lines| - 1])
  }

  function CalculateSubtotal(lines: seq<Line>): int {
    ToCents(ExactSubtotal(lines))
  }

  function RawDiscount(kind: DiscountKind, subtotal: int, value: real): int {
    match kind
    case Percentage => ToCents(Times(Amount(subtotal), value) / 100.0)
    case Fixed => ToCents(Min(value, Amount(subtotal)))
  }

  function CheckMaxDiscount(discount: int, maxAllowed: real): int {
    ToCents(Min(Amount(discount), maxAllowed))
  }

  function ApplyDiscount(subtotal: int, discount: Option<Discount>): int {
    match discount
    case None => 0
    case Some(d) =>
      var raw := RawDiscount(d.kind, subtotal, d.value);
      if d.maxAllowed.Some? then CheckMaxDiscount(raw, d.maxAllowed.value) else raw
  }

  /** A zero `max_discount_amount` is falsy, so it caps nothing. */
  function CouponDiscount(c: Coupon, subtotal: int): int {
    var raw := RawDiscount(c.kind, subtotal, c.value);
    var capped := if c.maxDiscount.Some? && c.maxDiscount.value != 0.0
                  then CheckMaxDiscount(raw, c.maxDiscount.value) else raw;
    CheckMaxDiscount(capped, Amount(subtotal))
  }

  function ApplyTax(subtotal: int, discount: int, taxRate: real): int {
    ToCents(Times(Amount(subtotal) - Amount(discount), taxRate))
  }

  function CalculateTotal(subtotal: int, discount: int, tax: int): int {
    ToCents(Amount(subtotal) - Amount(discount) + Amount(tax))
  }

  function RedemptionValue(points: real, settings: LoyaltySettings): int {
    ToCents(Times(points, settings.redemptionValue))
  }

  /** Base points are floored before the tier multiplier is applied, and floored again after it. */
  function PointsEarned(total: int, settings: LoyaltySettings, tierMultiplier: real): int {
    Times(Times(Amount(total), settings.pointsPerCurrency).Floor as real, tierMultiplier).Floor
  }

  // ----- the combination made by InvoicesService.create -----

  function Checkout(lines: seq<Line>, r: Reductions): Totals {
    var subtotal := CalculateSubtotal(lines);
    var combined := CombinedDiscount(subtotal, r);
    var tax := ApplyTax(subtotal, combined, r.taxRate);
    Totals(subtotal, combined, tax, CalculateTotal(subtotal, combined, tax))
  }

  function CombinedDiscount(subtotal: int, r: Reductions): int {
    MinInt(ApplyDiscount(subtotal, r.manual) + RedemptionValue(r.points, r.settings) + CouponPart(subtotal, r), subtotal)
  }

  function CouponPart(subtotal: int, r: Reductions): int {
    if r.coupon.Some? then CouponDiscount(r.coupon.value, subtotal) else 0
  }

  predicate NonNegativeLines(lines: seq<Line>) {
    forall i :: 0 <= i < |lines| ==> lines[i].unitPrice >= 0.0 && lines[i].quantity >= 0.0
  }

  predicate NonNegative(r: Reductions) {
    && (r.manual.Some? ==> r.manual.value.value >= 0.0 &&
                           (r.manual.value.maxAllowed.Some? ==> r.manual.value.maxAllowed.value >= 0.0))
    && (r.coupon.Some? ==> r.coupon.value.value >= 0.0 &&
                           (r.coupon.value.maxDiscount.Some? ==> r.coupon.value.maxDiscount.value >= 0.0))
    && r.points >= 0.0
    && r.settings.redemptionValue >= 0.0
    && r.settings.pointsPerCurrency >= 0.0
    && r.taxRate >= 0.0
  }

  lemma SubtotalSnoc(lines: seq<Line>)
    requires lines != []
    ensures ExactSubtotal(lines) == ExactSubtotal(lines[..|lines| - 1]) + Times(lines[|lines| - 1].unitPrice, lines[|lines| - 1].quantity)
  {
  }

  // ----- totals reconcile -----

  lemma {:induction false} ExactSubtotalNonNegative(lines: seq<Line>)
    requires NonNegativeLines(lines)
    ensures ExactSubtotal(lines) >= 0.0
  {
    hide Times;
    if lines != [] {
      ExactSubtotalNonNegative(lines[..|lines| - 1]);
      TimesMonotone(0.0, lines[|lines| - 1].unitPrice, lines[|lines| - 1].quantity);
    }
  }

  lemma RawDiscountNonNegative(kind: DiscountKind, subtotal: int, value: real)
    requires subtotal >= 0 && value >= 0.0
    ensures RawDiscount(kind, subtotal, value) >= 0
  {
    hide Times;
    TimesMonotone(0.0, Amount(subtotal), value);
  }

  lemma DiscountPartsNonNegative(subtotal: int, r: Reductions)
    requires subtotal >= 0 && NonNegative(r)
    ensures ApplyDiscount(subtotal, r.manual) >= 0
    ensures CouponPart(subtotal, r) >= 0
    ensures RedemptionValue(r.points, r.settings) >= 0
  {
    hide Times, RawDiscount;
    TimesMonotone(0.0, r.points, r.settings.redemptionValue);
    if r.manual.Some? { RawDiscountNonNegative(r.manual.value.kind, subtotal, r.manual.value.value); }
    if r.coupon.Some? { RawDiscountNonNegative(r.coupon.value.kind, subtotal, r.coupon.value.value); }
  }

  /**
   The totals of every checkout with non-negative inputs reconcile to the cent: the discount never
   exceeds the subtotal, the total loses nothing to its own rounding, and the only roundings left
   are half a cent on the subtotal and half a cent on the tax.
   */
  lemma TotalsReconcile(lines: seq<Line>, r: Reductions)
    requires NonNegativeLines(lines) && NonNegative(r)
    ensures var t := Checkout(lines, r);
            && 0 <= t.discount <= t.subtotal
            && t.total == t.subtotal - t.discount + t.tax
            && t.tax >= 0 && t.total >= 0
            && Abs(Amount(t.subtotal) - ExactSubtotal(lines)) <= 0.005
            && Abs(Amount(t.tax) - Times(Amount(t.subtotal - t.discount), r.taxRate)) <= 0.005
  {
    hide Times, ApplyDiscount, CouponPart, RedemptionValue, ApplyTax, CalculateTotal, CalculateSubtotal, ExactSubtotal;
    SubtotalIsNear(lines);
    var s := CalculateSubtotal(lines);
    DiscountPartsNonNegative(s, r);
    var d := CombinedDiscount(s, r);
    TaxIsNear(s, d, r.taxRate);
    TotalIsExact(s, d, ApplyTax(s, d, r.taxRate));
  }

  lemma SubtotalIsNear(lines: seq<Line>)
    requires NonNegativeLines(lines)
    ensures CalculateSubtotal(lines) >= 0 && Abs(Amount(CalculateSubtotal(lines)) - ExactSubtotal(lines)) <= 0.005
  {
    hide ToCents, ExactSubtotal, Amount, Abs;
    ExactSubtotalNonNegative(lines);
    ToCentsHalfCent(ExactSubtotal(lines));
  }

  lemma TaxIsNear(s: int, d: int, rate: real)
    requires d <= s && rate >= 0.0
    ensures ApplyTax(s, d, rate) >= 0 && Abs(Amount(ApplyTax(s, d, rate)) - Times(Amount(s - d), rate)) <= 0.005
  {
    hide ToCents, Times, Abs;
    assert Amount(s) - Amount(d) == Amount(s - d);
    TimesMonotone(0.0, Amount(s - d), rate);
    ToCentsHalfCent(Times(Amount(s - d), rate));
  }

  lemma TotalIsExact(subtotal: int, discount: int, tax: int)
    ensures CalculateTotal(subtotal, discount, tax) == subtotal - discount + tax
  {
    assert Amount(subtotal) - Amount(discount) + Amount(tax) == Amount(subtotal - discount + tax);
    ToCentsOfAmount(subtotal - discount + tax);
  }

  // ----- the amounts of a checkout, from its lines and reductions alone -----

  /** A number of cents is within half a cent of an amount. */
  predicate Rounds(cents: int, exact: real) {
    -0.005 <= cents as real / 100.0 - exact <= 0.005
  }

  /** What a discount is meant to take off: a percentage of the subtotal, or a fixed amount but not more than the subtotal; never more than its cap. */
  function Wanted(kind: DiscountKind, value: real, cap: Option<real>, subtotal: real): real {
    var uncapped := if kind == Percentage then subtotal * value / 100.0 else if value <= subtotal then value else subtotal;
    if cap.Some? && cap.value < uncapped then cap.value else uncapped
  }

  /** Three amounts in cents are the parts of the discount: manual, coupon, points. A coupon's cap of 0 is none, and it takes off no more than the subtotal. */
  ghost predicate AreParts(r: Reductions, subtotal: int, manual: int, coupon: int, redeemed: int) {
    var exact := subtotal as real / 100.0;
    && (if r.manual.None? then manual == 0
        else Rounds(manual, Wanted(r.manual.value.kind, r.manual.value.value, r.manual.value.maxAllowed, exact)))
    && (if r.coupon.None? then coupon == 0
        else
          var c := r.coupon.value;
          var wanted := Wanted(c.kind, c.value, if c.maxDiscount == Some(0.0) then None else c.maxDiscount, exact);
          Rounds(coupon, if wanted <= exact then wanted else exact))
    && Rounds(redeemed, Times(r.points, r.settings.redemptionValue))
  }

  lemma RoundingIsNear(x: real)
    ensures Rounds(ToCents(x), x)
  {
  }

  /** Rounding to cents before a cap and again after it still ends within half a cent. */
  lemma CappedIsNear(cents: int, exact: real, cap: real)
    requires Rounds(cents, exact)
    ensures Rounds(CheckMaxDiscount(cents, cap), if cap < exact then cap else exact)
  {
    if Amount(cents) <= cap { ToCentsOfAmount(cents); } else { CapWins(cents, exact, cap); }
  }

  lemma CapWins(cents: int, exact: real, cap: real)
    requires Rounds(cents, exact) && cap < Amount(cents)
    ensures Rounds(ToCents(cap), if cap < exact then cap else exact)
  {
    RoundingIsNear(cap);
    if exact <= cap {
      assert cents as real - 0.5 <= cap * 100.0 < cents as real;
      NearestFromBelow(cents, cap);
    }
  }

  lemma NearestFromBelow(cents: int, x: real)
    requires cents as real - 0.5 <= x * 100.0 < cents as real
    ensures ToCents(x) == cents || (ToCents(x) == cents - 1 && x * 100.0 == cents as real - 0.5)
  {
  }

  lemma RawIsNear(kind: DiscountKind, subtotal: int, value: real)
    ensures Rounds(RawDiscount(kind, subtotal, value), Wanted(kind, value, None, subtotal as real / 100.0))
  {
    RoundingIsNear(Times(Amount(subtotal), value) / 100.0);
    RoundingIsNear(Min(value, Amount(subtotal)));
  }

  lemma ManualPartIs(subtotal: int, d: Discount)
    ensures Rounds(ApplyDiscount(subtotal, Some(d)), Wanted(d.kind, d.value, d.maxAllowed, subtotal as real / 100.0))
  {
    hide RawDiscount, CheckMaxDiscount, Rounds;
    RawIsNear(d.kind, subtotal, d.value);
    if d.maxAllowed.Some? {
      CappedIsNear(RawDiscount(d.kind, subtotal, d.value), Wanted(d.kind, d.value, None, subtotal as real / 100.0), d.maxAllowed.value);
    }
  }

  lemma CouponPartIs(subtotal: int, c: Coupon)
    ensures var exact := subtotal as real / 100.0;
            var wanted := Wanted(c.kind, c.value, if c.maxDiscount == Some(0.0) then None else c.maxDiscount, exact);
            Rounds(CouponDiscount(c, subtotal), if wanted <= exact then wanted else exact)
  {
    hide RawDiscount, CheckMaxDiscount, Rounds;
    var exact := subtotal as real / 100.0;
    var raw := RawDiscount(c.kind, subtotal, c.value);
    RawIsNear(c.kind, subtotal, c.value);
    var cap := if c.maxDiscount == Some(0.0) then None else c.maxDiscount;
    var capped := if cap.Some? then CheckMaxDiscount(raw, cap.value) else raw;
    if cap.Some? { CappedIsNear(raw, Wanted(c.kind, c.value, None, exact), cap.value); }
    CappedIsNear(capped, Wanted(c.kind, c.value, cap, exact), exact);
  }

  /** The discount is the lesser of the subtotal and the sum of its three parts, the tax is on what is left, the total is exact. */
  ghost predicate AreAmounts(t: Totals, lines: seq<Line>, r: Reductions) {
    && Rounds(t.subtotal, ExactSubtotal(lines))
    && (exists manual, coupon, redeemed ::
          && AreParts(r, t.subtotal, manual, coupon, redeemed)
          && t.discount == if manual + coupon + redeemed <= t.subtotal then manual + coupon + redeemed else t.subtotal)
    && Rounds(t.tax, Times((t.subtotal - t.discount) as real / 100.0, r.taxRate))
    && t.total == t.subtotal - t.discount + t.tax
  }

  /** Every amount of a checkout, for all inputs. */
  lemma CheckoutAmounts(lines: seq<Line>, r: Reductions)
    ensures AreAmounts(Checkout(lines, r), lines, r)
  {
    var t := Checkout(lines, r);
    PartsAre(t.subtotal, r);
    RoundingIsNear(ExactSubtotal(lines));
    TaxIsOnTheRest(t.subtotal, t.discount, r.taxRate);
    TotalIsExact(t.subtotal, t.discount, t.tax);
    hide AreParts, Rounds, ApplyDiscount, CouponPart, RedemptionValue, ApplyTax, ToCents, ExactSubtotal, CalculateTotal, Times;
    assert AreParts(r, t.subtotal, ApplyDiscount(t.subtotal, r.manual), CouponPart(t.subtotal, r), RedemptionValue(r.points, r.settings));
  }

  lemma NoDiscount(subtotal: int)
    ensures ApplyDiscount(subtotal, None) == 0
  {
  }

  lemma PartsAre(subtotal: int, r: Reductions)
    ensures AreParts(r, subtotal, ApplyDiscount(subtotal, r.manual), CouponPart(subtotal, r), RedemptionValue(r.points, r.settings))
  {
    hide Rounds, Wanted, RawDiscount, CouponDiscount, ToCents, Times, ApplyDiscount;
    if r.manual.None? { NoDiscount(subtotal); }
    if r.manual.Some? { ManualPartIs(subtotal, r.manual.value); }
    if r.coupon.Some? { CouponPartIs(subtotal, r.coupon.value); }
    RoundingIsNear(Times(r.points, r.settings.redemptionValue));
  }

  lemma TaxIsOnTheRest(subtotal: int, discount: int, rate: real)
    ensures Rounds(ApplyTax(subtotal, discount, rate), Times((subtotal - discount) as real / 100.0, rate))
  {
    hide Rounds, ToCents, Times;
    var left := (subtotal - discount) as real / 100.0;
    assert Amount(subtotal) - Amount(discount) == left;
    RoundingIsNear(Times(left, rate));
    assert ApplyTax(subtotal, discount, rate) == ToCents(Times(left, rate));
  }

  /** The exact subtotal adds up price times quantity, line by line. */
  lemma SubtotalAddsUp(lines: seq<Line>, l: Line)
    ensures ExactSubtotal([]) == 0.0
    ensures ExactSubtotal(lines + [l]) == ExactSubtotal(lines) + l.unitPrice * l.quantity
  {
    assert (lines + [l])[..|lines|] == lines;
  }

  predicate FlooredTwice(base: int, earned: int, exact: real, tierMultiplier: real) {
    base as real <= exact < base as real + 1.0 && earned as real <= Times(base as real, tierMultiplier) < earned as real + 1.0
  }

  /** Points are whole twice: first those of the total at the shop's rate, then those at the tier's multiplier. */
  ghost predicate Earns(earned: int, total: int, settings: LoyaltySettings, tierMultiplier: real) {
    var exact := Times(total as real / 100.0, settings.pointsPerCurrency);
    exists base :: FlooredTwice(base, earned, exact, tierMultiplier)
  }

  lemma PointsAreFlooredTwice(total: int, settings: LoyaltySettings, tierMultiplier: real)
    ensures Earns(PointsEarned(total, settings, tierMultiplier), total, settings, tierMultiplier)
  {
    hide Times;
    var exact := Times(total as real / 100.0, settings.pointsPerCurrency);
    var base := Times(Amount(total), settings.pointsPerCurrency).Floor;
    assert FlooredTwice(base, PointsEarned(total, settings, tierMultiplier), exact, tierMultiplier);
  }

  // ----- more reduction never raises the total or the points -----

  predicate NoLessDiscount(a: Option<Discount>, b: Option<Discount>) {
    a.Some? ==>
      && b.Some? && a.value.kind == b.value.kind && a.value.value <= b.value.value
      && (b.value.maxAllowed.Some? ==> a.value.maxAllowed.Some? && a.value.maxAllowed.value <= b.value.maxAllowed.value)
  }

  lemma RawDiscountMonotone(kind: DiscountKind, subtotal: int, p: real, q: real)
    requires subtotal >= 0 && p <= q
    ensures RawDiscount(kind, subtotal, p) <= RawDiscount(kind, subtotal, q)
  {
    hide Times;
    TimesMonotone(p, q, Amount(subtotal));
  }

  lemma DiscountMonotone(subtotal: int, a: Option<Discount>, b: Option<Discount>)
    requires subtotal >= 0 && NoLessDiscount(a, b)
    requires b.Some? ==> b.value.value >= 0.0 && (b.value.maxAllowed.Some? ==> b.value.maxAllowed.value >= 0.0)
    ensures ApplyDiscount(subtotal, a) <= ApplyDiscount(subtotal, b)
  {
    hide RawDiscount;
    if b.Some? {
      RawDiscountNonNegative(b.value.kind, subtotal, b.value.value);
      if a.Some? { RawDiscountMonotone(a.value.kind, subtotal, a.value.value, b.value.value); }
    }
  }

  lemma CombinedDiscountMonotone(s: int, r: Reductions, more: Reductions)
    requires s >= 0 && NonNegative(r) && NonNegative(more)
    requires NoLessDiscount(r.manual, more.manual) && r.points <= more.points
    requires r.coupon == more.coupon && r.settings == more.settings
    ensures CombinedDiscount(s, r) <= CombinedDiscount(s, more)
  {
    hide Times, ApplyDiscount, CouponDiscount;
    DiscountMonotone(s, r.manual, more.manual);
    TimesMonotone(r.points, more.points, r.settings.redemptionValue);
  }

  lemma TotalAntitone(s: int, d: int, more: int, rate: real)
    requires d <= more && rate >= 0.0
    ensures CalculateTotal(s, more, ApplyTax(s, more, rate)) <= CalculateTotal(s, d, ApplyTax(s, d, rate))
  {
    hide Times;
    TimesMonotone(Amount(s) - Amount(more), Amount(s) - Amount(d), rate);
    TotalIsExact(s, d, ApplyTax(s, d, rate));
    TotalIsExact(s, more, ApplyTax(s, more, rate));
  }

  lemma PointsMonotone(low: int, high: int, settings: LoyaltySettings, tierMultiplier: real)
    requires low <= high && settings.pointsPerCurrency >= 0.0 && tierMultiplier >= 0.0
    ensures PointsEarned(low, settings, tierMultiplier) <= PointsEarned(high, settings, tierMultiplier)
  {
    hide Times;
    FloorScaleMonotone(Amount(low), Amount(high), settings.pointsPerCurrency);
    FloorScaleMonotone(Times(Amount(low), settings.pointsPerCurrency).Floor as real,
                       Times(Amount(high), settings.pointsPerCurrency).Floor as real, tierMultiplier);
  }

  /** Adding discount or redeeming more points on the same lines never raises the total nor the points earned. */
  lemma MoreReductionNeverRaisesTotal(lines: seq<Line>, r: Reductions, more: Reductions, tierMultiplier: real)
    requires NonNegativeLines(lines) && NonNegative(r) && NonNegative(more) && tierMultiplier >= 0.0
    requires NoLessDiscount(r.manual, more.manual) && r.points <= more.points
    requires r.coupon == more.coupon && r.settings == more.settings && r.taxRate == more.taxRate
    ensures Checkout(lines, more).total <= Checkout(lines, r).total
    ensures PointsEarned(Checkout(lines, more).total, r.settings, tierMultiplier)
         <= PointsEarned(Checkout(lines, r).total, r.settings, tierMultiplier)
  {
    hide CombinedDiscount, ApplyTax, CalculateTotal, PointsEarned;
    ExactSubtotalNonNegative(lines);
    var s := CalculateSubtotal(lines);
    CombinedDiscountMonotone(s, r, more);
    TotalAntitone(s, CombinedDiscount(s, r), CombinedDiscount(s, more), r.taxRate);
    PointsMonotone(Checkout(lines, more).total, Checkout(lines, r).total, r.settings, tierMultiplier);
  }

  // ----- stored line totals against the subtotal -----

  /** `total_price` of each line, rounded on its own. */
  function LineTotals(lines: seq<Line>): seq<int> {
    if lines == [] then []
    else LineTotals(lines[..|lines| - 1]) + [ToCents(LineAmount(lines[|lines| - 1]))]
  }

  lemma {:induction false} LineTotalsDrift(lines: seq<Line>)
    ensures Abs(Amount(Sum(LineTotals(lines))) - ExactSubtotal(lines)) <= |lines| as real * 0.005
  {
    hide Times;
    if lines != [] {
      LineTotalsDrift(lines[..|lines| - 1]);
      ToCentsHalfCent(LineAmount(lines[|lines| - 1]));
      var rest := LineTotals(lines[..|lines| - 1]);
      assert LineTotals(lines)[..|LineTotals(lines)| - 1] == rest;
      assert Amount(Sum(LineTotals(lines))) == Amount(Sum(rest)) + Amount(ToCents(LineAmount(lines[|lines| - 1])));
    }
  }

  /** The n separately rounded line totals add up to the subtotal within (n + 1)/2 cents. */
  lemma LineTotalsNearSubtotal(lines: seq<Line>)
    ensures Abs(Amount(Sum(LineTotals(lines)) - CalculateSubtotal(lines))) <= (|lines| + 1) as real * 0.005
  {
    hide ToCents, LineTotals, ExactSubtotal, Sum;
    LineTotalsDrift(lines);
    ToCentsHalfCent(ExactSubtotal(lines));
    var sum, exact := Sum(LineTotals(lines)), ExactSubtotal(lines);
    assert Amount(sum - CalculateSubtotal(lines)) == (Amount(sum) - exact) + (exact - Amount(CalculateSubtotal(lines)));
  }
}
