/**
 The price-override decision: what a line officially costs, which policy governs the cashier, and
 whether a requested unit price may replace the official one. Catalogue prices are NUMERIC(10,2) and
 so are in cents; a requested price is any non-negative decimal.
 */
module PriceResolution {
  import opened Options
  import opened Rounding
  import opened EffectiveRoles
  import opened Strings

  // ----- official price -----

  datatype Item = Item(price: int, isActive: bool, deleted: bool)

  datatype Variant = Variant(priceAdjustment: int, isActive: bool, itemId: string)

  /** The items and variants of one tenant; a failed query reads as a missing row. */
  datatype Catalogue = Catalogue(items: map<string, Item>, variants: map<string, Variant>)

  function ResolveOfficialPrice(c: Catalogue, itemId: string, variantId: Option<string>): Option<int> {
    if itemId !in c.items || c.items[itemId].deleted || !c.items[itemId].isActive then None
    else if variantId.None? || variantId.value == "" then Some(c.items[itemId].price)
    else if variantId.value !in c.variants || !c.variants[variantId.value].isActive
            || c.variants[variantId.value].itemId != itemId then None
    else Some(c.items[itemId].price + c.variants[variantId.value].priceAdjustment)
  }

  /** The item must be active and not deleted, and so must the variant, of that very item, when one is named; then the adjustment is added. */
  lemma OfficialPriceIs(c: Catalogue, itemId: string, variantId: Option<string>, cents: int)
    ensures ResolveOfficialPrice(c, itemId, variantId) == Some(cents) <==>
              && itemId in c.items && c.items[itemId].isActive && !c.items[itemId].deleted
              && (if variantId == None || variantId == Some("") then cents == c.items[itemId].price
                  else
                    && variantId.value in c.variants && c.variants[variantId.value].isActive
                    && c.variants[variantId.value].itemId == itemId
                    && cents == c.items[itemId].price + c.variants[variantId.value].priceAdjustment)
  {
  }

  // ----- effective policy -----

  datatype ReasonPolicy = NotRequired | AlwaysRequired | RequiredAboveThreshold | OptionalReason

  /** `None` means that the level above decides. */
  datatype Policy = Policy(allowDiscount: Option<bool>, allowIncrease: Option<bool>, allowCombineWithDiscount: Option<bool>,
                           maxDiscountPercent: Option<real>, maxIncreasePercent: Option<real>,
                           reasonPolicy: Option<ReasonPolicy>, reasonThresholdPercent: Option<real>,
                           allowZeroPrice: Option<bool>, zeroPriceRequiresPermission: Option<bool>,
                           zeroPriceRequiresReason: Option<bool>)

  datatype PolicyRow = PolicyRow(branchId: Option<string>, roleId: Option<string>, terms: Policy)

  const UNSET := Policy(None, None, None, None, None, None, None, None, None, None)

  function FindRow(rows: seq<PolicyRow>, branchId: Option<string>, roleId: Option<string>): Option<Policy> {
    if rows == [] then None
    else if rows[0].branchId == branchId && rows[0].roleId == roleId then Some(rows[0].terms)
    else FindRow(rows[1..], branchId, roleId)
  }

  function Layer(over: Option<Policy>, under: Policy): Policy {
    var o := if over.Some? then over.value else UNSET;
    Policy(Coalesce(o.allowDiscount, under.allowDiscount),
           Coalesce(o.allowIncrease, under.allowIncrease),
           Coalesce(o.allowCombineWithDiscount, under.allowCombineWithDiscount),
           Coalesce(o.maxDiscountPercent, under.maxDiscountPercent),
           Coalesce(o.maxIncreasePercent, under.maxIncreasePercent),
           Coalesce(o.reasonPolicy, under.reasonPolicy),
           Coalesce(o.reasonThresholdPercent, under.reasonThresholdPercent),
           Coalesce(o.allowZeroPrice, under.allowZeroPrice),
           Coalesce(o.zeroPriceRequiresPermission, under.zeroPriceRequiresPermission),
           Coalesce(o.zeroPriceRequiresReason, under.zeroPriceRequiresReason))
  }

  /** `None` for the rows stands for a failed query; without a tenant default there is no policy at all. */
  function ResolveEffectivePolicy(rows: Option<seq<PolicyRow>>, branchId: string, roleId: string): Option<Policy> {
    if rows.None? || FindRow(rows.value, None, None).None? then None
    else
      Some(Layer(FindRow(rows.value, Some(branchId), Some(roleId)),
                 Layer(FindRow(rows.value, Some(branchId), None), FindRow(rows.value, None, None).value)))
  }

  /** At most one row per (branch, role), as the three partial unique indexes guarantee. */
  ghost predicate UniqueScopes(rows: multiset<PolicyRow>) {
    forall a, b :: a in rows && b in rows && a.branchId == b.branchId && a.roleId == b.roleId ==> a == b
  }

  lemma {:induction false} FindRowIsTheRow(rows: seq<PolicyRow>, branchId: Option<string>, roleId: Option<string>)
    ensures match FindRow(rows, branchId, roleId)
            case Some(terms) => PolicyRow(branchId, roleId, terms) in rows
            case None => forall r :: r in rows ==> r.branchId != branchId || r.roleId != roleId
  {
    if rows != [] {
      FindRowIsTheRow(rows[1..], branchId, roleId);
      assert rows == [rows[0]] + rows[1..];
    }
  }

  lemma FindRowIgnoresOrder(a: seq<PolicyRow>, b: seq<PolicyRow>, branchId: Option<string>, roleId: Option<string>)
    requires multiset(a) == multiset(b) && UniqueScopes(multiset(a))
    ensures FindRow(a, branchId, roleId) == FindRow(b, branchId, roleId)
  {
    hide FindRow;
    FindRowIsTheRow(a, branchId, roleId);
    FindRowIsTheRow(b, branchId, roleId);
    assert forall r :: r in a <==> r in multiset(a);
    assert forall r :: r in b <==> r in multiset(b);
  }

  /** The effective policy does not depend on the order in which the rows are read. */
  lemma PolicyIgnoresRowOrder(a: seq<PolicyRow>, b: seq<PolicyRow>, branchId: string, roleId: string)
    requires multiset(a) == multiset(b) && UniqueScopes(multiset(a))
    ensures ResolveEffectivePolicy(Some(a), branchId, roleId) == ResolveEffectivePolicy(Some(b), branchId, roleId)
  {
    hide FindRow, Layer;
    FindRowIgnoresOrder(a, b, None, None);
    FindRowIgnoresOrder(a, b, Some(branchId), None);
    FindRowIgnoresOrder(a, b, Some(branchId), Some(roleId));
  }

  // ----- which row decides a field -----

  /** A row of this scope that sets the field. */
  ghost predicate Sets<T(!new)>(rows: seq<PolicyRow>, branchId: Option<string>, roleId: Option<string>, field: Policy -> Option<T>, value: T) {
    exists i :: 0 <= i < |rows| && rows[i].branchId == branchId && rows[i].roleId == roleId && field(rows[i].terms) == Some(value)
  }

  /** The value is the one set for the role at the branch, else for the branch, else for the tenant; none when no such row sets the field. */
  ghost predicate DecidedBy<T(!new)>(rows: seq<PolicyRow>, branchId: string, roleId: string, field: Policy -> Option<T>, value: Option<T>) {
    && (forall v :: Sets(rows, Some(branchId), Some(roleId), field, v) ==> value == Some(v))
    && ((forall w :: !Sets(rows, Some(branchId), Some(roleId), field, w)) ==>
          forall v :: Sets(rows, Some(branchId), None, field, v) ==> value == Some(v))
    && ((forall w :: !Sets(rows, Some(branchId), Some(roleId), field, w) && !Sets(rows, Some(branchId), None, field, w)) ==>
          forall v :: Sets(rows, None, None, field, v) <==> value == Some(v))
  }

  /** What the row of a scope, if there is one, says of a field. */
  function Said<T>(row: Option<Policy>, field: Policy -> Option<T>): Option<T> {
    if row.Some? then field(row.value) else None
  }

  lemma SaidByTheRow<T(!new)>(rows: seq<PolicyRow>, branchId: Option<string>, roleId: Option<string>, field: Policy -> Option<T>)
    requires UniqueScopes(multiset(rows))
    ensures forall v :: Sets(rows, branchId, roleId, field, v) <==> Said(FindRow(rows, branchId, roleId), field) == Some(v)
  {
    hide FindRow;
    FindRowIsTheRow(rows, branchId, roleId);
    var found := FindRow(rows, branchId, roleId);
    forall v ensures Sets(rows, branchId, roleId, field, v) <==> Said(found, field) == Some(v) {
      if Sets(rows, branchId, roleId, field, v) {
        var i :| 0 <= i < |rows| && rows[i].branchId == branchId && rows[i].roleId == roleId && field(rows[i].terms) == Some(v);
        assert rows[i] in multiset(rows) && PolicyRow(branchId, roleId, found.value) in multiset(rows);
      }
      if found.Some? && field(found.value) == Some(v) {
        var i :| 0 <= i < |rows| && rows[i] == PolicyRow(branchId, roleId, found.value);
        assert field(rows[i].terms) == Some(v);
      }
    }
  }

  lemma FirstSaidDecides<T(!new)>(rows: seq<PolicyRow>, branchId: string, roleId: string, field: Policy -> Option<T>)
    requires UniqueScopes(multiset(rows))
    ensures DecidedBy(rows, branchId, roleId, field,
                      Coalesce(Said(FindRow(rows, Some(branchId), Some(roleId)), field),
                               Coalesce(Said(FindRow(rows, Some(branchId), None), field), Said(FindRow(rows, None, None), field))))
  {
    hide FindRow, Said, Sets, UniqueScopes;
    SaidByTheRow(rows, Some(branchId), Some(roleId), field);
    SaidByTheRow(rows, Some(branchId), None, field);
    SaidByTheRow(rows, None, None, field);
    var a, b := Said(FindRow(rows, Some(branchId), Some(roleId)), field), Said(FindRow(rows, Some(branchId), None), field);
    if a.Some? { assert Sets(rows, Some(branchId), Some(roleId), field, a.value); }
    if b.Some? { assert Sets(rows, Some(branchId), None, field, b.value); }
  }

  /**
   With one row per scope, every field of the effective policy is the one set for the role at the branch, else for the
   branch, else for the tenant, a set `false` included; there is no policy exactly when the tenant has no default row.
   */
  lemma EffectivePolicyFieldByField(rows: seq<PolicyRow>, branchId: string, roleId: string)
    requires UniqueScopes(multiset(rows))
    ensures var p := ResolveEffectivePolicy(Some(rows), branchId, roleId);
            && (p.None? <==> forall i :: 0 <= i < |rows| ==> rows[i].branchId.Some? || rows[i].roleId.Some?)
            && (p.Some? ==>
                  && DecidedBy(rows, branchId, roleId, (t: Policy) => t.allowDiscount, p.value.allowDiscount)
                  && DecidedBy(rows, branchId, roleId, (t: Policy) => t.allowIncrease, p.value.allowIncrease)
                  && DecidedBy(rows, branchId, roleId, (t: Policy) => t.allowCombineWithDiscount, p.value.allowCombineWithDiscount)
                  && DecidedBy(rows, branchId, roleId, (t: Policy) => t.maxDiscountPercent, p.value.maxDiscountPercent)
                  && DecidedBy(rows, branchId, roleId, (t: Policy) => t.maxIncreasePercent, p.value.maxIncreasePercent)
                  && DecidedBy(rows, branchId, roleId, (t: Policy) => t.reasonPolicy, p.value.reasonPolicy)
                  && DecidedBy(rows, branchId, roleId, (t: Policy) => t.reasonThresholdPercent, p.value.reasonThresholdPercent)
                  && DecidedBy(rows, branchId, roleId, (t: Policy) => t.allowZeroPrice, p.value.allowZeroPrice)
                  && DecidedBy(rows, branchId, roleId, (t: Policy) => t.zeroPriceRequiresPermission, p.value.zeroPriceRequiresPermission)
                  && DecidedBy(rows, branchId, roleId, (t: Policy) => t.zeroPriceRequiresReason, p.value.zeroPriceRequiresReason))
    ensures ResolveEffectivePolicy(None, branchId, roleId).None?
  {
    hide FindRow, DecidedBy, UniqueScopes;
    FindRowIsTheRow(rows, None, None);
    FirstSaidDecides(rows, branchId, roleId, (t: Policy) => t.allowDiscount);
    FirstSaidDecides(rows, branchId, roleId, (t: Policy) => t.allowIncrease);
    FirstSaidDecides(rows, branchId, roleId, (t: Policy) => t.allowCombineWithDiscount);
    FirstSaidDecides(rows, branchId, roleId, (t: Policy) => t.maxDiscountPercent);
    FirstSaidDecides(rows, branchId, roleId, (t: Policy) => t.maxIncreasePercent);
    FirstSaidDecides(rows, branchId, roleId, (t: Policy) => t.reasonPolicy);
    FirstSaidDecides(rows, branchId, roleId, (t: Policy) => t.reasonThresholdPercent);
    FirstSaidDecides(rows, branchId, roleId, (t: Policy) => t.allowZeroPrice);
    FirstSaidDecides(rows, branchId, roleId, (t: Policy) => t.zeroPriceRequiresPermission);
    FirstSaidDecides(rows, branchId, roleId, (t: Policy) => t.zeroPriceRequiresReason);
  }

  // ----- the decision -----

  /** Everything the decision reads about one cashier at one branch. */
  datatype Context = Context(catalogue: Catalogue, roleRows: Option<seq<UserRoleRow>>, hasOverridePermission: bool,
                             policyRows: Option<seq<PolicyRow>>, branchId: string)

  datatype Request = Request(itemId: string, variantId: Option<string>, unitPrice: real, reason: Option<string>,
                             hasInvoiceLevelDiscount: bool)

  datatype Direction = AsDiscount | AsIncrease

  datatype ReasonCode =
    | ItemOrVariantNotFound
    | OfficialPriceZeroIncreaseNotSupported
    | NoEffectiveRole
    | NoEffectivePolicy
    | PermissionDenied
    | DiscountNotAllowed
    | IncreaseNotAllowed
    | LimitExceeded
    | ReasonRequired
    | ZeroPriceNotAllowed
    | CombineWithDiscountNotAllowed

  /** `consulted` is set only when the call looked at an effective role before rejecting. */
  datatype Resolution =
    | NoOverride(official: int)
    | Approved(official: int, approved: real, differenceAmount: real, differencePercent: real,
               direction: Direction, reason: Option<string>, role: EffectiveRole, policy: Policy)
    | Rejected(official: int, requested: real, code: ReasonCode, consulted: Option<Option<EffectiveRole>>)

  function TrimmedReason(q: Request): string {
    if q.reason.Some? then Trim(q.reason.value) else ""
  }

  function PercentOf(difference: real, official: real): real
    requires official != 0.0
  {
    difference / official * 100.0
  }

  predicate IsReasonRequired(p: Policy, isZeroPrice: bool, differencePercent: real) {
    || p.reasonPolicy == Some(AlwaysRequired)
    || (isZeroPrice && p.zeroPriceRequiresReason == Some(true))
    || (p.reasonPolicy == Some(RequiredAboveThreshold) && p.reasonThresholdPercent.Some?
        && differencePercent > p.reasonThresholdPercent.value)
  }

  /** `supplied` is an effective role resolved for an earlier line of the same invoice. */
  function ResolvePrice(ctx: Context, q: Request, supplied: Option<Option<EffectiveRole>>): Resolution
    requires q.unitPrice >= 0.0
  {
    var found := ResolveOfficialPrice(ctx.catalogue, q.itemId, q.variantId);
    if found.None? then Rejected(0, q.unitPrice, ItemOrVariantNotFound, None) else
    var cents := found.value;
    var official := Amount(cents);
    if cents == 0 && q.unitPrice > 0.0 then Rejected(0, q.unitPrice, OfficialPriceZeroIncreaseNotSupported, None) else
    if q.unitPrice == official then NoOverride(cents) else
    var role := if supplied.Some? then supplied.value else ResolveEffectiveRole(ctx.roleRows);
    if role.None? then Rejected(cents, q.unitPrice, NoEffectiveRole, Some(None)) else
    if !ctx.hasOverridePermission then Rejected(cents, q.unitPrice, PermissionDenied, Some(role)) else
    var policy := ResolveEffectivePolicy(ctx.policyRows, ctx.branchId, role.value.roleId);
    if policy.None? then Rejected(cents, q.unitPrice, NoEffectivePolicy, Some(role)) else
    Decide(cents, q, role.value, policy.value)
  }

  function Decide(cents: int, q: Request, role: EffectiveRole, p: Policy): (r: Resolution)
    requires cents != 0
    ensures r.Approved? || (r.Rejected? && r.consulted == Some(Some(role)))
  {
    var official := Amount(cents);
    var direction := if q.unitPrice < official then AsDiscount else AsIncrease;
    var amount := Abs(q.unitPrice - official);
    var percent := PercentOf(amount, official);
    var isZeroPrice := q.unitPrice == 0.0;
    var reject := code => Rejected(cents, q.unitPrice, code, Some(Some(role)));
    if isZeroPrice && p.allowZeroPrice != Some(true) then reject(ZeroPriceNotAllowed)
    else if direction.AsDiscount? && p.allowDiscount != Some(true) then reject(DiscountNotAllowed)
    else if direction.AsDiscount? && (p.maxDiscountPercent.None? || percent > p.maxDiscountPercent.value)
    then reject(LimitExceeded)
    else if direction.AsIncrease? && p.allowIncrease != Some(true) then reject(IncreaseNotAllowed)
    else if direction.AsIncrease? && (p.maxIncreasePercent.None? || percent > p.maxIncreasePercent.value)
    then reject(LimitExceeded)
    else if IsReasonRequired(p, isZeroPrice, percent) && TrimmedReason(q) == "" then reject(ReasonRequired)
    else if q.hasInvoiceLevelDiscount && p.allowCombineWithDiscount != Some(true)
    then reject(CombineWithDiscountNotAllowed)
    else Approved(cents, q.unitPrice, amount, percent, direction,
                  if TrimmedReason(q) != "" then Some(TrimmedReason(q)) else None, role, p)
  }

  // ----- when an override is approved -----

  /** The policy's part of the decision, free of any order of checks. */
  predicate PolicyAllows(p: Policy, cents: int, requested: real, hasReason: bool, hasInvoiceLevelDiscount: bool)
    requires cents != 0
  {
    var percent := PercentOf(Abs(requested - Amount(cents)), Amount(cents));
    && (requested < Amount(cents) ==>
          p.allowDiscount == Some(true) && p.maxDiscountPercent.Some? && percent <= p.maxDiscountPercent.value)
    && (requested > Amount(cents) ==>
          p.allowIncrease == Some(true) && p.maxIncreasePercent.Some? && percent <= p.maxIncreasePercent.value)
    && (requested == 0.0 ==> p.allowZeroPrice == Some(true))
    && (IsReasonRequired(p, requested == 0.0, percent) ==> hasReason)
    && (hasInvoiceLevelDiscount ==> p.allowCombineWithDiscount == Some(true))
  }

  ghost predicate MayOverride(ctx: Context, q: Request, role: Option<EffectiveRole>) {
    var official := ResolveOfficialPrice(ctx.catalogue, q.itemId, q.variantId);
    && official.Some? && official.value != 0 && q.unitPrice != Amount(official.value)
    && role.Some? && ctx.hasOverridePermission
    && var policy := ResolveEffectivePolicy(ctx.policyRows, ctx.branchId, role.value.roleId);
    && policy.Some?
    && PolicyAllows(policy.value, official.value, q.unitPrice, TrimmedReason(q) != "", q.hasInvoiceLevelDiscount)
  }

  /** An override is approved exactly when every condition holds, and then records the requested price unchanged. */
  lemma ApprovedIffAllConditionsHold(ctx: Context, q: Request)
    requires q.unitPrice >= 0.0
    ensures var r := ResolvePrice(ctx, q, None);
            var official := ResolveOfficialPrice(ctx.catalogue, q.itemId, q.variantId);
            && (r.Approved? <==> MayOverride(ctx, q, ResolveEffectiveRole(ctx.roleRows)))
            && (r.NoOverride? <==> official.Some? && q.unitPrice == Amount(official.value))
            && (r.Approved? ==> r.official == official.value && r.approved == q.unitPrice
                                && Some(r.role) == ResolveEffectiveRole(ctx.roleRows)
                                && Some(r.policy) == ResolveEffectivePolicy(ctx.policyRows, ctx.branchId, r.role.roleId))
            && (r.NoOverride? ==> r.official == official.value)
  {
    hide ResolveEffectiveRole, ResolveEffectivePolicy, ResolveOfficialPrice, PercentOf, Trim;
  }

  // ----- why an override is refused, and what an approval records -----

  /** The condition that a refusal with this code says is not met. */
  ghost predicate Unmet(ctx: Context, q: Request, role: Option<EffectiveRole>, code: ReasonCode) {
    var official := ResolveOfficialPrice(ctx.catalogue, q.itemId, q.variantId);
    var policy := if role.Some? then ResolveEffectivePolicy(ctx.policyRows, ctx.branchId, role.value.roleId) else None;
    match code
    case ItemOrVariantNotFound => official.None?
    case OfficialPriceZeroIncreaseNotSupported => official == Some(0) && q.unitPrice > 0.0
    case NoEffectiveRole => role.None?
    case PermissionDenied => !ctx.hasOverridePermission
    case NoEffectivePolicy => policy.None?
    case _ => official.Some? && official.value != 0 && policy.Some? && PolicyRefuses(policy.value, official.value as real / 100.0, q, code)
  }

  ghost predicate PolicyRefuses(p: Policy, official: real, q: Request, code: ReasonCode)
    requires official != 0.0
  {
    var gap := if q.unitPrice < official then official - q.unitPrice else q.unitPrice - official;
    var percent := gap / official * 100.0;
    var cap := if q.unitPrice < official then p.maxDiscountPercent else p.maxIncreasePercent;
    match code
    case ZeroPriceNotAllowed => q.unitPrice == 0.0 && p.allowZeroPrice != Some(true)
    case DiscountNotAllowed => q.unitPrice < official && p.allowDiscount != Some(true)
    case IncreaseNotAllowed => q.unitPrice > official && p.allowIncrease != Some(true)
    case LimitExceeded => cap.None? || percent > cap.value
    case ReasonRequired =>
      && (q.reason.None? || Trim(q.reason.value) == "")
      && (|| p.reasonPolicy == Some(AlwaysRequired)
          || (q.unitPrice == 0.0 && p.zeroPriceRequiresReason == Some(true))
          || (p.reasonPolicy == Some(RequiredAboveThreshold) && p.reasonThresholdPercent.Some? && percent > p.reasonThresholdPercent.value))
    case CombineWithDiscountNotAllowed => q.hasInvoiceLevelDiscount && p.allowCombineWithDiscount != Some(true)
    case _ => false
  }

  /** The order in which the conditions are looked at. */
  function Rank(code: ReasonCode): nat {
    match code
    case ItemOrVariantNotFound => 0
    case OfficialPriceZeroIncreaseNotSupported => 1
    case NoEffectiveRole => 2
    case PermissionDenied => 3
    case NoEffectivePolicy => 4
    case ZeroPriceNotAllowed => 5
    case DiscountNotAllowed => 6
    case IncreaseNotAllowed => 6
    case LimitExceeded => 7
    case ReasonRequired => 8
    case CombineWithDiscountNotAllowed => 9
  }

  /** The first condition, in that order, that is not met. */
  ghost predicate FirstUnmet(ctx: Context, q: Request, role: Option<EffectiveRole>, code: ReasonCode) {
    Unmet(ctx, q, role, code) && forall c :: Rank(c) < Rank(code) ==> !Unmet(ctx, q, role, c)
  }

  /**
   A price other than the official one is refused for the first condition that is not met, and approved when all are met:
   with the requested price, its distance in money and percent, its side, the trimmed reason, the role and the policy.
   */
  lemma DecisionSaysWhy(ctx: Context, q: Request)
    requires q.unitPrice >= 0.0
    ensures var r := ResolvePrice(ctx, q, None);
            var official := ResolveOfficialPrice(ctx.catalogue, q.itemId, q.variantId);
            var role := ResolveEffectiveRole(ctx.roleRows);
            && (official.Some? && q.unitPrice == official.value as real / 100.0 ==> r == NoOverride(official.value))
            && (!(official.Some? && q.unitPrice == official.value as real / 100.0) ==>
                  && (r.Rejected? ==> FirstUnmet(ctx, q, role, r.code) && r.requested == q.unitPrice
                                      && r.official == if official.Some? then official.value else 0)
                  && (r.Approved? ==> (forall c :: !Unmet(ctx, q, role, c)) && Records(ctx, q, r))
                  && !r.NoOverride?)
  {
    hide ResolveEffectiveRole, ResolveEffectivePolicy, ResolveOfficialPrice, Trim, PolicyRefuses, Decide;
    var official := ResolveOfficialPrice(ctx.catalogue, q.itemId, q.variantId);
    var role := ResolveEffectiveRole(ctx.roleRows);
    if official.Some? && official.value != 0 && role.Some? {
      var policy := ResolveEffectivePolicy(ctx.policyRows, ctx.branchId, role.value.roleId);
      if policy.Some? && q.unitPrice != Amount(official.value) { DecideSaysWhy(official.value, q, role.value, policy.value); }
    }
  }

  /** What an approval says of itself. */
  ghost predicate Records(ctx: Context, q: Request, r: Resolution) {
    && r.Approved? && r.official != 0
    && Some(r.official) == ResolveOfficialPrice(ctx.catalogue, q.itemId, q.variantId)
    && Some(r.role) == ResolveEffectiveRole(ctx.roleRows)
    && Some(r.policy) == ResolveEffectivePolicy(ctx.policyRows, ctx.branchId, r.role.roleId)
    && RecordsOf(q, r.official as real / 100.0, r)
  }

  predicate RecordsOf(q: Request, official: real, r: Resolution)
    requires r.Approved? && official != 0.0
  {
    && r.approved == q.unitPrice
    && r.differenceAmount == (if q.unitPrice < official then official - q.unitPrice else q.unitPrice - official)
    && r.differencePercent == r.differenceAmount / official * 100.0
    && (r.direction == AsDiscount <==> q.unitPrice < official)
    && r.reason == if q.reason.None? || Trim(q.reason.value) == "" then None else Some(Trim(q.reason.value))
  }

  lemma DecideSaysWhy(cents: int, q: Request, role: EffectiveRole, p: Policy)
    requires cents != 0 && q.unitPrice != Amount(cents)
    ensures var (r, official) := (Decide(cents, q, role, p), cents as real / 100.0);
            && (r.Approved? ==> (forall c :: !PolicyRefuses(p, official, q, c)) && RecordsOf(q, official, r))
            && (r.Approved? ==> r.official == cents && r.role == role && r.policy == p)
            && (r.Rejected? ==> r.official == cents && r.requested == q.unitPrice && Rank(r.code) >= 5 && PolicyRefuses(p, official, q, r.code)
                                && forall c :: Rank(c) < Rank(r.code) ==> !PolicyRefuses(p, official, q, c))
  {
    hide Trim;
  }

  // ----- loosening -----

  predicate FlagNoStricter(p: Option<bool>, q: Option<bool>) {
    p == Some(true) ==> q == Some(true)
  }

  predicate CapNoStricter(p: Option<real>, q: Option<real>) {
    p.Some? ==> q.Some? && p.value <= q.value
  }

  predicate ReasonNoStricter(p: Policy, q: Policy) {
    && (q.zeroPriceRequiresReason == Some(true) ==> p.zeroPriceRequiresReason == Some(true))
    && (p.reasonPolicy == Some(AlwaysRequired) ||
        match q.reasonPolicy
        case Some(AlwaysRequired) => false
        case Some(RequiredAboveThreshold) =>
          || q.reasonThresholdPercent.None?
          || (p.reasonPolicy == Some(RequiredAboveThreshold)
              && p.reasonThresholdPercent.Some? && p.reasonThresholdPercent.value <= q.reasonThresholdPercent.value)
        case _ => true)
  }

  /** q allows at least what p allows: more flags on, higher caps, a weaker reason rule. */
  predicate NoStricter(p: Policy, q: Policy) {
    && FlagNoStricter(p.allowDiscount, q.allowDiscount)
    && FlagNoStricter(p.allowIncrease, q.allowIncrease)
    && FlagNoStricter(p.allowCombineWithDiscount, q.allowCombineWithDiscount)
    && FlagNoStricter(p.allowZeroPrice, q.allowZeroPrice)
    && CapNoStricter(p.maxDiscountPercent, q.maxDiscountPercent)
    && CapNoStricter(p.maxIncreasePercent, q.maxIncreasePercent)
    && ReasonNoStricter(p, q)
  }

  /** Loosening the effective policy never turns an approval into a rejection. */
  lemma LooseningKeepsApproval(ctx: Context, looser: Context, q: Request)
    requires q.unitPrice >= 0.0
    requires looser.catalogue == ctx.catalogue && looser.roleRows == ctx.roleRows
    requires ctx.hasOverridePermission ==> looser.hasOverridePermission
    requires forall role ::
               var p := ResolveEffectivePolicy(ctx.policyRows, ctx.branchId, role);
               var p' := ResolveEffectivePolicy(looser.policyRows, looser.branchId, role);
               p.Some? ==> p'.Some? && NoStricter(p.value, p'.value)
    ensures ResolvePrice(ctx, q, None).Approved? ==> ResolvePrice(looser, q, None).Approved?
  {
    hide ResolveEffectiveRole, ResolveEffectivePolicy, ResolveOfficialPrice, PercentOf, Trim, ResolvePrice;
    ApprovedIffAllConditionsHold(ctx, q);
    ApprovedIffAllConditionsHold(looser, q);
  }

  /** A price closer to the official one, on the same side and not zero, is approved whenever the farther one is. */
  lemma SmallerOverrideApproved(ctx: Context, q: Request, nearer: real)
    requires q.unitPrice >= 0.0 && nearer > 0.0
    requires ResolvePrice(ctx, q, None).Approved?
    requires var official := Amount(ResolvePrice(ctx, q, None).official);
             official > 0.0 && (q.unitPrice <= nearer < official || official < nearer <= q.unitPrice)
    ensures ResolvePrice(ctx, q.(unitPrice := nearer), None).Approved?
  {
    hide ResolveEffectiveRole, ResolveEffectivePolicy, ResolveOfficialPrice, PercentOf, Trim, ResolvePrice;
    var q' := q.(unitPrice := nearer);
    ApprovedIffAllConditionsHold(ctx, q);
    ApprovedIffAllConditionsHold(ctx, q');
    var official := Amount(ResolvePrice(ctx, q, None).official);
    PercentMonotone(Abs(nearer - official), Abs(q.unitPrice - official), official);
    assert TrimmedReason(q') == TrimmedReason(q);
  }

  lemma PercentMonotone(a: real, b: real, official: real)
    requires a <= b && official > 0.0
    ensures PercentOf(a, official) <= PercentOf(b, official)
  {
    assert b / official - a / official == (b - a) / official >= 0.0;
  }

  // ----- the caps, and where they hold -----

  function LowFactor(p: Policy): real {
    if p.allowDiscount == Some(true) && p.maxDiscountPercent.Some? then 1.0 - p.maxDiscountPercent.value / 100.0 else 1.0
  }

  function HighFactor(p: Policy): real {
    if p.allowIncrease == Some(true) && p.maxIncreasePercent.Some? then 1.0 + p.maxIncreasePercent.value / 100.0 else 1.0
  }

  /** The band a policy draws around an official price; a direction that is not allowed collapses its side. */
  predicate InBand(p: Policy, official: real, price: real) {
    Times(official, LowFactor(p)) <= price <= Times(official, HighFactor(p))
  }

  /** The table's own check: a percentage is never negative. */
  predicate CapsNonNegative(p: Policy) {
    && (p.maxDiscountPercent.Some? ==> p.maxDiscountPercent.value >= 0.0)
    && (p.maxIncreasePercent.Some? ==> p.maxIncreasePercent.value >= 0.0)
  }

  /**
   An approved price lies in the policy's band if and only if the official price is positive. A variant
   whose negative adjustment exceeds the item price has a negative official price, and there every cap fails.
   */
  lemma ApprovedInBandIffOfficialPositive(ctx: Context, q: Request)
    requires q.unitPrice >= 0.0 && ResolvePrice(ctx, q, None).Approved?
    requires CapsNonNegative(ResolvePrice(ctx, q, None).policy)
    ensures var r := ResolvePrice(ctx, q, None);
            InBand(r.policy, Amount(r.official), r.approved) <==> r.official > 0
  {
    hide ResolveEffectiveRole, ResolveEffectivePolicy, ResolveOfficialPrice, PercentOf, Trim, ResolvePrice, Times;
    ApprovedIffAllConditionsHold(ctx, q);
    var r := ResolvePrice(ctx, q, None);
    var official := Amount(r.official);
    if r.official > 0 {
      PercentBound(Abs(r.approved - official), official);
      BandAroundOfficial(official, LowFactor(r.policy), HighFactor(r.policy),
                         PercentOf(Abs(r.approved - official), official) / 100.0);
    } else {
      NegativeBand(official, HighFactor(r.policy));
    }
  }

  lemma PercentBound(difference: real, official: real)
    requires official > 0.0
    ensures Times(official, PercentOf(difference, official) / 100.0) == difference
  {
  }

  lemma BandAroundOfficial(official: real, low: real, high: real, fraction: real)
    requires official > 0.0
    ensures low <= 1.0 ==> Times(official, low) <= official
    ensures high >= 1.0 ==> Times(official, high) >= official
    ensures fraction <= 1.0 - low ==> official - Times(official, fraction) >= Times(official, low)
    ensures fraction <= high - 1.0 ==> official + Times(official, fraction) <= Times(official, high)
  {
    hide Times;
    TimesOne(official);
    TimesDistributes(low, 1.0 - low, official);
    TimesDistributes(1.0, high - 1.0, official);
    if low <= 1.0 { TimesMonotone(low, 1.0, official); }
    if high >= 1.0 { TimesMonotone(1.0, high, official); }
    if fraction <= 1.0 - low { TimesMonotone(fraction, 1.0 - low, official); }
    if fraction <= high - 1.0 { TimesMonotone(fraction, high - 1.0, official); }
  }

  lemma NegativeBand(official: real, high: real)
    requires official < 0.0 && high >= 1.0
    ensures Times(official, high) < 0.0
  {
  }

  /** A concrete approval outside its band: item price 10.00, variant adjustment -20.00, increases capped at 0 %. */
  lemma NegativeOfficialPriceEscapesCap()
    ensures exists ctx: Context, q: Request ::
              && q.unitPrice >= 0.0
              && var r := ResolvePrice(ctx, q, None);
              && r.Approved? && r.policy.maxIncreasePercent == Some(0.0)
              && !InBand(r.policy, Amount(r.official), r.approved)
  {
    var role := Role("r1", "cashier", 1, true);
    var terms := UNSET.(allowIncrease := Some(true), maxIncreasePercent := Some(0.0));
    var ctx := Context(Catalogue(map["i" := Item(1000, true, false)], map["v" := Variant(-2000, true, "i")]),
                       Some([UserRoleRow(true, Some(role))]), true, Some([PolicyRow(None, None, terms)]), "b");
    var q := Request("i", Some("v"), 500.0, None, false);
    assert ResolveEffectiveRole(ctx.roleRows) == Some(EffectiveRole("r1", "cashier", 1)) by {
      var rows := ctx.roleRows.value;
      assert EligibleRows(rows) == rows;
      assert WithPriority(rows, 1) == rows;
    }
    assert ResolveEffectivePolicy(ctx.policyRows, "b", "r1") == Some(terms) by {
      assert FindRow(ctx.policyRows.value, None, None) == Some(terms);
      assert FindRow(ctx.policyRows.value, Some("b"), None) == None;
      assert FindRow(ctx.policyRows.value, Some("b"), Some("r1")) == None;
    }
    ApprovedIffAllConditionsHold(ctx, q);
    assert PercentOf(510.0, -10.0) == -5100.0;
    ApprovedInBandIffOfficialPositive(ctx, q);
  }

  /** `zero_price_requires_permission` is stored and reported, but no decision reads it. */
  lemma ZeroPricePermissionFlagIgnored(cents: int, q: Request, role: EffectiveRole, p: Policy, flag: Option<bool>)
    requires cents != 0
    ensures Decide(cents, q, role, p).Approved? <==> Decide(cents, q, role, p.(zeroPriceRequiresPermission := flag)).Approved?
  {
  }
}
