/**
 The per-IP bucket: its ceiling is 600 times the distinct tenants seen from the IP in a window of its own, kept
 in a second key, while the hits are counted by the storage of `RateLimits`. Both keys are touched at one
 instant by each request.
 */
module IpBucket {
  import opened Options
  import opened RateLimits

  const PER_TENANT_LIMIT := 600

  /** A request without a tenant counts for the shared tenant "anon". */
  function TenantOf(decoded: Option<string>): string {
    if decoded.Some? then decoded.value else "anon"
  }

  datatype Request = Request(tenant: string, at: nat)

  /** The tenants seen, until when they are remembered, and the hits of the bucket. */
  datatype IpState = IpState(seen: set<string>, seenUntil: nat, bucket: Bucket)

  const FRESH := IpState({}, 0, Bucket(None, None))

  /** SADD, then EXPIRE only when the set has no expiry yet. */
  function See(s: IpState, r: Request): IpState {
    if r.at < s.seenUntil then s.(seen := s.seen + {r.tenant})
    else s.(seen := {r.tenant}, seenUntil := r.at + WINDOW_MS)
  }

  function Step(s: IpState, r: Request, blockDuration: nat): (IpState, bool) {
    var t := See(s, r);
    var (b, record) := Increment(s.bucket, r.at, WINDOW_MS, |t.seen| * PER_TENANT_LIMIT, blockDuration);
    (t.(bucket := b), !record.isBlocked)
  }

  /** The ceiling of a request is 600 times the tenants seen in the 60 seconds since the set was opened, its own included. */
  lemma StepIs(s: IpState, r: Request, blockDuration: nat)
    ensures var (t, ok) := Step(s, r, blockDuration);
            var blocked := s.bucket.blockedUntil.Some? && r.at < s.bucket.blockedUntil.value;
            var open := s.bucket.counter.Some? && (s.bucket.counter.value.expiresAt.None? || r.at < s.bucket.counter.value.expiresAt.value);
            && t.seen == (if r.at < s.seenUntil then s.seen else {}) + {r.tenant}
            && t.seenUntil == (if r.at < s.seenUntil then s.seenUntil else r.at + 60000)
            && (ok <==> !blocked && (blockDuration == 0 || (if open then s.bucket.counter.value.hits else 0) < |t.seen| * 600))
            && (!blocked && !open ==> t.bucket.counter == Some(Counter(1, Some(r.at + 60000))))
  {
    assert {} + {r.tenant} == {r.tenant};
  }

  function Requests(s: IpState, w: seq<Request>, blockDuration: nat): (r: (IpState, seq<bool>))
    ensures |r.1| == |w|
    decreases |w|
  {
    if w == [] then (s, [])
    else
      var (t, admitted) := Requests(s, w[..|w| - 1], blockDuration);
      var (t', ok) := Step(t, w[|w| - 1], blockDuration);
      (t', admitted + [ok])
  }

  // ----- counting by tenant -----

  function Tenants(w: seq<Request>): set<string> {
    set i | 0 <= i < |w| :: w[i].tenant
  }

  function Sent(w: seq<Request>, tenant: string): nat {
    if w == [] then 0 else Sent(w[1..], tenant) + if w[0].tenant == tenant then 1 else 0
  }

  function Without(w: seq<Request>, tenant: string): seq<Request> {
    if w == [] then [] else (if w[0].tenant == tenant then [] else [w[0]]) + Without(w[1..], tenant)
  }

  lemma {:induction false} WithoutOne(w: seq<Request>, tenant: string)
    ensures |w| == Sent(w, tenant) + |Without(w, tenant)|
    ensures forall t :: t in Tenants(Without(w, tenant)) <==> t in Tenants(w) && t != tenant
    ensures forall t :: t != tenant ==> Sent(Without(w, tenant), t) == Sent(w, t)
  {
    if w != [] {
      var rest := Without(w[1..], tenant);
      WithoutOne(w[1..], tenant);
      assert w == [w[0]] + w[1..];
      if w[0].tenant != tenant {
        assert Without(w, tenant) == [w[0]] + rest && Without(w, tenant)[1..] == rest;
        TenantsCons(w[0], rest);
      } else {
        assert Without(w, tenant) == rest;
      }
      TenantsCons(w[0], w[1..]);
    }
  }

  lemma TenantsCons(r: Request, w: seq<Request>)
    ensures Tenants([r] + w) == {r.tenant} + Tenants(w)
  {
    forall t | t in {r.tenant} + Tenants(w) ensures t in Tenants([r] + w) {
      if t == r.tenant { assert ([r] + w)[0].tenant == t; }
      else { var i :| 0 <= i < |w| && w[i].tenant == t; assert ([r] + w)[i + 1].tenant == t; }
    }
  }

  lemma TenantsSnoc(w: seq<Request>, r: Request)
    ensures Tenants(w + [r]) == Tenants(w) + {r.tenant}
  {
    forall t | t in Tenants(w) + {r.tenant} ensures t in Tenants(w + [r]) {
      if t == r.tenant { assert (w + [r])[|w|].tenant == t; }
      else { var i :| 0 <= i < |w| && w[i].tenant == t; assert (w + [r])[i].tenant == t; }
    }
  }

  /** If no tenant sent more than its own limit, all of them together stay within the limit times their number. */
  lemma {:induction false} TogetherWithinTheirShare(w: seq<Request>)
    requires forall t :: t in Tenants(w) ==> Sent(w, t) <= PER_TENANT_LIMIT
    ensures |w| <= |Tenants(w)| * PER_TENANT_LIMIT
    decreases |Tenants(w)|
  {
    if w != [] {
      var t := w[0].tenant;
      assert t in Tenants(w);
      WithoutOne(w, t);
      var rest := Without(w, t);
      assert Tenants(rest) == Tenants(w) - {t};
      TogetherWithinTheirShare(rest);
    }
  }

  // ----- whole traces -----

  predicate SortedByTime(w: seq<Request>) {
    forall i, j :: 0 <= i <= j < |w| ==> w[i].at <= w[j].at
  }

  /** No tenant sends more than its own limit in any stretch of the trace shorter than a window. */
  ghost predicate Fair(w: seq<Request>) {
    forall i, j, t :: 0 <= i < j <= |w| && w[j - 1].at < w[i].at + WINDOW_MS ==> Sent(w[i..j], t) <= PER_TENANT_LIMIT
  }

  /** Neither the set, nor the counter, nor a block is alive when the window opens. */
  predicate Opens(s: IpState, now: nat) {
    s.seenUntil <= now && !Alive(s.bucket.counter, now) && !Blocked(s.bucket, now)
  }

  /** The two windows were opened by request k and have counted the same requests since. */
  predicate InStep(s: IpState, w: seq<Request>, k: nat)
    requires k < |w|
  {
    && w[|w| - 1].at < w[k].at + WINDOW_MS
    && s == IpState(Tenants(w[k..]), w[k].at + WINDOW_MS, Bucket(Some(Counter(|w| - k, Some(w[k].at + WINDOW_MS))), None))
  }

  /** A request inside a window that is in step. */
  lemma CarriedOn(s: IpState, r: Request, hits: nat, end: nat, blockDuration: nat)
    requires s.seenUntil == end && s.bucket.counter == Some(Counter(hits, Some(end))) && r.at < end && !Blocked(s.bucket, r.at)
    requires hits + 1 <= |s.seen + {r.tenant}| * PER_TENANT_LIMIT
    ensures Step(s, r, blockDuration) == (IpState(s.seen + {r.tenant}, end, Bucket(Some(Counter(hits + 1, Some(end))), None)), true)
  {
  }

  /** A request that opens both windows. */
  lemma OpenedBy(s: IpState, r: Request, blockDuration: nat)
    requires Opens(s, r.at)
    ensures Step(s, r, blockDuration) ==
            (IpState({r.tenant}, r.at + WINDOW_MS, Bucket(Some(Counter(1, Some(r.at + WINDOW_MS))), None)), true)
  {
    assert |{r.tenant}| == 1;
  }

  lemma RequestsSnoc(s: IpState, w: seq<Request>, r: Request, blockDuration: nat)
    ensures var (t, admitted) := Requests(s, w, blockDuration);
            Requests(s, w + [r], blockDuration) == (Step(t, r, blockDuration).0, admitted + [Step(t, r, blockDuration).1])
  {
    assert (w + [r])[..|w|] == w;
  }

  lemma InStepWhenOpened(s: IpState, init: seq<Request>, r: Request, blockDuration: nat)
    requires Opens(s, r.at)
    ensures Step(s, r, blockDuration).1 && InStep(Step(s, r, blockDuration).0, init + [r], |init|)
  {
    hide Step, Opens;
    OpenedBy(s, r, blockDuration);
    assert (init + [r])[|init|..] == [] + [r];
    TenantsSnoc([], r);
    NoRequests(s, blockDuration);
  }

  lemma InStepWhenCarriedOn(s: IpState, init: seq<Request>, k: nat, r: Request, blockDuration: nat)
    requires k < |init| && InStep(s, init, k) && r.at < s.seenUntil && Fair(init + [r])
    ensures Step(s, r, blockDuration).1 && InStep(Step(s, r, blockDuration).0, init + [r], k)
  {
    hide Step, Fair, Tenants;
    var w := init + [r];
    assert w[k..] == init[k..] + [r];
    TenantsSnoc(init[k..], r);
    FairShare(w, k);
    CarriedOn(s, r, |init| - k, s.seenUntil, blockDuration);
  }

  lemma {:induction false} FairTraceStaysInStep(w: seq<Request>, blockDuration: nat) returns (k: nat)
    requires w != [] && SortedByTime(w) && Fair(w)
    ensures k < |w| && InStep(Requests(FRESH, w, blockDuration).0, w, k)
    ensures forall i :: 0 <= i < |w| ==> Requests(FRESH, w, blockDuration).1[i]
    decreases |w|
  {
    hide Step, Requests, Fair, InStep;
    var init, r := w[..|w| - 1], w[|w| - 1];
    assert w == init + [r];
    RequestsSnoc(FRESH, init, r, blockDuration);
    var s := Requests(FRESH, init, blockDuration).0;
    k := |init|;
    if init == [] {
      NoRequests(FRESH, blockDuration);
      InStepWhenOpened(s, init, r, blockDuration);
    } else {
      FairPrefix(w);
      var k0 := FairTraceStaysInStep(init, blockDuration);
      InStepState(s, init, k0, r.at);
      if r.at < s.seenUntil {
        k := k0;
        InStepWhenCarriedOn(s, init, k, r, blockDuration);
      } else {
        InStepWhenOpened(s, init, r, blockDuration);
      }
    }
  }

  lemma InStepState(s: IpState, w: seq<Request>, k: nat, now: nat)
    requires k < |w| && InStep(s, w, k)
    ensures s.seenUntil <= now ==> Opens(s, now)
  {
  }

  lemma NoRequests(s: IpState, blockDuration: nat)
    ensures Requests(s, [], blockDuration) == (s, []) && Tenants([]) == {}
  {
  }

  /** What a fair trace has sent since request k is within the share of the tenants seen since. */
  lemma FairShare(w: seq<Request>, k: nat)
    requires k < |w| && Fair(w) && w[|w| - 1].at < w[k].at + WINDOW_MS
    ensures |w| - k <= |Tenants(w[k..])| * PER_TENANT_LIMIT
  {
    assert w[k..] == w[k..|w|];
    TogetherWithinTheirShare(w[k..]);
  }

  lemma FairPrefix(w: seq<Request>)
    requires w != [] && SortedByTime(w) && Fair(w)
    ensures SortedByTime(w[..|w| - 1]) && Fair(w[..|w| - 1])
  {
    var init := w[..|w| - 1];
    forall i, j, t | 0 <= i < j <= |init| && init[j - 1].at < init[i].at + WINDOW_MS
      ensures Sent(init[i..j], t) <= PER_TENANT_LIMIT
    {
      assert init[i..j] == w[i..j];
    }
  }

  /**
   For every trace from one IP, over any number of windows: if no tenant behind it goes over its own 600 a
   minute, the shared bucket refuses none of them.
   */
  lemma FairTenantsAreNeverRefused(w: seq<Request>, blockDuration: nat)
    requires SortedByTime(w) && Fair(w)
    ensures forall i :: 0 <= i < |w| ==> Requests(FRESH, w, blockDuration).1[i]
  {
    if w != [] { var k := FairTraceStaysInStep(w, blockDuration); }
  }

  // ----- one window, fair or not -----

  function AdmittedCount(admitted: seq<bool>): nat {
    if admitted == [] then 0 else AdmittedCount(admitted[..|admitted| - 1]) + if admitted[|admitted| - 1] then 1 else 0
  }

  predicate OneWindow(w: seq<Request>) {
    w != [] && SortedByTime(w) && w[|w| - 1].at < w[0].at + WINDOW_MS
  }

  /** Each prefix of the window has at most the limit times the tenants seen so far. */
  predicate WithinShare(w: seq<Request>) {
    forall n :: 0 <= n <= |w| ==> n <= |Tenants(w[..n])| * PER_TENANT_LIMIT
  }

  /** The state in a window opened at `start`: both keys end together, and the hits cover what was admitted. */
  predicate Counted(s: IpState, start: nat, sent: nat, admitted: nat, withinShare: bool) {
    && s.seenUntil == start + WINDOW_MS && s.bucket.counter.Some?
    && s.bucket.counter.value.expiresAt == Some(start + WINDOW_MS)
    && admitted <= s.bucket.counter.value.hits <= sent
    && admitted <= |s.seen| * PER_TENANT_LIMIT
    && (withinShare <==> admitted == sent)
    && (withinShare ==> s.bucket.blockedUntil.None?)
  }

  lemma CountedStep(s: IpState, r: Request, start: nat, sent: nat, admitted: nat, withinShare: bool, blockDuration: nat)
    requires Counted(s, start, sent, admitted, withinShare) && r.at < start + WINDOW_MS && blockDuration > 0
    requires |s.seen| <= |s.seen + {r.tenant}|
    ensures var (t, ok) := Step(s, r, blockDuration);
            && Counted(t, start, sent + 1, admitted + (if ok then 1 else 0),
                       withinShare && sent + 1 <= |s.seen + {r.tenant}| * PER_TENANT_LIMIT)
            && t.seen == s.seen + {r.tenant}
  {
  }

  lemma {:induction false} WindowCounts(s: IpState, w: seq<Request>, blockDuration: nat)
    requires OneWindow(w) && Opens(s, w[0].at) && blockDuration > 0
    ensures var (s', admitted) := Requests(s, w, blockDuration);
            s'.seen == Tenants(w) && Counted(s', w[0].at, |w|, AdmittedCount(admitted), WithinShare(w))
    decreases |w|
  {
    hide Step, Requests, Tenants, Counted, WithinShare;
    var init, r := w[..|w| - 1], w[|w| - 1];
    assert w == init + [r];
    RequestsSnoc(s, init, r, blockDuration);
    TenantsSnoc(init, r);
    ShareOfPrefix(w);
    var (t, before) := Requests(s, init, blockDuration);
    assert (before + [Step(t, r, blockDuration).1])[..|before|] == before;
    if init == [] {
      NoRequests(s, blockDuration);
      OpenedBy(s, r, blockDuration);
      FirstOfWindow(s, r);
      assert Tenants(w) == {r.tenant};
    } else {
      WindowCounts(s, init, blockDuration);
      MoreTenantsMoreShare(init, w);
      CountedStep(t, r, w[0].at, |init|, AdmittedCount(before), WithinShare(init), blockDuration);
    }
  }

  lemma FirstOfWindow(s: IpState, r: Request)
    ensures Counted(IpState({r.tenant}, r.at + WINDOW_MS, Bucket(Some(Counter(1, Some(r.at + WINDOW_MS))), None)), r.at, 1, 1, true)
    ensures WithinShare([])
  {
    assert |{r.tenant}| == 1;
  }

  lemma MoreTenantsMoreShare(init: seq<Request>, w: seq<Request>)
    requires w != [] && init == w[..|w| - 1]
    ensures |Tenants(init)| <= |Tenants(w)|
  {
    TenantsSnoc(init, w[|w| - 1]);
    assert init + [w[|w| - 1]] == w;
    var a, b := Tenants(init), Tenants(w);
    assert a <= b;
    assert |b| == |a| + |b - a| by { assert b == a + (b - a); }
  }

  lemma ShareOfPrefix(w: seq<Request>)
    requires w != []
    ensures WithinShare(w) <==> WithinShare(w[..|w| - 1]) && |w| <= |Tenants(w)| * PER_TENANT_LIMIT
  {
    var init := w[..|w| - 1];
    assert w[..|w|] == w;
    forall n | 0 <= n <= |init| ensures w[..n] == init[..n] { }
    if WithinShare(w) {
      forall n | 0 <= n <= |init| ensures n <= |Tenants(init[..n])| * PER_TENANT_LIMIT {
        assert w[..n] == init[..n];
      }
    }
  }

  /** What one window admits never exceeds 600 times the distinct tenants that showed up in it. */
  lemma WindowAdmitsAtMostItsTenantsShare(s: IpState, w: seq<Request>, blockDuration: nat)
    requires OneWindow(w) && Opens(s, w[0].at) && blockDuration > 0
    ensures AdmittedCount(Requests(s, w, blockDuration).1) <= |Tenants(w)| * PER_TENANT_LIMIT
    ensures AdmittedCount(Requests(s, w, blockDuration).1) == |w| <==> WithinShare(w)
  {
    WindowCounts(s, w, blockDuration);
  }

  // ----- the two keys of one IP -----

  class IpTenants {
    var members: map<string, set<string>>
    var expiries: map<string, nat>

    constructor ()
      ensures members == map[] && expiries == map[]
    {
      members, expiries := map[], map[];
    }

    function Of(ip: string): (set<string>, nat)
      reads this
    {
      (if ip in members then members[ip] else {}, if ip in expiries then expiries[ip] else 0)
    }

    method DistinctTenantsPerIp(realIp: Option<string>, decoded: Option<string>, now: nat) returns (count: nat)
      modifies this
      ensures var ip := if realIp.Some? then realIp.value else "unknown";
              var s := IpState(old(Of(ip)).0, old(Of(ip)).1, Bucket(None, None));
              var t := See(s, Request(TenantOf(decoded), now));
              && Of(ip) == (t.seen, t.seenUntil) && count == |t.seen|
              && forall other :: other != ip ==> Of(other) == old(Of(other))
      ensures var ip := if realIp.Some? then realIp.value else "unknown";
              var (seen, until) := (old(Of(ip)).0, old(Of(ip)).1);
              && Of(ip) == ((if now < until then seen else {}) + {if decoded.Some? then decoded.value else "anon"}, if now < until then until else now + 60000)
              && count == |Of(ip).0|
    {
      var ip := if realIp.Some? then realIp.value else "unknown";
      var tenantId := TenantOf(decoded);
      var alive := ip in expiries && now < expiries[ip];
      members := members[ip := (if alive && ip in members then members[ip] else {}) + {tenantId}];
      if !alive {
        expiries := expiries[ip := now + WINDOW_MS];
      }
      count := |members[ip]|;
    }
  }
}
