/**
 The two windows of the per-IP bucket need not stay together: a blocked request renews the set of tenants but
 not the counter. What every window of the counter admits all the same, when its own tenants bound it, and two
 runs from an unused bucket in which they do not.
 */
module IpWindows {
  import opened Options
  import opened RateLimits
  import opened IpBucket

  /** The next request opens a window of the counter; the set may still be alive. */
  predicate CounterOpens(s: IpState, now: nat) {
    !Alive(s.bucket.counter, now) && !Blocked(s.bucket, now)
  }

  /** The tenants that a window starts with: those of a set that is still alive. */
  function Carried(s: IpState, now: nat): set<string> {
    if now < s.seenUntil then s.seen else {}
  }

  // ----- single requests -----

  lemma BlockedStep(s: IpState, r: Request, blockDuration: nat)
    requires Blocked(s.bucket, r.at)
    ensures Step(s, r, blockDuration) == (See(s, r), false)
  {
  }

  lemma OpeningStep(s: IpState, r: Request, blockDuration: nat)
    requires CounterOpens(s, r.at)
    ensures Step(s, r, blockDuration) == (See(s, r).(bucket := Bucket(Some(Counter(1, Some(r.at + WINDOW_MS))), None)), true)
    ensures r.tenant in See(s, r).seen && 1 <= |See(s, r).seen|
  {
    SubsetSize({r.tenant}, See(s, r).seen);
  }

  lemma CountingStep(s: IpState, r: Request, hits: nat, end: nat, blockDuration: nat)
    requires s.bucket.counter == Some(Counter(hits, Some(end))) && r.at < end && !Blocked(s.bucket, r.at) && blockDuration > 0
    ensures var (t, ok) := Step(s, r, blockDuration);
            && (ok <==> hits + 1 <= |See(s, r).seen| * PER_TENANT_LIMIT)
            && t == See(s, r).(bucket := Bucket(Some(Counter(hits + 1, Some(end))), if ok then None else Some(r.at + blockDuration * 1000)))
  {
  }

  lemma SubsetSize(a: set<string>, b: set<string>)
    requires a <= b
    ensures |a| <= |b|
  {
    assert b == a + (b - a);
  }

  // ----- one window of the counter, from any state -----

  ghost predicate WindowOpen(s: IpState, start: nat, carried: set<string>, tenants: set<string>, admitted: nat) {
    && s.seen <= carried + tenants
    && s.bucket.counter.Some? && s.bucket.counter.value.expiresAt == Some(start + WINDOW_MS)
    && admitted <= s.bucket.counter.value.hits
    && admitted <= |carried + tenants| * PER_TENANT_LIMIT
  }

  lemma WindowOpens(s: IpState, r: Request, blockDuration: nat)
    requires CounterOpens(s, r.at)
    ensures var (t, ok) := Step(s, r, blockDuration);
            WindowOpen(t, r.at, Carried(s, r.at), {r.tenant}, 1) && ok && t.bucket.counter.value.hits <= |t.seen| * PER_TENANT_LIMIT
  {
    hide Step;
    OpeningStep(s, r, blockDuration);
    SubsetSize({r.tenant}, Carried(s, r.at) + {r.tenant});
  }

  lemma WindowGoesOn(s: IpState, r: Request, start: nat, carried: set<string>, tenants: set<string>, admitted: nat, blockDuration: nat)
    requires WindowOpen(s, start, carried, tenants, admitted) && r.at < start + WINDOW_MS && blockDuration > 0
    ensures var (t, ok) := Step(s, r, blockDuration);
            && WindowOpen(t, start, carried, tenants + {r.tenant}, admitted + if ok then 1 else 0)
            && (ok ==> t.bucket.counter.value.hits <= |t.seen| * PER_TENANT_LIMIT)
  {
    hide Step, Blocked;
    SubsetSize(carried + tenants, carried + (tenants + {r.tenant}));
    SubsetSize(See(s, r).seen, carried + (tenants + {r.tenant}));
    if Blocked(s.bucket, r.at) {
      BlockedStep(s, r, blockDuration);
    } else {
      CountingStep(s, r, s.bucket.counter.value.hits, start + WINDOW_MS, blockDuration);
    }
  }

  lemma {:induction false} WindowFromAnyState(s: IpState, w: seq<Request>, blockDuration: nat)
    requires OneWindow(w) && CounterOpens(s, w[0].at) && blockDuration > 0
    ensures var (t, admitted) := Requests(s, w, blockDuration);
            && WindowOpen(t, w[0].at, Carried(s, w[0].at), Tenants(w), AdmittedCount(admitted))
            && (admitted[|w| - 1] ==> t.bucket.counter.value.hits <= |t.seen| * PER_TENANT_LIMIT)
    decreases |w|
  {
    hide Step, Requests, Tenants, WindowOpen, Carried, CounterOpens, AdmittedCount, SortedByTime;
    if |w| > 1 { PrefixIsWindow(w); }
    var init, r := w[..|w| - 1], w[|w| - 1];
    assert w == init + [r];
    RequestsSnoc(s, init, r, blockDuration);
    TenantsSnoc(init, r);
    var (t, before) := Requests(s, init, blockDuration);
    CountAppend(before, [Step(t, r, blockDuration).1]);
    OneCount(Step(t, r, blockDuration).1);
    NoRequests(s, blockDuration);
    if init == [] {
      WindowOpens(s, r, blockDuration);
      assert {} + {r.tenant} == {r.tenant};
    } else {
      WindowFromAnyState(s, init, blockDuration);
      WindowGoesOn(t, r, w[0].at, Carried(s, w[0].at), Tenants(init), AdmittedCount(before), blockDuration);
    }
  }

  lemma PrefixIsWindow(w: seq<Request>)
    requires OneWindow(w) && |w| > 1
    ensures OneWindow(w[..|w| - 1])
  {
  }

  lemma OneCount(ok: bool)
    ensures AdmittedCount([ok]) == if ok then 1 else 0
    ensures AdmittedCount([]) == 0
  {
  }

  lemma {:induction false} CountAppend(a: seq<bool>, b: seq<bool>)
    ensures AdmittedCount(a + b) == AdmittedCount(a) + AdmittedCount(b)
  {
    if b == [] {
      assert a + b == a;
    } else {
      CountAppend(a, b[..|b| - 1]);
      assert (a + b)[..|a + b| - 1] == a + b[..|b| - 1];
    }
  }

  lemma {:induction false} RequestsAppend(s: IpState, a: seq<Request>, b: seq<Request>, blockDuration: nat)
    ensures var (t, admitted) := Requests(s, a, blockDuration);
            var (t', more) := Requests(t, b, blockDuration);
            Requests(s, a + b, blockDuration) == (t', admitted + more)
    decreases |b|
  {
    hide Step, Requests;
    if b == [] {
      assert a + b == a;
      NoRequests(Requests(s, a, blockDuration).0, blockDuration);
      assert Requests(s, a, blockDuration).1 + [] == Requests(s, a, blockDuration).1;
    } else {
      var init, r := b[..|b| - 1], b[|b| - 1];
      RequestsAppend(s, a, init, blockDuration);
      RequestsSnoc(s, a + init, r, blockDuration);
      RequestsSnoc(Requests(s, a, blockDuration).0, init, r, blockDuration);
      assert a + b == a + init + [r] && b == init + [r];
      var admitted, more := Requests(s, a, blockDuration).1, Requests(Requests(s, a, blockDuration).0, init, blockDuration).1;
      assert Requests(s, a + init, blockDuration).1 == admitted + more;
      var ok := Step(Requests(s, a + init, blockDuration).0, r, blockDuration).1;
      assert admitted + more + [ok] == admitted + (more + [ok]);
    }
  }

  // ----- bursts -----

  /** Requests of one tenant, all at one instant. */
  function Burst(r: Request, n: nat): seq<Request> {
    seq(n, i => r)
  }

  lemma {:induction false} BurstWithRoom(s: IpState, r: Request, hits: nat, end: nat, n: nat, blockDuration: nat)
    requires s.bucket == Bucket(Some(Counter(hits, Some(end))), None) && r.at < end && r.at < s.seenUntil && r.tenant in s.seen
    requires blockDuration > 0 && hits + n <= |s.seen| * PER_TENANT_LIMIT
    ensures Requests(s, Burst(r, n), blockDuration).0 == s.(bucket := Bucket(Some(Counter(hits + n, Some(end))), None))
    ensures AdmittedCount(Requests(s, Burst(r, n), blockDuration).1) == n
  {
    hide Step, Requests;
    NoRequests(s, blockDuration);
    OneCount(true);
    if n == 0 {
      assert Burst(r, 0) == [];
    } else {
      BurstWithRoom(s, r, hits, end, n - 1, blockDuration);
      assert Burst(r, n) == Burst(r, n - 1) + [r];
      RequestsSnoc(s, Burst(r, n - 1), r, blockDuration);
      var (t, before) := Requests(s, Burst(r, n - 1), blockDuration);
      assert s.seen + {r.tenant} == s.seen;
      CountingStep(t, r, hits + n - 1, end, blockDuration);
      CountAppend(before, [true]);
    }
  }

  /** A burst that opens a window of the counter in a state whose set leaves it room. */
  lemma OpeningBurst(s: IpState, r: Request, n: nat, blockDuration: nat)
    requires CounterOpens(s, r.at) && n > 0 && n <= |See(s, r).seen| * PER_TENANT_LIMIT && blockDuration > 0
    ensures Requests(s, Burst(r, n), blockDuration).0 == See(s, r).(bucket := Bucket(Some(Counter(n, Some(r.at + WINDOW_MS))), None))
    ensures AdmittedCount(Requests(s, Burst(r, n), blockDuration).1) == n
  {
    hide Step, Requests, Burst;
    OpeningStep(s, r, blockDuration);
    var t := Step(s, r, blockDuration).0;
    BurstWithRoom(t, r, 1, r.at + WINDOW_MS, n - 1, blockDuration);
    BurstCons(r, n);
    NoRequests(s, blockDuration);
    RequestsSnoc(s, [], r, blockDuration);
    assert [] + [r] == [r];
    RequestsAppend(s, [r], Burst(r, n - 1), blockDuration);
    OneCount(true);
    CountAppend([true], Requests(t, Burst(r, n - 1), blockDuration).1);
    assert [] + [true] == [true];
  }

  lemma BurstCons(r: Request, n: nat)
    requires n > 0
    ensures Burst(r, n) == [r] + Burst(r, n - 1)
  {
  }

  lemma BurstTenants(r: Request, n: nat)
    requires n > 0
    ensures Tenants(Burst(r, n)) == {r.tenant} && OneWindow(Burst(r, n)) && Burst(r, n)[0] == r
  {
    assert Burst(r, n)[0].tenant == r.tenant;
  }

  // ----- when a window's own tenants bound it -----

  /**
   Whatever follows, a window of the counter opened by request r admits at most 600 times its own distinct tenants,
   if and only if no other tenant than r's is carried into it by a set that is still alive.
   */
  lemma OwnTenantsBoundIff(s: IpState, r: Request, blockDuration: nat)
    requires CounterOpens(s, r.at) && blockDuration > 0
    ensures (forall w: seq<Request> :: OneWindow(w) && w[0] == r ==>
                           AdmittedCount(Requests(s, w, blockDuration).1) <= |Tenants(w)| * PER_TENANT_LIMIT)
            <==> Carried(s, r.at) <= {r.tenant}
  {
    hide Requests, AdmittedCount, Burst, CounterOpens;
    if Carried(s, r.at) <= {r.tenant} {
      forall w: seq<Request> | OneWindow(w) && w[0] == r
        ensures AdmittedCount(Requests(s, w, blockDuration).1) <= |Tenants(w)| * PER_TENANT_LIMIT
      {
        WindowFromAnyState(s, w, blockDuration);
        assert w[0].tenant in Tenants(w);
        assert Carried(s, r.at) + Tenants(w) == Tenants(w);
      }
    } else {
      var other :| other in Carried(s, r.at) && other != r.tenant;
      SubsetSize({other, r.tenant}, See(s, r).seen);
      assert |{other, r.tenant}| == 2;
      OpeningBurst(s, r, 601, blockDuration);
      BurstTenants(r, 601);
      assert |{r.tenant}| == 1;
      assert AdmittedCount(Requests(s, Burst(r, 601), blockDuration).1) > |Tenants(Burst(r, 601))| * PER_TENANT_LIMIT;
    }
  }

  // ----- the bound on every trace -----

  /** The tenants of the requests in the window length up to now. */
  function RecentTenants(w: seq<Request>, now: nat): set<string> {
    set i | 0 <= i < |w| && now < w[i].at + WINDOW_MS :: w[i].tenant
  }

  lemma StepSees(s: IpState, r: Request, blockDuration: nat)
    ensures var t := Step(s, r, blockDuration).0; t.seen == See(s, r).seen && t.seenUntil == See(s, r).seenUntil
  {
    hide Increment;
  }

  /** Every member of the set came in with a request made after the set was opened, hence less than a window ago. */
  ghost predicate CameIn(s: IpState, w: seq<Request>) {
    && w != [] && w[|w| - 1].at < s.seenUntil <= w[|w| - 1].at + WINDOW_MS
    && forall x :: x in s.seen ==> exists i :: 0 <= i < |w| && w[i].tenant == x && s.seenUntil <= w[i].at + WINDOW_MS
  }

  lemma OneMoreCameIn(s: IpState, w: seq<Request>, r: Request)
    requires s == FRESH || (CameIn(s, w) && w[|w| - 1].at <= r.at)
    ensures CameIn(See(s, r), w + [r])
  {
    var t, w' := See(s, r), w + [r];
    forall x | x in t.seen ensures exists i :: 0 <= i < |w'| && w'[i].tenant == x && t.seenUntil <= w'[i].at + WINDOW_MS {
      if x == r.tenant {
        assert w'[|w|].tenant == x;
      } else {
        var i :| 0 <= i < |w| && w[i].tenant == x && s.seenUntil <= w[i].at + WINDOW_MS;
        assert w'[i] == w[i];
      }
    }
  }

  lemma CameInBySeen(s: IpState, t: IpState, w: seq<Request>)
    requires CameIn(s, w) && s.seen == t.seen && s.seenUntil == t.seenUntil
    ensures CameIn(t, w)
  {
  }

  lemma {:induction false} SeenCameIn(w: seq<Request>, blockDuration: nat)
    requires w != [] && SortedByTime(w)
    ensures CameIn(Requests(FRESH, w, blockDuration).0, w)
    decreases |w|
  {
    hide Requests, Step, CameIn, See;
    var init, r := w[..|w| - 1], w[|w| - 1];
    assert w == init + [r];
    RequestsSnoc(FRESH, init, r, blockDuration);
    var t := Requests(FRESH, init, blockDuration).0;
    if init == [] { NoRequests(FRESH, blockDuration); } else { SeenCameIn(init, blockDuration); }
    OneMoreCameIn(t, init, r);
    StepSees(t, r, blockDuration);
    CameInBySeen(See(t, r), Step(t, r, blockDuration).0, w);
  }

  lemma SeenIsRecent(w: seq<Request>, blockDuration: nat)
    requires w != [] && SortedByTime(w)
    ensures |Requests(FRESH, w, blockDuration).0.seen| <= |RecentTenants(w, w[|w| - 1].at)|
  {
    hide Requests;
    SeenCameIn(w, blockDuration);
    assert Requests(FRESH, w, blockDuration).0.seen <= RecentTenants(w, w[|w| - 1].at);
    SubsetSize(Requests(FRESH, w, blockDuration).0.seen, RecentTenants(w, w[|w| - 1].at));
  }

  /**
   On every trace of an IP, whatever was blocked before: up to any request n that it admits, a window of the counter
   opened by request k has admitted at most 600 times the distinct tenants of the 60 s that end with request n.
   */
  lemma CounterWindowWithinRecentShare(w: seq<Request>, k: nat, n: nat, blockDuration: nat)
    requires SortedByTime(w) && k <= n < |w| && w[n].at < w[k].at + WINDOW_MS && blockDuration > 0
    requires CounterOpens(Requests(FRESH, w[..k], blockDuration).0, w[k].at)
    requires Requests(FRESH, w, blockDuration).1[n]
    ensures AdmittedCount(Requests(FRESH, w, blockDuration).1[k..n + 1]) <= |RecentTenants(w[..n + 1], w[n].at)| * PER_TENANT_LIMIT
  {
    hide Requests, AdmittedCount, RecentTenants, CounterOpens, Tenants, Carried, SortedByTime, OneWindow;
    var s := Requests(FRESH, w[..k], blockDuration).0;
    SliceIsWindow(w, k, n);
    AnswersOfSlice(w, k, n, blockDuration);
    WindowFromAnyState(s, w[k..n + 1], blockDuration);
    SeenIsRecent(w[..n + 1], blockDuration);
  }

  lemma SliceIsWindow(w: seq<Request>, k: nat, n: nat)
    requires SortedByTime(w) && k <= n < |w| && w[n].at < w[k].at + WINDOW_MS
    ensures OneWindow(w[k..n + 1]) && w[k..n + 1][0] == w[k] && w[..n + 1] != [] && SortedByTime(w[..n + 1]) && w[..n + 1][n] == w[n]
  {
  }

  /** The requests k to n, answered from the state that request k finds. */
  lemma AnswersOfSlice(w: seq<Request>, k: nat, n: nat, blockDuration: nat)
    requires k <= n < |w|
    ensures var (t, admitted) := Requests(Requests(FRESH, w[..k], blockDuration).0, w[k..n + 1], blockDuration);
            && Requests(FRESH, w, blockDuration).1[k..n + 1] == admitted
            && Requests(FRESH, w, blockDuration).1[n] == admitted[n - k]
            && Requests(FRESH, w[..n + 1], blockDuration).0 == t
  {
    hide Requests;
    assert w == w[..n + 1] + w[n + 1..] && w[..n + 1] == w[..k] + w[k..n + 1];
    RequestsAppend(FRESH, w[..n + 1], w[n + 1..], blockDuration);
    RequestsAppend(FRESH, w[..k], w[k..n + 1], blockDuration);
  }

  // ----- when a fair window is admitted whole -----

  /** No tenant sends more than its own limit in the window. */
  ghost predicate FairWindow(w: seq<Request>) {
    OneWindow(w) && forall t :: t in Tenants(w) ==> Sent(w, t) <= PER_TENANT_LIMIT
  }

  /** The set runs out inside the window of the counter that request r opens. */
  predicate SetRunsOutInside(s: IpState, r: Request) {
    r.at < s.seenUntil < r.at + WINDOW_MS
  }

  /** While the set lasts, everything the window has sent so far is counted and within the share of the tenants seen. */
  ghost predicate AllCounted(s: IpState, start: nat, w: seq<Request>) {
    && Tenants(w) <= s.seen && start + WINDOW_MS <= s.seenUntil
    && s.bucket == Bucket(Some(Counter(|w|, Some(start + WINDOW_MS))), None)
  }

  lemma {:induction false} FairWindowIsCounted(s: IpState, w: seq<Request>, blockDuration: nat)
    requires FairWindow(w) && CounterOpens(s, w[0].at) && !SetRunsOutInside(s, w[0]) && blockDuration > 0
    ensures AllCounted(Requests(s, w, blockDuration).0, w[0].at, w)
    ensures AdmittedCount(Requests(s, w, blockDuration).1) == |w|
    decreases |w|
  {
    hide Step, Requests, Tenants, Sent, AdmittedCount, SortedByTime, See, CounterOpens;
    var init, r := w[..|w| - 1], w[|w| - 1];
    assert w == init + [r];
    RequestsSnoc(s, init, r, blockDuration);
    TenantsSnoc(init, r);
    NoRequests(s, blockDuration);
    var (t, before) := Requests(s, init, blockDuration);
    CountAppend(before, [Step(t, r, blockDuration).1]);
    OneCount(Step(t, r, blockDuration).1);
    if init == [] {
      OpeningIsCounted(s, r, blockDuration);
    } else {
      FairPart(w);
      FairWindowIsCounted(s, init, blockDuration);
      OneMoreCounted(t, w[0].at, init, r, blockDuration);
    }
  }

  lemma OpeningIsCounted(s: IpState, r: Request, blockDuration: nat)
    requires CounterOpens(s, r.at) && !SetRunsOutInside(s, r)
    ensures Step(s, r, blockDuration).1 && AllCounted(Step(s, r, blockDuration).0, r.at, [r])
  {
    hide Step;
    OpeningStep(s, r, blockDuration);
  }

  lemma OneMoreCounted(t: IpState, start: nat, init: seq<Request>, r: Request, blockDuration: nat)
    requires AllCounted(t, start, init) && r.at < start + WINDOW_MS && blockDuration > 0
    requires |init| + 1 <= |Tenants(init) + {r.tenant}| * PER_TENANT_LIMIT && Tenants(init + [r]) == Tenants(init) + {r.tenant}
    ensures Step(t, r, blockDuration).1 && AllCounted(Step(t, r, blockDuration).0, start, init + [r])
  {
    hide Step, Tenants;
    CountingStep(t, r, |init|, start + WINDOW_MS, blockDuration);
    SubsetSize(Tenants(init) + {r.tenant}, See(t, r).seen);
  }

  lemma FairPart(w: seq<Request>)
    requires FairWindow(w) && |w| > 1
    ensures FairWindow(w[..|w| - 1]) && |w| <= |Tenants(w)| * PER_TENANT_LIMIT
  {
    hide Sent, Tenants;
    var init := w[..|w| - 1];
    assert w == init + [w[|w| - 1]];
    TenantsSnoc(init, w[|w| - 1]);
    PrefixIsWindow(w);
    forall t | t in Tenants(init) ensures Sent(init, t) <= PER_TENANT_LIMIT { SentSnoc(init, w[|w| - 1], t); }
    TogetherWithinTheirShare(w);
  }

  lemma {:induction false} SentSnoc(w: seq<Request>, r: Request, t: string)
    ensures Sent(w + [r], t) == Sent(w, t) + if r.tenant == t then 1 else 0
  {
    if w == [] {
      assert [] + [r] == [r] && [r][1..] == [];
    } else {
      SentSnoc(w[1..], r, t);
      assert (w + [r])[1..] == w[1..] + [r];
    }
  }

  lemma {:induction false} SentInBurst(r: Request, n: nat, t: string)
    ensures Sent(Burst(r, n), t) == if r.tenant == t then n else 0
  {
    if n > 0 {
      SentInBurst(r, n - 1, t);
      assert Burst(r, n) == Burst(r, n - 1) + [r];
      SentSnoc(Burst(r, n - 1), r, t);
    }
  }

  /** 600 requests of one tenant, and one of a newcomer when the set has run out. */
  function Crossing(r: Request, newcomer: Request): seq<Request> {
    Burst(r, PER_TENANT_LIMIT) + [newcomer]
  }

  lemma CrossingIsFair(r: Request, newcomer: Request)
    requires r.tenant != newcomer.tenant && r.at <= newcomer.at < r.at + WINDOW_MS
    ensures FairWindow(Crossing(r, newcomer)) && Crossing(r, newcomer)[0] == r
  {
    hide Sent;
    forall t ensures Sent(Crossing(r, newcomer), t) <= PER_TENANT_LIMIT {
      SentInBurst(r, PER_TENANT_LIMIT, t);
      SentSnoc(Burst(r, PER_TENANT_LIMIT), newcomer, t);
    }
  }

  /** When the set runs out inside the window, the newcomer of a fair window is refused. */
  lemma NewcomerIsRefused(s: IpState, r: Request, newcomer: Request, blockDuration: nat)
    requires CounterOpens(s, r.at) && SetRunsOutInside(s, r) && blockDuration > 0
    requires newcomer.tenant != r.tenant && newcomer.at == s.seenUntil
    ensures FairWindow(Crossing(r, newcomer)) && Crossing(r, newcomer)[0] == r
    ensures AdmittedCount(Requests(s, Crossing(r, newcomer), blockDuration).1) == PER_TENANT_LIMIT
    ensures !Requests(s, Crossing(r, newcomer), blockDuration).1[PER_TENANT_LIMIT]
  {
    assert |Burst(r, PER_TENANT_LIMIT)| == PER_TENANT_LIMIT;
    hide Step, Requests, AdmittedCount, Burst, FairWindow, CounterOpens;
    CrossingIsFair(r, newcomer);
    SubsetSize({r.tenant}, See(s, r).seen);
    assert |{r.tenant}| == 1 && |{newcomer.tenant}| == 1;
    OpeningBurst(s, r, PER_TENANT_LIMIT, blockDuration);
    var (t, before) := Requests(s, Burst(r, PER_TENANT_LIMIT), blockDuration);
    CountingStep(t, newcomer, PER_TENANT_LIMIT, r.at + WINDOW_MS, blockDuration);
    RequestsSnoc(s, Burst(r, PER_TENANT_LIMIT), newcomer, blockDuration);
    CountAppend(before, [false]);
    OneCount(false);
  }

  /**
   Every window of the counter opened by request r in which no tenant sends more than 600 is admitted whole, if and only
   if the set of tenants does not run out inside it.
   */
  lemma FairWindowsAdmittedIff(s: IpState, r: Request, blockDuration: nat)
    requires CounterOpens(s, r.at) && blockDuration > 0
    ensures (forall w: seq<Request> :: FairWindow(w) && w[0] == r ==> AdmittedCount(Requests(s, w, blockDuration).1) == |w|)
            <==> !SetRunsOutInside(s, r)
  {
    hide Requests, AdmittedCount, Sent, Tenants, SortedByTime, CounterOpens, Burst;
    if SetRunsOutInside(s, r) {
      var newcomer := Request(r.tenant + "'", s.seenUntil);
      assert |newcomer.tenant| != |r.tenant|;
      NewcomerIsRefused(s, r, newcomer, blockDuration);
      CrossingLength(r, newcomer);
      assert FairWindow(Crossing(r, newcomer)) && Crossing(r, newcomer)[0] == r;
    } else {
      forall w: seq<Request> | FairWindow(w) && w[0] == r ensures AdmittedCount(Requests(s, w, blockDuration).1) == |w| {
        FairWindowIsCounted(s, w, blockDuration);
      }
    }
  }

  lemma CrossingLength(r: Request, newcomer: Request)
    ensures |Crossing(r, newcomer)| == PER_TENANT_LIMIT + 1
  {
  }

  // ----- runs in which the windows part -----

  const A := "a"
  const B := "b"
  const C := "c"

  /** 600 requests of a fill the bucket, and the next one is blocked. */
  lemma FilledAndBlocked(blockDuration: nat)
    requires blockDuration > 0
    ensures Requests(FRESH, Burst(Request(A, 0), 600) + [Request(A, 0)], blockDuration).0 ==
            IpState({A}, 60000, Bucket(Some(Counter(601, Some(60000))), Some(blockDuration * 1000)))
  {
    hide Requests, Step, Burst;
    assert See(FRESH, Request(A, 0)) == FRESH.(seen := {A}, seenUntil := 60000);
    assert |{A}| == 1;
    OpeningBurst(FRESH, Request(A, 0), 600, blockDuration);
    RequestsSnoc(FRESH, Burst(Request(A, 0), 600), Request(A, 0), blockDuration);
    CountingStep(IpState({A}, 60000, Bucket(Some(Counter(600, Some(60000))), None)), Request(A, 0), 600, 60000, blockDuration);
    assert {A} + {A} == {A};
  }

  /** Requests refused during the block renew the set. */
  lemma RenewedWhileBlocked(s: IpState, r: Request, blockDuration: nat)
    requires s.bucket.blockedUntil.Some? && r.at < s.bucket.blockedUntil.value
    ensures Step(s, r, blockDuration) ==
            (IpState(if r.at < s.seenUntil then s.seen + {r.tenant} else {r.tenant},
                     if r.at < s.seenUntil then s.seenUntil else r.at + WINDOW_MS, s.bucket), false)
  {
    BlockedStep(s, r, blockDuration);
  }

  /** The last millisecond of a block that began at time 0. */
  function BlockEnd(blockDuration: nat): nat
    requires blockDuration > 0
  {
    blockDuration * 1000 - 1
  }

  /** The bucket is filled and blocked at time 0; just before the block ends three tenants come by. */
  function ThreeComeBy(blockDuration: nat): seq<Request>
    requires blockDuration > 0
  {
    var t := BlockEnd(blockDuration);
    Burst(Request(A, 0), 600) + [Request(A, 0)] + [Request(A, t)] + [Request(B, t)] + [Request(C, t)]
  }

  lemma ThreeAreSeen(blockDuration: nat)
    requires blockDuration >= 61
    ensures SortedByTime(ThreeComeBy(blockDuration))
    ensures Requests(FRESH, ThreeComeBy(blockDuration), blockDuration).0 ==
            IpState({A} + {B} + {C}, BlockEnd(blockDuration) + WINDOW_MS, Bucket(Some(Counter(601, Some(60000))), Some(blockDuration * 1000)))
  {
    hide Requests, Step;
    var t, bucket := BlockEnd(blockDuration), Bucket(Some(Counter(601, Some(60000))), Some(blockDuration * 1000));
    var start := Burst(Request(A, 0), 600) + [Request(A, 0)];
    FilledAndBlocked(blockDuration);
    RequestsSnoc(FRESH, start, Request(A, t), blockDuration);
    RequestsSnoc(FRESH, start + [Request(A, t)], Request(B, t), blockDuration);
    RequestsSnoc(FRESH, start + [Request(A, t)] + [Request(B, t)], Request(C, t), blockDuration);
    RenewedWhileBlocked(IpState({A}, 60000, bucket), Request(A, t), blockDuration);
    RenewedWhileBlocked(IpState({A}, t + WINDOW_MS, bucket), Request(B, t), blockDuration);
    RenewedWhileBlocked(IpState({A} + {B}, t + WINDOW_MS, bucket), Request(C, t), blockDuration);
  }

  /**
   Too much, for every block longer than the window: three refused requests renew the set, and after the block one tenant
   alone gets three tenants' share of the bucket, 1800 requests in a window of the counter in which nobody else shows up.
   */
  lemma OneTenantGetsThreeShares(blockDuration: nat)
    requires blockDuration >= 61
    ensures var (s, r) := (Requests(FRESH, ThreeComeBy(blockDuration), blockDuration).0, Request(A, blockDuration * 1000));
            && CounterOpens(s, r.at) && SortedByTime(ThreeComeBy(blockDuration) + Burst(r, 1800))
            && OneWindow(Burst(r, 1800)) && Tenants(Burst(r, 1800)) == {A}
            && AdmittedCount(Requests(s, Burst(r, 1800), blockDuration).1) == 1800
  {
    hide Requests, Step, AdmittedCount;
    ThreeAreSeen(blockDuration);
    var (s, r) := (Requests(FRESH, ThreeComeBy(blockDuration), blockDuration).0, Request(A, blockDuration * 1000));
    BurstTenants(r, 1800);
    assert See(s, r).seen == {A, B, C} && |{A, B, C}| == 3;
    OpeningBurst(s, r, 1800, blockDuration);
  }

  /** Too little, for every such block: the same renewal makes the set run out inside the next window, so that a fair window is cut short. */
  lemma FairWindowIsCutShort(blockDuration: nat)
    requires blockDuration >= 61
    ensures var (s, r) := (Requests(FRESH, ThreeComeBy(blockDuration), blockDuration).0, Request(A, blockDuration * 1000));
            && CounterOpens(s, r.at) && SetRunsOutInside(s, r)
            && !(forall w: seq<Request> :: FairWindow(w) && w[0] == r ==> AdmittedCount(Requests(s, w, blockDuration).1) == |w|)
  {
    hide Requests, FairWindow, AdmittedCount;
    ThreeAreSeen(blockDuration);
    FairWindowsAdmittedIff(Requests(FRESH, ThreeComeBy(blockDuration), blockDuration).0, Request(A, blockDuration * 1000), blockDuration);
  }
}
