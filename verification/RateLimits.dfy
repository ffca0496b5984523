/**
 Rate limiting with Redis counters that expire: the per-email login guard, the throttler storage with its
 block key, and the per-IP bucket sized by the tenants seen. Time is in milliseconds, a key is alive before
 its expiry and gone from then on, and each request is atomic.
 */
module RateLimits {
  import opened Options

  // ----- counters -----

  /** A counter; `None` as expiry means that the key would never go away. */
  datatype Counter = Counter(hits: nat, expiresAt: Option<nat>)

  predicate Alive(c: Option<Counter>, now: nat) {
    c.Some? && (c.value.expiresAt.Some? ==> now < c.value.expiresAt.value)
  }

  /** INCR on a key that may have expired. */
  function Incr(c: Option<Counter>, now: nat): Counter {
    if Alive(c, now) then c.value.(hits := c.value.hits + 1) else Counter(1, None)
  }

  predicate Sorted(times: seq<nat>) {
    forall i, j :: 0 <= i <= j < |times| ==> times[i] <= times[j]
  }

  // ----- a fixed window admits at most 2 * limit - 1 in any interval of one window length -----

  /** What an interval [a, a + w) has admitted, given the window that is open: the heart of the bound. */
  predicate Budget(c: Option<Counter>, w: nat, limit: nat, a: nat, admitted: nat) {
    if c.None? then admitted == 0
    else
      && c.value.hits >= 1 && c.value.expiresAt.Some? && c.value.expiresAt.value >= w
      && var start := c.value.expiresAt.value - w;
      var inWindow := if c.value.hits <= limit then c.value.hits else limit;
      if start < a then admitted <= inWindow && (inWindow > 0 ==> admitted <= inWindow - 1)
      else if start < a + w then admitted <= inWindow + (if limit > 0 then limit - 1 else 0)
      else admitted <= limit + (if limit > 0 then limit - 1 else 0)
  }

  /** The window after one hit: opened by it, or carried on with its old expiry. */
  function Hit(c: Option<Counter>, now: nat, w: nat): Counter {
    if Alive(c, now) && c.value.expiresAt.Some? then c.value.(hits := c.value.hits + 1) else Counter(1, Some(now + w))
  }

  lemma BudgetStep(c: Option<Counter>, now: nat, w: nat, limit: nat, a: nat, admitted: nat, admits: bool)
    requires w > 0 && Budget(c, w, limit, a, admitted)
    requires c.Some? ==> c.value.expiresAt.value <= now + w
    requires admitted > 0 ==> a <= now
    requires admits ==> Hit(c, now, w).hits <= limit
    ensures Budget(Some(Hit(c, now, w)), w, limit, a, admitted + if admits && a <= now < a + w then 1 else 0)
  {
  }

  lemma BudgetBounds(c: Option<Counter>, w: nat, limit: nat, a: nat, admitted: nat)
    requires Budget(c, w, limit, a, admitted)
    ensures limit >= 1 ==> admitted <= 2 * limit - 1
    ensures limit == 0 ==> admitted == 0
  {
  }

  /** How many of the admitted requests fall in [a, a + w). */
  function AdmittedIn(times: seq<nat>, admitted: seq<bool>, a: nat, w: nat): nat
    requires |times| == |admitted|
  {
    if times == [] then 0
    else AdmittedIn(times[..|times| - 1], admitted[..|times| - 1], a, w)
         + if admitted[|times| - 1] && a <= times[|times| - 1] < a + w then 1 else 0
  }

  lemma {:induction false} AdmittedAreNotEarly(times: seq<nat>, admitted: seq<bool>, a: nat, w: nat)
    requires |times| == |admitted| && Sorted(times) && AdmittedIn(times, admitted, a, w) > 0
    ensures a <= times[|times| - 1]
    decreases |times|
  {
    if !(admitted[|times| - 1] && a <= times[|times| - 1] < a + w) {
      AdmittedAreNotEarly(times[..|times| - 1], admitted[..|times| - 1], a, w);
    }
  }

  // ----- the login guard -----

  const WINDOW_MS := 60000
  const MAX_ATTEMPTS_PER_EMAIL := 5

  /** INCR, and PEXPIRE only when the count is 1. */
  function Attempt(c: Option<Counter>, now: nat): (Counter, bool) {
    var n := Incr(c, now);
    var armed := if n.hits == 1 then n.(expiresAt := Some(now + WINDOW_MS)) else n;
    (armed, armed.hits <= MAX_ATTEMPTS_PER_EMAIL)
  }

  /** An attempt is admitted unless a window is open in which five have been counted; the first of a window opens it for 60 seconds. */
  lemma AttemptIs(c: Option<Counter>, now: nat)
    ensures var (c', ok) := Attempt(c, now);
            var open := c.Some? && (c.value.expiresAt.None? || now < c.value.expiresAt.value);
            && (ok <==> !open || c.value.hits < 5)
            && c' == if open && c.value.hits > 0 then Counter(c.value.hits + 1, c.value.expiresAt) else Counter(1, Some(now + 60000))
  {
  }

  function Attempts(times: seq<nat>): (r: (Option<Counter>, seq<bool>))
    ensures |r.1| == |times|
  {
    if times == [] then (None, [])
    else
      var (c, admitted) := Attempts(times[..|times| - 1]);
      var (c', ok) := Attempt(c, times[|times| - 1]);
      (Some(c'), admitted + [ok])
  }

  /** The counter of a trace always has hits and an expiry at most one window away. */
  lemma {:induction false} AttemptsArmed(times: seq<nat>)
    requires Sorted(times) && times != []
    ensures var c := Attempts(times).0;
            && c.Some? && c.value.hits >= 1 && c.value.expiresAt.Some?
            && WINDOW_MS <= c.value.expiresAt.value <= times[|times| - 1] + WINDOW_MS
  {
    if |times| > 1 {
      var init := times[..|times| - 1];
      AttemptsArmed(init);
      assert init[|init| - 1] <= times[|times| - 1];
    }
  }

  lemma {:induction false} AttemptsWithinBudget(times: seq<nat>, a: nat)
    requires Sorted(times)
    ensures Budget(Attempts(times).0, WINDOW_MS, MAX_ATTEMPTS_PER_EMAIL, a,
                   AdmittedIn(times, Attempts(times).1, a, WINDOW_MS))
  {
    hide Budget;
    if times == [] {
      NothingYet(WINDOW_MS, MAX_ATTEMPTS_PER_EMAIL, a);
    } else {
      var init, now := times[..|times| - 1], times[|times| - 1];
      AttemptsWithinBudget(init, a);
      var (c, admitted) := Attempts(init);
      if init != [] { AttemptsArmed(init); assert init[|init| - 1] <= now; }
      if AdmittedIn(init, admitted, a, WINDOW_MS) > 0 { AdmittedAreNotEarly(init, admitted, a, WINDOW_MS); }
      assert Attempts(times).1[..|init|] == admitted;
      BudgetStep(c, now, WINDOW_MS, MAX_ATTEMPTS_PER_EMAIL, a, AdmittedIn(init, admitted, a, WINDOW_MS), Attempt(c, now).1);
    }
  }

  lemma NothingYet(w: nat, limit: nat, a: nat)
    ensures Budget(None, w, limit, a, 0)
  {
  }

  /** For every trace of attempts on one email, any 60 s admit at most 9 of them, although two windows may overlap it. */
  lemma AtMostNineAttemptsPerMinute(times: seq<nat>, a: nat)
    requires Sorted(times)
    ensures AdmittedIn(times, Attempts(times).1, a, WINDOW_MS) <= 9
  {
    hide Budget, Attempts, AdmittedIn;
    AttemptsWithinBudget(times, a);
    BudgetBounds(Attempts(times).0, WINDOW_MS, MAX_ATTEMPTS_PER_EMAIL, a, AdmittedIn(times, Attempts(times).1, a, WINDOW_MS));
  }

  /** Nine are possible: four late in one window and five early in the next. */
  lemma NineAttemptsInAMinute()
    ensures var times := [0] + seq(4, i => 59999) + seq(5, i => 60000);
            Sorted(times) && AdmittedIn(times, Attempts(times).1, 1, WINDOW_MS) == 9
  {
    hide Attempts, AdmittedIn;
    var none: seq<nat> := [];
    assert Attempts(none) == (None, []) && AdmittedIn(none, [], 1, WINDOW_MS) == 0 by { StartOfTrace(); }
    AttemptsSnoc(none, 0);
    assert none + [0] == [0];
    AttemptsAtOnce([0], 59999, 4);
    var t5 := [0] + seq(4, i => 59999);
    AttemptsSnoc(t5, 60000);
    AttemptsAtOnce(t5 + [60000], 60000, 4);
    assert t5 + [60000] + seq(4, i => 60000) == [0] + seq(4, i => 59999) + seq(5, i => 60000);
  }

  lemma StartOfTrace()
    ensures Attempts([]) == (None, []) && forall a: nat :: AdmittedIn([], [], a, WINDOW_MS) == 0
  {
  }

  /** k attempts at one instant inside a window with room for them. */
  lemma {:induction false} AttemptsAtOnce(times: seq<nat>, now: nat, k: nat)
    requires var c := Attempts(times).0;
             c.Some? && c.value.hits >= 1 && c.value.hits + k <= MAX_ATTEMPTS_PER_EMAIL && c.value.expiresAt.Some? && now < c.value.expiresAt.value
    ensures var (c, c') := (Attempts(times).0, Attempts(times + seq(k, i => now)).0);
            c' == Some(c.value.(hits := c.value.hits + k))
    ensures forall a: nat | a <= now < a + WINDOW_MS ::
              AdmittedIn(times + seq(k, i => now), Attempts(times + seq(k, i => now)).1, a, WINDOW_MS) ==
              AdmittedIn(times, Attempts(times).1, a, WINDOW_MS) + k
  {
    hide Attempts, AdmittedIn;
    if k == 0 {
      assert times + seq(k, i => now) == times;
    } else {
      AttemptsAtOnce(times, now, k - 1);
      AttemptsSnoc(times + seq(k - 1, i => now), now);
      assert times + seq(k - 1, i => now) + [now] == times + seq(k, i => now);
    }
  }

  lemma AttemptsSnoc(times: seq<nat>, now: nat)
    ensures var (c, admitted) := Attempts(times);
            && Attempts(times + [now]) == (Some(Attempt(c, now).0), admitted + [Attempt(c, now).1])
            && forall a: nat :: AdmittedIn(times + [now], Attempts(times + [now]).1, a, WINDOW_MS) ==
                           AdmittedIn(times, admitted, a, WINDOW_MS) + if Attempt(c, now).1 && a <= now < a + WINDOW_MS then 1 else 0
  {
    assert (times + [now])[..|times|] == times;
    var (c, admitted) := Attempts(times);
    assert (admitted + [Attempt(c, now).1])[..|times|] == admitted;
  }

  /** One window admits exactly its first five attempts, and no attempt moves its end, so an attempt at or after the end is admitted. */
  lemma {:induction false} WindowAdmitsItsFirstFive(c: Counter, times: seq<nat>, end: nat)
    requires c.expiresAt == Some(end) && c.hits >= 1
    requires forall i :: 0 <= i < |times| ==> times[i] < end
    ensures var last := AfterAttempts(c, times);
            && last == Counter(c.hits + |times|, Some(end))
            && (forall now: nat :: now < end ==> (Attempt(Some(last), now).1 <==> c.hits + |times| < MAX_ATTEMPTS_PER_EMAIL))
            && (forall now: nat :: end <= now ==> Attempt(Some(last), now) == (Counter(1, Some(now + WINDOW_MS)), true))
    decreases |times|
  {
    if times != [] { WindowAdmitsItsFirstFive(Attempt(Some(c), times[0]).0, times[1..], end); }
  }

  function AfterAttempts(c: Counter, times: seq<nat>): Counter
    decreases |times|
  {
    if times == [] then c else AfterAttempts(Attempt(Some(c), times[0]).0, times[1..])
  }

  /** A counter whose expiry was never set is never given one: after five hits the email is refused for good, whatever the times. */
  lemma {:induction false} LostExpiryLocksTheEmail(hits: nat, times: seq<nat>)
    requires hits >= MAX_ATTEMPTS_PER_EMAIL
    ensures AfterAttempts(Counter(hits, None), times) == Counter(hits + |times|, None)
    ensures forall now: nat :: !Attempt(Some(AfterAttempts(Counter(hits, None), times)), now).1
    decreases |times|
  {
    if times != [] { LostExpiryLocksTheEmail(hits + 1, times[1..]); }
  }

  // ----- the throttler storage -----

  datatype Bucket = Bucket(counter: Option<Counter>, blockedUntil: Option<nat>)

  datatype Record = Record(totalHits: nat, timeToExpire: nat, isBlocked: bool, timeToBlockExpire: nat)

  predicate Blocked(b: Bucket, now: nat) {
    b.blockedUntil.Some? && now < b.blockedUntil.value
  }

  function CeilSeconds(ms: nat): nat {
    (ms + 999) / 1000
  }

  /** `SET ... EX blockDuration`: the block lasts that many seconds, while `ttl` counts milliseconds. */
  function Increment(b: Bucket, now: nat, ttl: nat, limit: nat, blockDuration: nat): (Bucket, Record) {
    if Blocked(b, now) then (b, Record(limit + 1, 0, true, CeilSeconds(b.blockedUntil.value - now))) else
    var n := Incr(b.counter, now);
    var armed := if n.expiresAt.None? then n.(expiresAt := Some(now + ttl)) else n;
    var left := if armed.expiresAt.value >= now then armed.expiresAt.value - now else 0;
    if armed.hits > limit && blockDuration > 0
    then (Bucket(Some(armed), Some(now + blockDuration * 1000)), Record(armed.hits, CeilSeconds(left), true, blockDuration))
    else (Bucket(Some(armed), None), Record(armed.hits, CeilSeconds(left), false, 0))
  }

  /** The least number of whole seconds that covers so many milliseconds. */
  predicate WholeSeconds(s: nat, ms: nat) {
    ms <= 1000 * s && (s > 0 ==> 1000 * (s - 1) < ms)
  }

  /**
   What the storage answers and keeps, for every bucket. Under a block it answers one more than the limit and changes nothing. Else
   the hit is counted in the open window, or opens one of `ttl` milliseconds, and goes over the limit into a block, if there is one,
   of `blockDuration` seconds.
   */
  lemma RecordIs(b: Bucket, now: nat, ttl: nat, limit: nat, blockDuration: nat)
    ensures var (b', r) := Increment(b, now, ttl, limit, blockDuration);
            var blocked := b.blockedUntil.Some? && now < b.blockedUntil.value;
            var open := b.counter.Some? && (b.counter.value.expiresAt.None? || now < b.counter.value.expiresAt.value);
            var hits := if open then b.counter.value.hits + 1 else 1;
            var end := if open && b.counter.value.expiresAt.Some? then b.counter.value.expiresAt.value else now + ttl;
            if blocked then
              b' == b && r.isBlocked && r.totalHits == limit + 1 && r.timeToExpire == 0 && WholeSeconds(r.timeToBlockExpire, b.blockedUntil.value - now)
            else
              var over := hits > limit && blockDuration > 0;
              && b' == Bucket(Some(Counter(hits, Some(end))), if over then Some(now + 1000 * blockDuration) else None)
              && end >= now && WholeSeconds(r.timeToExpire, end - now)
              && r.totalHits == hits && r.isBlocked == over && r.timeToBlockExpire == if over then blockDuration else 0
  {
    assert forall ms: nat :: WholeSeconds(CeilSeconds(ms), ms);
  }

  function Increments(times: seq<nat>, ttl: nat, limit: nat, blockDuration: nat): (r: (Bucket, seq<bool>))
    ensures |r.1| == |times|
  {
    if times == [] then (Bucket(None, None), [])
    else
      var (b, unblocked) := Increments(times[..|times| - 1], ttl, limit, blockDuration);
      var (b', record) := Increment(b, times[|times| - 1], ttl, limit, blockDuration);
      (b', unblocked + [!record.isBlocked])
  }

  lemma {:induction false} IncrementsWithinBudget(times: seq<nat>, ttl: nat, limit: nat, blockDuration: nat, a: nat)
    requires Sorted(times) && ttl > 0 && blockDuration > 0
    ensures var (b, unblocked) := Increments(times, ttl, limit, blockDuration);
            && Budget(b.counter, ttl, limit, a, AdmittedIn(times, unblocked, a, ttl))
            && (times != [] ==> b.counter.Some? && b.counter.value.expiresAt.value <= times[|times| - 1] + ttl)
  {
    if times == [] {
    } else {
      var init, now := times[..|times| - 1], times[|times| - 1];
      IncrementsWithinBudget(init, ttl, limit, blockDuration, a);
      var (b, unblocked) := Increments(init, ttl, limit, blockDuration);
      if init != [] { assert init[|init| - 1] <= now; }
      assert Increments(times, ttl, limit, blockDuration).1[..|init|] == unblocked;
      if AdmittedIn(init, unblocked, a, ttl) > 0 { AdmittedAreNotEarly(init, unblocked, a, ttl); }
      if !Blocked(b, now) {
        BudgetStep(b.counter, now, ttl, limit, a, AdmittedIn(init, unblocked, a, ttl), !Increment(b, now, ttl, limit, blockDuration).1.isBlocked);
      }
    }
  }

  /** k requests at time 0 against a limit that never blocks. */
  lemma {:induction false} NeverBlocks(k: nat, ttl: nat, limit: nat)
    requires ttl > 0
    ensures var times := seq(k, i => 0);
            && Increments(times, ttl, limit, 0).0.blockedUntil.None?
            && AdmittedIn(times, Increments(times, ttl, limit, 0).1, 0, ttl) == k
  {
    var times := seq(k, i => 0);
    if k > 0 {
      NeverBlocks(k - 1, ttl, limit);
      assert times[..k - 1] == seq(k - 1, i => 0);
      assert Increments(times, ttl, limit, 0).1[..k - 1] == Increments(times[..k - 1], ttl, limit, 0).1;
    }
  }

  /**
   Any interval of one ttl lets through at most 2 * limit - 1 requests, for every trace, if and only if the
   block duration is positive; with a zero duration the storage never refuses anything.
   */
  lemma UnblockedBoundIffBlocking(ttl: nat, limit: nat, blockDuration: nat)
    requires ttl > 0 && limit > 0
    ensures (forall times, a: nat :: Sorted(times) ==> AdmittedIn(times, Increments(times, ttl, limit, blockDuration).1, a, ttl) <= 2 * limit - 1)
            <==> blockDuration > 0
  {
    hide Budget, Increments, AdmittedIn;
    if blockDuration > 0 {
      forall times, a: nat | Sorted(times)
        ensures AdmittedIn(times, Increments(times, ttl, limit, blockDuration).1, a, ttl) <= 2 * limit - 1
      {
        var (b, unblocked) := Increments(times, ttl, limit, blockDuration);
        IncrementsWithinBudget(times, ttl, limit, blockDuration, a);
        BudgetBounds(b.counter, ttl, limit, a, AdmittedIn(times, unblocked, a, ttl));
      }
    } else {
      var times := seq(2 * limit, i => 0);
      NeverBlocks(2 * limit, ttl, limit);
      assert Sorted(times);
      assert AdmittedIn(times, Increments(times, ttl, limit, blockDuration).1, 0, ttl) == 2 * limit;
    }
  }

  /** A block started at time t refuses everything for blockDuration seconds, leaves the counter alone, and refuses nothing later on its own. */
  lemma BlockLastsSeconds(b: Bucket, t: nat, now: nat, ttl: nat, limit: nat, blockDuration: nat)
    requires !Blocked(b, t) && Increment(b, t, ttl, limit, blockDuration).1.isBlocked
    ensures var b' := Increment(b, t, ttl, limit, blockDuration).0;
            && (Blocked(b', now) <==> now < t + blockDuration * 1000)
            && (now < t + blockDuration * 1000 ==>
                  Increment(b', now, ttl, limit, blockDuration).0 == b' && Increment(b', now, ttl, limit, blockDuration).1.isBlocked)
  {
  }

  /** A counter that lost its expiry gets one on its next unblocked increment. */
  lemma LostExpiryIsRearmed(hits: nat, now: nat, ttl: nat, limit: nat, blockDuration: nat)
    ensures var (b, record) := Increment(Bucket(Some(Counter(hits, None)), None), now, ttl, limit, blockDuration);
            b.counter == Some(Counter(hits + 1, Some(now + ttl))) && record.totalHits == hits + 1
  {
  }

  // ----- the storage and the guard over one key space -----

  class RedisThrottlerStorage {
    var counters: map<string, Counter>
    var blocks: map<string, nat>

    constructor ()
      ensures counters == map[] && blocks == map[]
    {
      counters, blocks := map[], map[];
    }

    function BucketOf(name: string, key: string): Bucket
      reads this
    {
      var k := "throttle:" + name + ":" + key;
      var bk := "throttle:block:" + name + ":" + key;
      Bucket(if k in counters then Some(counters[k]) else None, if bk in blocks then Some(blocks[bk]) else None)
    }

    method IncrementKey(key: string, ttl: nat, limit: nat, blockDuration: nat, throttlerName: string, now: nat) returns (record: Record)
      modifies this
      ensures (var (b, r) := Increment(old(BucketOf(throttlerName, key)), now, ttl, limit, blockDuration);
               r == record && b.counter == BucketOf(throttlerName, key).counter
               && (Blocked(b, now) <==> Blocked(BucketOf(throttlerName, key), now))
               && (record.isBlocked ==> b == BucketOf(throttlerName, key)))
      ensures forall k :: k != "throttle:" + throttlerName + ":" + key ==>
                            (k in counters <==> k in old(counters)) && (k in counters ==> counters[k] == old(counters)[k])
      ensures forall k :: k != "throttle:block:" + throttlerName + ":" + key ==>
                            (k in blocks <==> k in old(blocks)) && (k in blocks ==> blocks[k] == old(blocks)[k])
    {
      var storageKey := "throttle:" + throttlerName + ":" + key;
      var blockKey := "throttle:block:" + throttlerName + ":" + key;
      if blockKey in blocks && now < blocks[blockKey] {
        return Record(limit + 1, 0, true, CeilSeconds(blocks[blockKey] - now));
      }
      var n := Incr(if storageKey in counters then Some(counters[storageKey]) else None, now);
      counters := counters[storageKey := n];
      var pttl := if n.expiresAt.Some? && n.expiresAt.value >= now then n.expiresAt.value - now else 0;
      if n.expiresAt.None? {
        counters := counters[storageKey := n.(expiresAt := Some(now + ttl))];
        pttl := ttl;
      }
      if n.hits > limit && blockDuration > 0 {
        blocks := blocks[blockKey := now + blockDuration * 1000];
        return Record(n.hits, CeilSeconds(pttl), true, blockDuration);
      }
      record := Record(n.hits, CeilSeconds(pttl), false, 0);
    }
  }

  class EmailLoginThrottleGuard {
    var counters: map<string, Counter>

    constructor ()
      ensures counters == map[]
    {
      counters := map[];
    }

    /** `email` is already trimmed and lower-cased; a request without one is let through to its own validation. */
    method CanActivate(email: Option<string>, now: nat, loadTestMode: bool) returns (admitted: bool)
      modifies this
      ensures loadTestMode || email.None? || email.value == "" ==> admitted && counters == old(counters)
      ensures !loadTestMode && email.Some? && email.value != "" ==>
                var key := "throttle:login-email:" + email.value;
                var (c, ok) := Attempt(if key in old(counters) then Some(old(counters)[key]) else None, now);
                admitted == ok && counters == old(counters)[key := c]
      ensures !loadTestMode && email.Some? && email.value != "" ==>
                var key := "throttle:login-email:" + email.value;
                var open := key in old(counters) && (old(counters)[key].expiresAt.None? || now < old(counters)[key].expiresAt.value);
                admitted <==> !open || old(counters)[key].hits < 5
    {
      if loadTestMode { return true; }
      if email.None? || email.value == "" { return true; }
      var key := "throttle:login-email:" + email.value;
      var n := Incr(if key in counters then Some(counters[key]) else None, now);
      counters := counters[key := n];
      if n.hits == 1 { counters := counters[key := n.(expiresAt := Some(now + WINDOW_MS))]; }
      admitted := n.hits <= MAX_ATTEMPTS_PER_EMAIL;
    }
  }
}
