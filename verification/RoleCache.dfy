/**
 The permission service with its cache, one request at a time: after every run of reads, admin writes and
 expiries, and whichever queries and deletions of entries fail, an entry is right exactly when the failures of
 the read that filled it were excusable and every write since has either dropped it or agreed with it.
 */
module RoleCache {
  import opened Options
  import opened Strings
  import opened Permissions
  import opened FailedQueries

  // ----- cache keys -----

  function CacheKey(role: string, tenant: Option<Uuid>): string {
    if tenant.Some? then "permissions:tenant:" + tenant.value + ":role:" + role else "permissions:role:" + role
  }

  function UserCacheKey(user: Uuid, tenant: Option<Uuid>): string {
    if tenant.Some? then "permissions:user:" + user + ":tenant:" + tenant.value else "permissions:user:" + user
  }

  /** A text without the separator, followed by it, can be read back from the front. */
  lemma PrefixUpToColon(a: string, b: string, x: string, y: string)
    requires ':' !in a && ':' !in b && a + ":" + x == b + ":" + y
    ensures a == b && x == y
  {
    var s := a + ":" + x;
    assert s[|a|] == ':' && s[|b|] == ':';
    assert forall i :: 0 <= i < |a| ==> s[i] == a[i] != ':';
    assert forall i :: 0 <= i < |b| ==> s[i] == b[i] != ':';
    assert a == s[..|a|] && b == s[..|b|];
    assert x == s[|a| + 1..] && y == s[|b| + 1..];
  }

  /** No two (role, tenant) pairs share an entry: two tenants never see each other's grants through the cache. */
  lemma CacheKeyInjective(role: string, tenant: Option<Uuid>, role': string, tenant': Option<Uuid>)
    requires CacheKey(role, tenant) == CacheKey(role', tenant')
    ensures role == role' && tenant == tenant'
  {
    var a, b := CacheKey(role, tenant), CacheKey(role', tenant');
    if tenant.Some? && tenant'.Some? {
      var p := |"permissions:tenant:"|;
      assert a[p..] == tenant.value + ":" + ("role:" + role);
      assert b[p..] == tenant'.value + ":" + ("role:" + role');
      PrefixUpToColon(tenant.value, tenant'.value, "role:" + role, "role:" + role');
      assert role == ("role:" + role)[5..] == ("role:" + role')[5..] == role';
    } else {
      assert a[12] == b[12];
      assert role == a[|"permissions:role:"|..] && role' == b[|"permissions:role:"|..];
    }
  }

  /** The two namespaces never meet. */
  lemma UserAndRoleKeysDisjoint(role: string, tenant: Option<Uuid>, user: Uuid, tenant': Option<Uuid>)
    ensures CacheKey(role, tenant) != UserCacheKey(user, tenant')
  {
    assert CacheKey(role, tenant)[12] != UserCacheKey(user, tenant')[12];
  }

  // ----- runs of whole requests -----

  datatype Service = Service(db: Rbac, cache: map<string, set<string>>)

  datatype Op =
    | Admin(op: AdminOp, dropped: bool)
    | Read(role: string, tenant: Option<Uuid>, faults: Faults)
    | Expire(role: string, tenant: Option<Uuid>)

  /** Every entry is a fresh resolution of the tables, except exactly those in doubt. */
  ghost predicate Coherent(s: Service, doubted: set<string>) {
    && DbOk(s.db)
    && forall role, tenant :: CacheKey(role, tenant) in s.cache ==>
         (Resolves(s.db, role, tenant, s.cache[CacheKey(role, tenant)]) <==> CacheKey(role, tenant) !in doubted)
  }

  /** A write drops its target's entry, if the deletion works, except that creating a role and a role's deletion that fails half-way drop none. */
  predicate Drops(op: AdminOp, dropped: bool) {
    dropped && !op.CreateRole? && (op.DeleteRole? ==> op.whole)
  }

  ghost function AfterAdmin(s: Service, op: AdminOp, dropped: bool): Service {
    if !Verdict(s.db, op).Done? then s
    else Service(Apply(s.db, op), if Drops(op, dropped) then s.cache - {TargetKey(s.db, op)} else s.cache)
  }

  /** Only the entry of the role's own name and tenant goes, and only after an accepted write that reaches its deletion, if that works. */
  lemma EntriesAfter(s: Service, op: AdminOp, dropped: bool)
    ensures var cache := AfterAdmin(s, op, dropped).cache;
            if dropped && Verdict(s.db, op).Done? && !op.CreateRole? && (op.DeleteRole? ==> op.whole)
            then cache == s.cache - {"permissions:tenant:" + op.tenant + ":role:" + s.db.roles[op.roleId].name}
            else cache == s.cache
  {
  }

  ghost function TargetKey(db: Rbac, op: AdminOp): string
    requires op.CreateRole? || op.roleId in db.roles
  {
    CacheKey(Target(db, op).0, Some(Target(db, op).1))
  }

  /** A hit serves the entry, a miss resolves the tables as the queries show them and fills it. */
  ghost predicate Step(s: Service, op: Op, s': Service) {
    match op
    case Admin(a, dropped) => Possible(s.db, a) && s' == AfterAdmin(s, a, dropped)
    case Read(role, tenant, faults) =>
      if CacheKey(role, tenant) in s.cache then s' == s
      else exists keys :: Resolves(Seen(s.db, faults), role, tenant, keys) && s' == s.(cache := s.cache[CacheKey(role, tenant) := keys])
    case Expire(role, tenant) => s' == s.(cache := s.cache - {CacheKey(role, tenant)})
  }

  /**
   An entry comes into doubt by a filling with failures that are not excusable, or by a write that changes what it holds
   and leaves it in the cache; it stays in doubt until it is dropped or filled anew, or the tables come to agree with it.
   */
  ghost function DoubtedAfter(s: Service, doubted: set<string>, op: Op): set<string> {
    match op
    case Admin(a, dropped) =>
      if !LeavesEntry(s, a, dropped) then doubted
      else if EntryStaysRight(s, doubted, a) then doubted - {TargetKey(s.db, a)}
      else doubted + {TargetKey(s.db, a)}
    case Read(role, tenant, faults) =>
      if CacheKey(role, tenant) in s.cache then doubted
      else if Excusable(s.db, role, tenant, faults) then doubted - {CacheKey(role, tenant)}
      else doubted + {CacheKey(role, tenant)}
    case Expire(role, tenant) => doubted
  }

  /** An accepted write leaves the entry of its target where it is. */
  ghost predicate LeavesEntry(s: Service, op: AdminOp, dropped: bool) {
    Verdict(s.db, op).Done? && !op.CreateRole? && !Drops(op, dropped) && TargetKey(s.db, op) in s.cache
  }

  ghost predicate EntryStaysRight(s: Service, doubted: set<string>, op: AdminOp)
    requires Verdict(s.db, op).Done? && !op.CreateRole? && TargetKey(s.db, op) in s.cache
  {
    var keys := s.cache[TargetKey(s.db, op)];
    if TargetKey(s.db, op) in doubted then Resolves(Apply(s.db, op), Target(s.db, op).0, Some(op.tenant), keys) else KeepsEntry(s.db, op, keys)
  }

  lemma AdminKeepsCoherent(s: Service, doubted: set<string>, op: AdminOp, dropped: bool)
    requires Coherent(s, doubted) && Possible(s.db, op)
    ensures Coherent(AfterAdmin(s, op, dropped), DoubtedAfter(s, doubted, Admin(op, dropped)))
  {
    hide CacheKey, Granted, DbOk, Apply, KeepsEntry;
    var s' := AfterAdmin(s, op, dropped);
    ApplyKeepsDbOk(s.db, op);
    if Verdict(s.db, op).Done? {
      forall role, tenant | CacheKey(role, tenant) in s'.cache
        ensures Resolves(s'.db, role, tenant, s'.cache[CacheKey(role, tenant)]) <==>
                  CacheKey(role, tenant) !in DoubtedAfter(s, doubted, Admin(op, dropped))
      {
        if !op.CreateRole? && CacheKey(role, tenant) == TargetKey(s.db, op) {
          CacheKeyInjective(role, tenant, Target(s.db, op).0, Some(Target(s.db, op).1));
          if CacheKey(role, tenant) !in doubted { KeptEntryIsRightIff(s.db, op, s.cache[CacheKey(role, tenant)]); }
        } else {
          forall k ensures Granted(s'.db, role, tenant, k) <==> Granted(s.db, role, tenant, k) {
            OnlyTargetChanges(s.db, op, role, tenant, k);
          }
        }
      }
    }
  }

  lemma StepKeepsCoherent(s: Service, doubted: set<string>, op: Op, s': Service)
    requires Coherent(s, doubted) && Step(s, op, s')
    ensures Coherent(s', DoubtedAfter(s, doubted, op))
  {
    hide CacheKey, Resolves, DbOk, AfterAdmin, Excusable, Seen, LeavesEntry, EntryStaysRight;
    if op.Admin? {
      AdminKeepsCoherent(s, doubted, op.op, op.dropped);
    } else if op.Read? && CacheKey(op.role, op.tenant) !in s.cache {
      var key := CacheKey(op.role, op.tenant);
      AnswerIsRightIff(s.db, op.role, op.tenant, op.faults, s'.cache[key]);
      forall role, tenant | CacheKey(role, tenant) in s'.cache
        ensures Resolves(s'.db, role, tenant, s'.cache[CacheKey(role, tenant)]) <==> CacheKey(role, tenant) !in DoubtedAfter(s, doubted, op)
      {
        if CacheKey(role, tenant) == key { CacheKeyInjective(role, tenant, op.role, op.tenant); }
      }
    }
  }

  ghost predicate IsRun(states: seq<Service>, ops: seq<Op>) {
    |states| == |ops| + 1 && forall i :: 0 <= i < |ops| ==> Step(states[i], ops[i], states[i + 1])
  }

  /** The entries in doubt after the first n operations of a run that begins with none. */
  ghost function Doubted(states: seq<Service>, ops: seq<Op>, n: nat): set<string>
    requires n <= |ops| && |states| == |ops| + 1
  {
    if n == 0 then {} else DoubtedAfter(states[n - 1], Doubted(states, ops, n - 1), ops[n - 1])
  }

  /**
   In every state of every run, whichever queries and deletions of entries fail, an entry is exactly a fresh resolution of
   the current tables if and only if it is not in doubt.
   */
  lemma {:induction false} EveryRunStaysCoherent(states: seq<Service>, ops: seq<Op>, n: nat)
    requires IsRun(states, ops) && Coherent(states[0], {}) && n < |states|
    ensures Coherent(states[n], Doubted(states, ops, n))
  {
    hide Coherent, Step, DoubtedAfter;
    if n > 0 {
      EveryRunStaysCoherent(states, ops, n - 1);
      StepKeepsCoherent(states[n - 1], Doubted(states, ops, n - 1), ops[n - 1], states[n]);
    }
  }

  /** While every failed query is excusable and every deletion works, nothing is ever in doubt. */
  lemma {:induction false} NoDoubts(states: seq<Service>, ops: seq<Op>, n: nat)
    requires n <= |ops| && |states| == |ops| + 1
    requires forall i :: 0 <= i < n && ops[i].Read? ==> Excusable(states[i].db, ops[i].role, ops[i].tenant, ops[i].faults)
    requires forall i :: 0 <= i < n && ops[i].Admin? ==> ops[i].dropped && (ops[i].op.DeleteRole? ==> ops[i].op.whole)
    ensures Doubted(states, ops, n) == {}
  {
    hide Excusable, EntryStaysRight;
    if n > 0 { NoDoubts(states, ops, n - 1); }
  }
}
