/**
 The cache of merged user permissions, per user and tenant: which entries are right in every run of override
 writes, reads and expiries, and the service that keeps it.
 */
module UserCache {
  import opened Options
  import opened Permissions
  import opened FailedQueries
  import opened RoleCache
  import opened PermissionService
  import opened UserOverrides

  // ----- entries -----

  lemma UserCacheKeyInjective(a: Uuid, t: Option<Uuid>, b: Uuid, u: Option<Uuid>)
    requires UserCacheKey(a, t) == UserCacheKey(b, u)
    ensures a == b && t == u
  {
    var p := |"permissions:user:"|;
    assert UserCacheKey(a, t)[p..] + ":" == a + ":" + KeyRest(t);
    assert UserCacheKey(b, u)[p..] + ":" == b + ":" + KeyRest(u);
    PrefixUpToColon(a, b, KeyRest(t), KeyRest(u));
    if t.Some? && u.Some? {
      assert t.value == KeyRest(t)[7..7 + |t.value|] == KeyRest(u)[7..7 + |u.value|] == u.value;
    }
  }

  function KeyRest(tenant: Option<Uuid>): string {
    if tenant.Some? then "tenant:" + tenant.value + ":" else ""
  }

  function RolesOf(userRoles: map<Uuid, seq<string>>, user: Uuid): seq<string> {
    if user in userRoles then userRoles[user] else []
  }

  /** The entry of this user and tenant, if there is one, is what a fresh merge would give. */
  ghost predicate EntryRight(db: Rbac, userRoles: map<Uuid, seq<string>>, rows: seq<UserRow>, cache: map<string, set<string>>,
                             user: Uuid, tenant: Option<Uuid>)
  {
    UserCacheKey(user, tenant) in cache ==> Fresh(db, RolesOf(userRoles, user), rows, user, tenant, cache[UserCacheKey(user, tenant)])
  }

  // ----- runs -----

  datatype UserState = UserState(rows: seq<UserRow>, cache: map<string, set<string>>)

  datatype UserOp =
    | WriteOverride(op: OverrideOp, tenant: Option<Uuid>, dropped: bool)
    | ReadUser(user: Uuid, tenant: Option<Uuid>, roles: seq<string>, met: seq<Faults>, lost: bool)
    | ExpireUser(user: Uuid, tenant: Option<Uuid>)

  /** A write drops the entry it names, if the deletion works; a hit serves the entry; a miss merges what the queries show and fills it. */
  ghost predicate UserStep(db: Rbac, s: UserState, op: UserOp, s': UserState) {
    match op
    case WriteOverride(write, tenant, dropped) =>
      s' == UserState(AfterWrite(s.rows, write), if dropped then s.cache - {UserCacheKey(write.user, tenant)} else s.cache)
    case ReadUser(user, tenant, roles, met, lost) =>
      var key := UserCacheKey(user, tenant);
      if key in s.cache then s' == s
      else
        && key in s'.cache && s' == s.(cache := s.cache[key := s'.cache[key]])
        && forall k :: k in s'.cache[key] <==> UserSeen(db, roles, met, lost, s.rows, user, tenant, k)
    case ExpireUser(user, tenant) => s' == s.(cache := s.cache - {UserCacheKey(user, tenant)})
  }

  /** Every entry is a fresh merge, except exactly those in doubt. */
  ghost predicate UserCoherent(db: Rbac, held: map<Uuid, seq<string>>, s: UserState, doubted: iset<(Uuid, Option<Uuid>)>) {
    && UniqueActive(s.rows)
    && forall u, t :: UserCacheKey(u, t) in s.cache ==>
         (Fresh(db, RolesOf(held, u), s.rows, u, t, s.cache[UserCacheKey(u, t)]) <==> (u, t) !in doubted)
  }

  /** What a write does to an entry that it leaves: a right one must already have what the write decides, a wrong one must come to agree. */
  ghost predicate StaysRight(db: Rbac, held: map<Uuid, seq<string>>, s: UserState, doubted: iset<(Uuid, Option<Uuid>)>, op: OverrideOp, t: Option<Uuid>)
    requires UserCacheKey(op.user, t) in s.cache
  {
    var keys := s.cache[UserCacheKey(op.user, t)];
    if (op.user, t) in doubted then Fresh(db, RolesOf(held, op.user), AfterWrite(s.rows, op), op.user, t, keys)
    else AlreadyHas(db, RolesOf(held, op.user), op, t, keys)
  }

  ghost function UserDoubtedAfter(db: Rbac, held: map<Uuid, seq<string>>, s: UserState, doubted: iset<(Uuid, Option<Uuid>)>, op: UserOp)
    : iset<(Uuid, Option<Uuid>)>
  {
    match op
    case WriteOverride(write, _, _) =>
      iset e: (Uuid, Option<Uuid>) |
        if e.0 == write.user && UserCacheKey(e.0, e.1) in s.cache then !StaysRight(db, held, s, doubted, write, e.1) else e in doubted
    case ReadUser(user, tenant, roles, met, lost) =>
      if UserCacheKey(user, tenant) in s.cache then doubted
      else if MergeExcusable(db, RolesOf(held, user), roles, met, lost, s.rows, user, tenant) then doubted - iset{(user, tenant)}
      else doubted + iset{(user, tenant)}
    case ExpireUser(_, _) => doubted
  }

  lemma WriteKeepsUserCoherent(db: Rbac, held: map<Uuid, seq<string>>, s: UserState, doubted: iset<(Uuid, Option<Uuid>)>, op: UserOp, s': UserState)
    requires UserCoherent(db, held, s, doubted) && op.WriteOverride? && UserStep(db, s, op, s')
    ensures UserCoherent(db, held, s', UserDoubtedAfter(db, held, s, doubted, op))
  {
    hide UserCacheKey, AfterWrite, UserGranted, AlreadyHas, Has, UniqueActive;
    WriteKeepsHistory(s.rows, op.op);
    forall u, t | UserCacheKey(u, t) in s'.cache
      ensures Fresh(db, RolesOf(held, u), s'.rows, u, t, s'.cache[UserCacheKey(u, t)]) <==>
                (u, t) !in UserDoubtedAfter(db, held, s, doubted, op)
    {
      if u != op.op.user {
        OthersAreGrantedTheSame(db, RolesOf(held, u), s.rows, op.op, u, t);
      } else if (u, t) !in doubted {
        WriteLeavesOtherTenantsEntry(db, RolesOf(held, u), s.rows, op.op, t, s.cache[UserCacheKey(u, t)]);
      }
    }
  }

  lemma OthersAreGrantedTheSame(db: Rbac, roles: seq<string>, rows: seq<UserRow>, op: OverrideOp, user: Uuid, tenant: Option<Uuid>)
    requires user != op.user
    ensures forall k :: UserGranted(db, roles, AfterWrite(rows, op), user, tenant, k) <==> UserGranted(db, roles, rows, user, tenant, k)
  {
    hide AfterWrite, Has, SomeRoleGrants;
    forall k ensures UserGranted(db, roles, AfterWrite(rows, op), user, tenant, k) <==> UserGranted(db, roles, rows, user, tenant, k) {
      WriteDecidesItsKeys(rows, op, user, k, Grant);
      WriteDecidesItsKeys(rows, op, user, k, Deny);
    }
  }

  lemma ReadKeepsUserCoherent(db: Rbac, held: map<Uuid, seq<string>>, s: UserState, doubted: iset<(Uuid, Option<Uuid>)>, op: UserOp, s': UserState)
    requires UserCoherent(db, held, s, doubted) && op.ReadUser? && UserStep(db, s, op, s')
    ensures UserCoherent(db, held, s', UserDoubtedAfter(db, held, s, doubted, op))
  {
    hide UserCacheKey, UserSeen, Fresh, MergeExcusable, UniqueActive;
    var key := UserCacheKey(op.user, op.tenant);
    if key !in s.cache {
      MergeIsRightIff(db, RolesOf(held, op.user), op.roles, op.met, op.lost, s.rows, op.user, op.tenant, s'.cache[key]);
      forall u, t | UserCacheKey(u, t) in s'.cache
        ensures Fresh(db, RolesOf(held, u), s'.rows, u, t, s'.cache[UserCacheKey(u, t)]) <==>
                  (u, t) !in UserDoubtedAfter(db, held, s, doubted, op)
      {
        if UserCacheKey(u, t) == key { UserCacheKeyInjective(u, t, op.user, op.tenant); }
      }
    }
  }

  lemma UserStepKeepsCoherent(db: Rbac, held: map<Uuid, seq<string>>, s: UserState, doubted: iset<(Uuid, Option<Uuid>)>, op: UserOp, s': UserState)
    requires UserCoherent(db, held, s, doubted) && UserStep(db, s, op, s')
    ensures UserCoherent(db, held, s', UserDoubtedAfter(db, held, s, doubted, op))
  {
    if op.WriteOverride? {
      WriteKeepsUserCoherent(db, held, s, doubted, op, s');
    } else if op.ReadUser? {
      ReadKeepsUserCoherent(db, held, s, doubted, op, s');
    } else {
      hide UserCacheKey, Fresh, UniqueActive;
    }
  }

  ghost predicate IsUserRun(db: Rbac, states: seq<UserState>, ops: seq<UserOp>) {
    |states| == |ops| + 1 && forall i :: 0 <= i < |ops| ==> UserStep(db, states[i], ops[i], states[i + 1])
  }

  ghost function UserDoubted(db: Rbac, held: map<Uuid, seq<string>>, states: seq<UserState>, ops: seq<UserOp>, n: nat): iset<(Uuid, Option<Uuid>)>
    requires n <= |ops| && |states| == |ops| + 1
  {
    if n == 0 then iset{} else UserDoubtedAfter(db, held, states[n - 1], UserDoubted(db, held, states, ops, n - 1), ops[n - 1])
  }

  /**
   With the roles and their grants fixed, in every state of every run of override writes, reads and expiries, whichever
   queries and deletions of entries fail, an entry is exactly a fresh merge if and only if it is not in doubt.
   */
  lemma {:induction false} EveryUserRunStaysCoherent(db: Rbac, held: map<Uuid, seq<string>>, states: seq<UserState>, ops: seq<UserOp>, n: nat)
    requires IsUserRun(db, states, ops) && UserCoherent(db, held, states[0], iset{}) && n < |states|
    ensures UserCoherent(db, held, states[n], UserDoubted(db, held, states, ops, n))
  {
    hide UserCoherent, UserStep, UserDoubtedAfter;
    if n > 0 {
      EveryUserRunStaysCoherent(db, held, states, ops, n - 1);
      UserStepKeepsCoherent(db, held, states[n - 1], UserDoubted(db, held, states, ops, n - 1), ops[n - 1], states[n]);
    }
  }

  // ----- users with one tenant -----

  /** Only entries of each user's own tenant are cached. */
  ghost predicate HomeOnly(s: UserState, home: Uuid -> Option<Uuid>) {
    forall u, t :: UserCacheKey(u, t) in s.cache ==> t == home(u)
  }

  /** The operation names the user's own tenant, and nothing that fails in it matters. */
  ghost predicate AtHome(db: Rbac, held: map<Uuid, seq<string>>, s: UserState, op: UserOp, home: Uuid -> Option<Uuid>) {
    match op
    case WriteOverride(write, tenant, dropped) => tenant == home(write.user) && dropped
    case ReadUser(user, tenant, roles, met, lost) =>
      tenant == home(user) && MergeExcusable(db, RolesOf(held, user), roles, met, lost, s.rows, user, tenant)
    case ExpireUser(_, _) => true
  }

  lemma HomeStep(db: Rbac, held: map<Uuid, seq<string>>, s: UserState, op: UserOp, s': UserState, home: Uuid -> Option<Uuid>)
    requires UserCoherent(db, held, s, iset{}) && HomeOnly(s, home) && UserStep(db, s, op, s') && AtHome(db, held, s, op, home)
    ensures UserCoherent(db, held, s', iset{}) && HomeOnly(s', home)
  {
    UserStepKeepsCoherent(db, held, s, iset{}, op, s');
    hide UserCacheKey, Fresh, UniqueActive, MergeExcusable, StaysRight, UserSeen, AfterWrite;
    forall u, t | UserCacheKey(u, t) in s'.cache ensures t == home(u) && (u, t) !in UserDoubtedAfter(db, held, s, iset{}, op) {
      if op.ReadUser? && UserCacheKey(u, t) == UserCacheKey(op.user, op.tenant) { UserCacheKeyInjective(u, t, op.user, op.tenant); }
    }
  }

  /** When every user is read and written under one tenant, every deletion works and every failed query is excusable, every entry of every state is right. */
  lemma {:induction false} HomeEntriesStayRight(db: Rbac, held: map<Uuid, seq<string>>, states: seq<UserState>, ops: seq<UserOp>, home: Uuid -> Option<Uuid>, n: nat)
    requires IsUserRun(db, states, ops) && UserCoherent(db, held, states[0], iset{}) && HomeOnly(states[0], home) && n < |states|
    requires forall i :: 0 <= i < |ops| ==> AtHome(db, held, states[i], ops[i], home)
    ensures UserCoherent(db, held, states[n], iset{}) && HomeOnly(states[n], home)
  {
    hide UserCoherent, UserStep, HomeOnly, AtHome;
    if n > 0 {
      HomeEntriesStayRight(db, held, states, ops, home, n - 1);
      HomeStep(db, held, states[n - 1], ops[n - 1], states[n], home);
    }
  }

  // ----- the service -----

  /**
   The role tables and role assignments are fixed here: nothing in the source invalidates a user entry
   when they change. An entry belongs to a user and a tenant, and a write drops the entry of the tenant it names.
   */
  class UserPermissions {
    const permissions: PermissionsService
    const userRoles: map<Uuid, seq<string>>
    var rows: seq<UserRow>
    var cache: map<string, set<string>>

    constructor (permissions: PermissionsService, userRoles: map<Uuid, seq<string>>)
      requires permissions.Valid()
      ensures this.permissions == permissions && this.userRoles == userRoles
      ensures rows == [] && cache == map[] && Valid()
    {
      this.permissions, this.userRoles, this.rows, this.cache := permissions, userRoles, [], map[];
    }

    ghost predicate Valid()
      reads this, permissions
    {
      permissions.Valid() && UniqueActive(rows)
    }

    ghost function State(): UserState
      reads this
    {
      UserState(rows, cache)
    }

    /** The two loops of a cache miss: union over the roles, then the user's overrides. `met` is what failed of what was queried. */
    method MergeUserKeys(user: Uuid, roles: seq<string>, tenant: Option<Uuid>, faults: seq<Faults>, lost: bool)
      returns (merged: set<string>, ghost met: seq<Faults>)
      requires permissions.Valid() && UniqueActive(rows) && |faults| == |roles|
      modifies permissions`systemRoleIds
      ensures permissions.Valid() && |met| == |roles|
      ensures forall n :: 0 <= n < |roles| ==> met[n] == faults[n] || met[n] == faults[n].(system := false)
      ensures forall k :: k in merged <==> UserSeen(permissions.db, roles, met, lost, rows, user, tenant, k)
    {
      hide Granted, Coherent, UniqueActive, SomeRoleSeen, Seen, ActiveRows, Has;
      NoRoleSeen(permissions.db, tenant);
      merged, met := {}, [];
      for n := 0 to |roles|
        invariant permissions.Valid() && |met| == n
        invariant forall i :: 0 <= i < n ==> met[i] == faults[i] || met[i] == faults[i].(system := false)
        invariant forall k :: k in merged <==> SomeRoleSeen(permissions.db, roles[..n], met, tenant, k)
      {
        ghost var f := permissions.Met(roles[n], faults[n]);
        var keys := permissions.ResolveGrantedKeys(roles[n], tenant, faults[n]);
        OneMoreRole(permissions.db, roles, met, f, n, tenant);
        merged, met := merged + keys, met + [f];
      }
      assert roles[..|roles|] == roles;
      if lost { return; }
      ActiveRowsUnique(rows, user);
      ghost var union := merged;
      var active := ActiveRows(rows, user);
      merged := ApplyOverrides(merged, active);
      MergedIsSeen(permissions.db, roles, met, rows, user, tenant, active, union, merged);
    }

    /** A hit serves the entry as it is; a miss fills it, rightly if and only if what the failures lose does not matter. */
    method GetGrantedSetForUser(user: Uuid, roles: seq<string>, tenant: Option<Uuid>, faults: seq<Faults>, lost: bool)
      returns (merged: set<string>, ghost met: seq<Faults>)
      requires Valid() && |faults| == |roles|
      modifies this`cache, permissions`systemRoleIds
      ensures Valid() && cache == old(cache)[UserCacheKey(user, tenant) := merged]
      ensures UserCacheKey(user, tenant) in old(cache) ==> cache == old(cache)
      ensures UserCacheKey(user, tenant) !in old(cache) ==>
                && |met| == |roles| && (forall n :: 0 <= n < |roles| ==> met[n] == faults[n] || met[n] == faults[n].(system := false))
                && (EntryRight(permissions.db, userRoles, rows, cache, user, tenant) <==>
                      MergeExcusable(permissions.db, RolesOf(userRoles, user), roles, met, lost, rows, user, tenant))
      ensures UserStep(permissions.db, old(State()), ReadUser(user, tenant, roles, met, lost), State())
      ensures forall u, t :: (u, t) != (user, tenant) && EntryRight(permissions.db, userRoles, old(rows), old(cache), u, t) ==>
                               EntryRight(permissions.db, userRoles, rows, cache, u, t)
    {
      hide UserCacheKey, Coherent, UserSeen, UserGranted, MergeExcusable, UniqueActive;
      var key := UserCacheKey(user, tenant);
      met := [];
      if key in cache { return cache[key], met; }
      merged, met := MergeUserKeys(user, roles, tenant, faults, lost);
      cache := cache[key := merged];
      MergeIsRightIff(permissions.db, RolesOf(userRoles, user), roles, met, lost, rows, user, tenant, merged);
      forall u, t | (u, t) != (user, tenant) && EntryRight(permissions.db, userRoles, old(rows), old(cache), u, t)
        ensures EntryRight(permissions.db, userRoles, rows, cache, u, t)
      {
        if UserCacheKey(u, t) == key { UserCacheKeyInjective(u, t, user, tenant); }
      }
    }

    /** The query of the user's roles, which may be lost. */
    method FetchUserRoleNames(user: Uuid, fails: bool) returns (roles: seq<string>)
      ensures roles == if fails then [] else RolesOf(userRoles, user)
      ensures roles == if !fails && user in userRoles then userRoles[user] else []
    {
      roles := if fails then [] else RolesOf(userRoles, user);
    }

    /** A user who is seen to hold the owner role may do anything; otherwise the entry decides, rightly when it is right. */
    method HasPermissionForUser(user: Uuid, key: string, tenant: Option<Uuid>, noRoles: bool, faults: seq<Faults>, lost: bool)
      returns (b: bool, ghost met: seq<Faults>)
      requires Valid() && |faults| == |if noRoles then [] else RolesOf(userRoles, user)|
      modifies this`cache, permissions`systemRoleIds
      ensures Valid()
      ensures "owner" in RolesOf(userRoles, user) && !noRoles ==> b && cache == old(cache)
      ensures !noRoles && user in userRoles && EntryRight(permissions.db, userRoles, rows, cache, user, tenant) ==>
                (b <==> "owner" in userRoles[user] || UserGranted(permissions.db, userRoles[user], rows, user, tenant, key))
      ensures !("owner" in RolesOf(userRoles, user) && !noRoles) ==>
                && UserCacheKey(user, tenant) in cache && (b <==> key in cache[UserCacheKey(user, tenant)])
                && (EntryRight(permissions.db, userRoles, rows, cache, user, tenant) ==>
                      (b <==> UserGranted(permissions.db, RolesOf(userRoles, user), rows, user, tenant, key)))
                && (UserCacheKey(user, tenant) in old(cache) ==> cache == old(cache))
                && (UserCacheKey(user, tenant) !in old(cache) ==>
                      (EntryRight(permissions.db, userRoles, rows, cache, user, tenant) <==>
                         MergeExcusable(permissions.db, RolesOf(userRoles, user), if noRoles then [] else RolesOf(userRoles, user), met, lost, rows, user, tenant)))
      ensures forall u, t :: (u, t) != (user, tenant) && EntryRight(permissions.db, userRoles, old(rows), old(cache), u, t) ==>
                               EntryRight(permissions.db, userRoles, rows, cache, u, t)
    {
      hide UserCacheKey, Coherent, UserGranted, MergeExcusable, UniqueActive;
      var roles := FetchUserRoleNames(user, noRoles);
      met := [];
      if "owner" in roles { return true, met; }
      var granted;
      granted, met := GetGrantedSetForUser(user, roles, tenant, faults, lost);
      b := key in granted;
    }

    /** A write makes the entry it drops right, and no entry of another user wrong. The cache swallows the error of the deletion. */
    method Write(op: OverrideOp, tenant: Option<Uuid>, dropped: bool)
      requires Valid()
      modifies this`rows, this`cache
      ensures Valid() && rows == AfterWrite(old(rows), op)
      ensures UserStep(permissions.db, old(State()), WriteOverride(op, tenant, dropped), State())
      ensures dropped ==> EntryRight(permissions.db, userRoles, rows, cache, op.user, tenant)
      ensures forall u, t :: u != op.user && EntryRight(permissions.db, userRoles, old(rows), old(cache), u, t) ==>
                               EntryRight(permissions.db, userRoles, rows, cache, u, t)
    {
      hide UserCacheKey, Granted, Coherent, Has;
      ghost var before := rows;
      WriteKeepsHistory(before, op);
      match op {
        case Set(user, key, action) =>
          var updated := AnyActive(rows, user, key);
          rows := WithAction(rows, user, key, action);
          if !updated {
            assert rows == before;
            rows := rows + [UserRow(user, key, action, true)];
          }
        case Remove(user, key) => rows := AfterRemove(rows, user, key);
        case ResetAll(user) => rows := AfterReset(rows, user);
      }
      forall user, k, a | user != op.user ensures Has(rows, user, k, a) <==> Has(before, user, k, a) {
        WriteDecidesItsKeys(before, op, user, k, a);
      }
      if dropped { cache := cache - {UserCacheKey(op.user, tenant)}; }
    }
  }
}
