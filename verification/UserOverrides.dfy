/**
 Per-user permissions: the union of what the user's roles grant, with the user's own GRANT and DENY
 overrides on top.
 */
module UserOverrides {
  import opened Options
  import opened Permissions
  import opened FailedQueries

  datatype OverrideAction = Grant | Deny

  /** A row is never deleted: removing an override makes it inactive. User ids are UUIDs, like tenant ids. */
  datatype UserRow = UserRow(user: Uuid, key: string, action: OverrideAction, active: bool)

  predicate ActiveFor(row: UserRow, user: Uuid, key: string) {
    row.active && row.user == user && row.key == key
  }

  /** The partial unique index on (user, key) where active. */
  ghost predicate UniqueActive(rows: seq<UserRow>) {
    forall i, j :: 0 <= i < j < |rows| && rows[i].active && rows[j].active ==> rows[i].user != rows[j].user || rows[i].key != rows[j].key
  }

  ghost predicate Has(rows: seq<UserRow>, user: Uuid, key: string, action: OverrideAction) {
    UserRow(user, key, action, true) in rows
  }

  // ----- the writes -----

  predicate AnyActive(rows: seq<UserRow>, user: Uuid, key: string) {
    exists i :: 0 <= i < |rows| && ActiveFor(rows[i], user, key)
  }

  function WithAction(rows: seq<UserRow>, user: Uuid, key: string, action: OverrideAction): seq<UserRow> {
    seq(|rows|, i requires 0 <= i < |rows| => if ActiveFor(rows[i], user, key) then rows[i].(action := action) else rows[i])
  }

  /** Update the active row; insert one only if there was none to update. */
  function AfterSet(rows: seq<UserRow>, user: Uuid, key: string, action: OverrideAction): seq<UserRow> {
    if AnyActive(rows, user, key) then WithAction(rows, user, key, action) else rows + [UserRow(user, key, action, true)]
  }

  function AfterRemove(rows: seq<UserRow>, user: Uuid, key: string): seq<UserRow> {
    seq(|rows|, i requires 0 <= i < |rows| => if ActiveFor(rows[i], user, key) then rows[i].(active := false) else rows[i])
  }

  function AfterReset(rows: seq<UserRow>, user: Uuid): seq<UserRow> {
    seq(|rows|, i requires 0 <= i < |rows| =>
      if rows[i].active && rows[i].user == user then rows[i].(active := false) else rows[i])
  }

  datatype OverrideOp =
    | Set(user: Uuid, key: string, action: OverrideAction)
    | Remove(user: Uuid, key: string)
    | ResetAll(user: Uuid)

  function AfterWrite(rows: seq<UserRow>, op: OverrideOp): seq<UserRow> {
    match op
    case Set(user, key, action) => AfterSet(rows, user, key, action)
    case Remove(user, key) => AfterRemove(rows, user, key)
    case ResetAll(user) => AfterReset(rows, user)
  }

  /** Rows are only added at the end; a row keeps its user and key, and an inactive row is frozen. */
  ghost predicate HistoryKept(rows: seq<UserRow>, rows': seq<UserRow>) {
    |rows| <= |rows'| && forall i :: 0 <= i < |rows| ==>
      && rows'[i].user == rows[i].user && rows'[i].key == rows[i].key
      && (!rows[i].active ==> rows'[i] == rows[i])
  }

  lemma WriteKeepsHistory(rows: seq<UserRow>, op: OverrideOp)
    requires UniqueActive(rows)
    ensures UniqueActive(AfterWrite(rows, op)) && HistoryKept(rows, AfterWrite(rows, op))
  {
    assert op.Set? && !AnyActive(rows, op.user, op.key) ==> forall i :: 0 <= i < |rows| ==> !ActiveFor(rows[i], op.user, op.key);
  }

  /** The row at i becomes an active override of (user, key, action) exactly when the write says so. */
  lemma RowDecides(rows: seq<UserRow>, op: OverrideOp, i: nat, user: Uuid, key: string, action: OverrideAction)
    requires i < |rows|
    ensures i < |AfterWrite(rows, op)|
    ensures AfterWrite(rows, op)[i] == UserRow(user, key, action, true) <==>
              if op.user == user && (op.ResetAll? || op.key == key)
              then op.Set? && action == op.action && ActiveFor(rows[i], user, key)
              else rows[i] == UserRow(user, key, action, true)
  {
    if op.Set? && ActiveFor(rows[i], op.user, op.key) { assert AnyActive(rows, op.user, op.key); }
  }

  /** One write decides exactly the keys it names, and leaves every other (user, key) as it was. */
  lemma WriteDecidesItsKeys(rows: seq<UserRow>, op: OverrideOp, user: Uuid, key: string, action: OverrideAction)
    ensures Has(AfterWrite(rows, op), user, key, action) <==>
              if op.user == user && (op.ResetAll? || op.key == key) then op.Set? && action == op.action
              else Has(rows, user, key, action)
  {
    var rows' := AfterWrite(rows, op);
    forall i | 0 <= i < |rows|
      ensures rows'[i] == UserRow(user, key, action, true) <==>
                if op.user == user && (op.ResetAll? || op.key == key)
                then op.Set? && action == op.action && ActiveFor(rows[i], user, key)
                else rows[i] == UserRow(user, key, action, true)
    {
      RowDecides(rows, op, i, user, key, action);
    }
    if op.Set? {
      if AnyActive(rows, op.user, op.key) {
        var i :| 0 <= i < |rows| && ActiveFor(rows[i], op.user, op.key);
        assert rows'[i] in rows';
      } else {
        assert rows'[|rows|] == UserRow(op.user, op.key, op.action, true);
      }
    }
    hide AfterWrite;
    if Has(rows, user, key, action) {
      var i :| 0 <= i < |rows| && rows[i] == UserRow(user, key, action, true);
      assert rows'[i] in rows';
    }
  }

  function ApplyAll(rows: seq<UserRow>, ops: seq<OverrideOp>): seq<UserRow>
    decreases |ops|
  {
    if ops == [] then rows else ApplyAll(AfterWrite(rows, ops[0]), ops[1..])
  }

  /** Over every run of writes: at most one active row per (user, key), and no row is ever lost or rewritten once inactive. */
  lemma {:induction false} RunsKeepHistory(rows: seq<UserRow>, ops: seq<OverrideOp>)
    requires UniqueActive(rows)
    ensures UniqueActive(ApplyAll(rows, ops)) && HistoryKept(rows, ApplyAll(rows, ops))
    decreases |ops|
  {
    hide AfterWrite;
    if ops != [] {
      WriteKeepsHistory(rows, ops[0]);
      RunsKeepHistory(AfterWrite(rows, ops[0]), ops[1..]);
    }
  }

  // ----- the merged set -----

  ghost predicate SomeRoleGrants(db: Rbac, roles: seq<string>, tenant: Option<Uuid>, key: string) {
    exists i :: 0 <= i < |roles| && Granted(db, roles[i], tenant, key)
  }

  /** (union of role grants + GRANT keys) - DENY keys. */
  ghost predicate UserGranted(db: Rbac, roles: seq<string>, rows: seq<UserRow>, user: Uuid, tenant: Option<Uuid>, key: string) {
    Has(rows, user, key, Grant) || (SomeRoleGrants(db, roles, tenant, key) && !Has(rows, user, key, Deny))
  }

  /** Each key of a user, from the rows alone: an active GRANT or DENY of the user's decides it, and without one some role must grant it. */
  lemma UserGrantedKeyByKey(db: Rbac, roles: seq<string>, rows: seq<UserRow>, user: Uuid, tenant: Option<Uuid>, key: string)
    requires UniqueActive(rows)
    ensures var granted := UserGranted(db, roles, rows, user, tenant, key);
            && (forall i :: 0 <= i < |rows| && rows[i].active && rows[i].user == user && rows[i].key == key ==> (granted <==> rows[i].action == Grant))
            && ((forall i :: 0 <= i < |rows| && rows[i].active && rows[i].user == user ==> rows[i].key != key) ==>
                  (granted <==> exists i :: 0 <= i < |roles| && Granted(db, roles[i], tenant, key)))
  {
    hide Granted;
    forall i | 0 <= i < |rows| && rows[i].active && rows[i].user == user && rows[i].key == key
      ensures UserGranted(db, roles, rows, user, tenant, key) <==> rows[i].action == Grant
    {
      assert rows[i] == UserRow(user, key, rows[i].action, true) && rows[i] in rows;
      GrantOrDeny(rows, user, key);
    }
  }

  /** The set is exactly what a fresh merge would give. */
  ghost predicate Fresh(db: Rbac, roles: seq<string>, rows: seq<UserRow>, user: Uuid, tenant: Option<Uuid>, keys: set<string>) {
    forall k :: k in keys <==> UserGranted(db, roles, rows, user, tenant, k)
  }

  // ----- when queries fail -----

  /** Some role of the list grants the key in what the queries of its own resolution show. */
  ghost predicate SomeRoleSeen(db: Rbac, roles: seq<string>, met: seq<Faults>, tenant: Option<Uuid>, key: string) {
    exists i :: 0 <= i < |roles| && i < |met| && Granted(Seen(db, met[i]), roles[i], tenant, key)
  }

  /** The merge as it is computed: without any override when their query is lost. */
  ghost predicate UserSeen(db: Rbac, roles: seq<string>, met: seq<Faults>, lost: bool, rows: seq<UserRow>, user: Uuid, tenant: Option<Uuid>, key: string) {
    if lost then SomeRoleSeen(db, roles, met, tenant, key)
    else Has(rows, user, key, Grant) || (SomeRoleSeen(db, roles, met, tenant, key) && !Has(rows, user, key, Deny))
  }

  /**
   What the failures lose does not matter: a lost override repeats what the roles seen grant, and the roles seen, which may
   be fewer than the roles held, decide every key without an override rightly.
   */
  ghost predicate MergeExcusable(db: Rbac, held: seq<string>, roles: seq<string>, met: seq<Faults>, lost: bool,
                                 rows: seq<UserRow>, user: Uuid, tenant: Option<Uuid>)
  {
    && (lost ==> forall k, a :: Has(rows, user, k, a) ==> (SomeRoleSeen(db, roles, met, tenant, k) <==> a.Grant?))
    && (forall k :: !Has(rows, user, k, Grant) && !Has(rows, user, k, Deny) ==>
          (SomeRoleSeen(db, roles, met, tenant, k) <==> SomeRoleGrants(db, held, tenant, k)))
  }

  lemma GrantOrDeny(rows: seq<UserRow>, user: Uuid, key: string)
    requires UniqueActive(rows)
    ensures !(Has(rows, user, key, Grant) && Has(rows, user, key, Deny))
  {
    if Has(rows, user, key, Grant) {
      var i :| 0 <= i < |rows| && rows[i] == UserRow(user, key, Grant, true);
      assert forall j :: 0 <= j < |rows| && rows[j].active && j != i ==> rows[j].user != user || rows[j].key != key;
    }
  }

  /** A merge with failed queries is right if and only if what they lose does not matter. */
  lemma MergeIsRightIff(db: Rbac, held: seq<string>, roles: seq<string>, met: seq<Faults>, lost: bool,
                        rows: seq<UserRow>, user: Uuid, tenant: Option<Uuid>, keys: set<string>)
    requires UniqueActive(rows) && forall k :: k in keys <==> UserSeen(db, roles, met, lost, rows, user, tenant, k)
    ensures Fresh(db, held, rows, user, tenant, keys) <==> MergeExcusable(db, held, roles, met, lost, rows, user, tenant)
  {
    hide UniqueActive, Has, SomeRoleSeen, SomeRoleGrants;
    forall k
      ensures (UserSeen(db, roles, met, lost, rows, user, tenant, k) <==> UserGranted(db, held, rows, user, tenant, k)) <==>
                && (lost ==> forall a :: Has(rows, user, k, a) ==> (SomeRoleSeen(db, roles, met, tenant, k) <==> a.Grant?))
                && (!Has(rows, user, k, Grant) && !Has(rows, user, k, Deny) ==>
                      (SomeRoleSeen(db, roles, met, tenant, k) <==> SomeRoleGrants(db, held, tenant, k)))
    {
      GrantOrDeny(rows, user, k);
    }
  }

  /** Excusable failures in each role's own resolution do not matter to the user either. */
  lemma ExcusableRolesAreSeen(db: Rbac, roles: seq<string>, met: seq<Faults>, tenant: Option<Uuid>, key: string)
    requires DbOk(db) && |met| == |roles| && forall i :: 0 <= i < |roles| ==> Excusable(db, roles[i], tenant, met[i])
    ensures SomeRoleSeen(db, roles, met, tenant, key) <==> SomeRoleGrants(db, roles, tenant, key)
  {
    hide Granted, Excusable, Seen, DbOk;
    forall i | 0 <= i < |roles| ensures Granted(Seen(db, met[i]), roles[i], tenant, key) <==> Granted(db, roles[i], tenant, key) {
      SameAnswersIff(db, roles[i], tenant, met[i]);
    }
  }

  /** When only the user's own overrides are lost, the answer is right if and only if each of them repeats what the roles grant. */
  lemma LostUserOverridesIff(db: Rbac, roles: seq<string>, met: seq<Faults>, rows: seq<UserRow>, user: Uuid, tenant: Option<Uuid>)
    requires DbOk(db) && |met| == |roles| && forall i :: 0 <= i < |roles| ==> Excusable(db, roles[i], tenant, met[i])
    ensures MergeExcusable(db, roles, roles, met, true, rows, user, tenant) <==>
              forall k, a :: Has(rows, user, k, a) ==> (SomeRoleGrants(db, roles, tenant, k) <==> a.Grant?)
  {
    hide Has, SomeRoleSeen, SomeRoleGrants, Excusable, DbOk;
    forall k ensures SomeRoleSeen(db, roles, met, tenant, k) <==> SomeRoleGrants(db, roles, tenant, k) {
      ExcusableRolesAreSeen(db, roles, met, tenant, k);
    }
  }

  /** A DENY whose query is lost gives the key back to a user with a role that grants it. */
  lemma LostDenyIsServed(db: Rbac, roles: seq<string>, met: seq<Faults>, rows: seq<UserRow>, user: Uuid, tenant: Option<Uuid>, key: string)
    requires DbOk(db) && |met| == |roles| && forall i :: 0 <= i < |roles| ==> Excusable(db, roles[i], tenant, met[i])
    requires UniqueActive(rows) && Has(rows, user, key, Deny) && SomeRoleGrants(db, roles, tenant, key)
    ensures UserSeen(db, roles, met, true, rows, user, tenant, key) && !UserGranted(db, roles, rows, user, tenant, key)
  {
    hide Has, SomeRoleSeen, SomeRoleGrants, Excusable, DbOk, UniqueActive;
    ExcusableRolesAreSeen(db, roles, met, tenant, key);
    GrantOrDeny(rows, user, key);
  }

  /** The active rows of one user, in table order. */
  function ActiveRows(rows: seq<UserRow>, user: Uuid): (r: seq<UserRow>)
    ensures forall i :: 0 <= i < |r| ==> r[i] in rows && r[i].user == user && r[i].active
    ensures forall o :: o in rows && o.user == user && o.active ==> o in r
  {
    if rows == [] then []
    else (if rows[0].user == user && rows[0].active then [rows[0]] else []) + ActiveRows(rows[1..], user)
  }

  lemma {:induction false} ActiveRowsUnique(rows: seq<UserRow>, user: Uuid)
    requires UniqueActive(rows)
    ensures UniqueActive(ActiveRows(rows, user))
  {
    if rows != [] {
      var rest := ActiveRows(rows[1..], user);
      ActiveRowsUnique(rows[1..], user);
      forall i | 0 <= i < |rest| ensures rows[0].active ==> rows[0].user != rest[i].user || rows[0].key != rest[i].key {
        var j :| 0 <= j < |rows[1..]| && rows[1..][j] == rest[i];
        assert rows[j + 1] == rest[i];
      }
    }
  }

  /** The override loop, key by key; with unique active rows the order does not matter. */
  method ApplyOverrides(union: set<string>, rows: seq<UserRow>) returns (merged: set<string>)
    requires UniqueActive(rows) && forall i :: 0 <= i < |rows| ==> rows[i].active && rows[i].user == rows[0].user
    ensures forall k :: k in merged <==> (exists i :: 0 <= i < |rows| && rows[i].key == k && rows[i].action.Grant?)
                                         || (k in union && !exists i :: 0 <= i < |rows| && rows[i].key == k && rows[i].action.Deny?)
  {
    merged := union;
    for n := 0 to |rows|
      invariant forall k :: k in merged <==> (exists i :: 0 <= i < n && rows[i].key == k && rows[i].action.Grant?)
                                             || (k in union && !exists i :: 0 <= i < n && rows[i].key == k && rows[i].action.Deny?)
    {
      assert forall i :: 0 <= i < n ==> rows[i].key != rows[n].key;
      if rows[n].action.Grant? { merged := merged + {rows[n].key}; } else { merged := merged - {rows[n].key}; }
    }
  }

  lemma RowsDecide(rows: seq<UserRow>, user: Uuid, active: seq<UserRow>)
    requires active == ActiveRows(rows, user)
    ensures forall k, a :: Has(rows, user, k, a) <==> exists i :: 0 <= i < |active| && active[i].key == k && active[i].action == a
  {
    forall k, a ensures Has(rows, user, k, a) <==> exists i :: 0 <= i < |active| && active[i].key == k && active[i].action == a {
      if Has(rows, user, k, a) { assert UserRow(user, k, a, true) in active; }
      if i :| 0 <= i < |active| && active[i].key == k && active[i].action == a { assert active[i] == UserRow(user, k, a, true); }
    }
  }

  // ----- the loops -----

  lemma NoRoleSeen(db: Rbac, tenant: Option<Uuid>)
    ensures forall k :: !SomeRoleSeen(db, [], [], tenant, k)
  {
  }

  lemma MergedIsSeen(db: Rbac, roles: seq<string>, met: seq<Faults>, rows: seq<UserRow>, user: Uuid, tenant: Option<Uuid>,
                     active: seq<UserRow>, union: set<string>, merged: set<string>)
    requires active == ActiveRows(rows, user)
    requires forall k :: k in union <==> SomeRoleSeen(db, roles, met, tenant, k)
    requires forall k :: k in merged <==> (exists i :: 0 <= i < |active| && active[i].key == k && active[i].action.Grant?)
                                          || (k in union && !exists i :: 0 <= i < |active| && active[i].key == k && active[i].action.Deny?)
    ensures forall k :: k in merged <==> UserSeen(db, roles, met, false, rows, user, tenant, k)
  {
    hide SomeRoleSeen, ActiveRows, Has;
    RowsDecide(rows, user, active);
    forall k ensures k in merged <==> UserSeen(db, roles, met, false, rows, user, tenant, k) {
      assert Has(rows, user, k, Grant) <==> exists i :: 0 <= i < |active| && active[i].key == k && active[i].action.Grant?;
      assert Has(rows, user, k, Deny) <==> exists i :: 0 <= i < |active| && active[i].key == k && active[i].action.Deny?;
    }
  }

  lemma OneMoreRole(db: Rbac, roles: seq<string>, met: seq<Faults>, f: Faults, n: nat, tenant: Option<Uuid>)
    requires n < |roles| && |met| == n
    ensures forall k :: SomeRoleSeen(db, roles[..n + 1], met + [f], tenant, k) <==>
                          SomeRoleSeen(db, roles[..n], met, tenant, k) || Granted(Seen(db, f), roles[n], tenant, k)
  {
    hide Granted, Seen;
    forall k ensures SomeRoleSeen(db, roles[..n + 1], met + [f], tenant, k) <==>
                       SomeRoleSeen(db, roles[..n], met, tenant, k) || Granted(Seen(db, f), roles[n], tenant, k)
    {
      assert roles[..n + 1] == roles[..n] + [roles[n]];
      assert (met + [f])[n] == f;
    }
  }

  // ----- an entry that a write leaves in the cache -----

  /** The keys already are what the write decides: the action of a GRANT or DENY, what the roles grant after a removal. */
  ghost predicate AlreadyHas(db: Rbac, roles: seq<string>, op: OverrideOp, tenant: Option<Uuid>, keys: set<string>) {
    if op.Set? then op.key in keys <==> op.action.Grant?
    else forall k :: op.ResetAll? || op.key == k ==> (k in keys <==> SomeRoleGrants(db, roles, tenant, k))
  }

  /**
   A write leaves the user's entry of every other tenant in the cache, and the one it names when the deletion fails: such
   an entry stays right exactly when it already had what the write decides.
   */
  lemma WriteLeavesOtherTenantsEntry(db: Rbac, roles: seq<string>, rows: seq<UserRow>, op: OverrideOp, tenant: Option<Uuid>, keys: set<string>)
    requires Fresh(db, roles, rows, op.user, tenant, keys)
    ensures Fresh(db, roles, AfterWrite(rows, op), op.user, tenant, keys) <==> AlreadyHas(db, roles, op, tenant, keys)
  {
    hide AfterWrite, SomeRoleGrants, Has;
    forall k ensures UserGranted(db, roles, AfterWrite(rows, op), op.user, tenant, k) <==>
                       if !(op.ResetAll? || op.key == k) then UserGranted(db, roles, rows, op.user, tenant, k)
                       else if op.Set? then op.action.Grant? else SomeRoleGrants(db, roles, tenant, k)
    {
      WriteDecidesItsKeys(rows, op, op.user, k, Grant);
      WriteDecidesItsKeys(rows, op, op.user, k, Deny);
    }
  }

  /** Another role of the user grants the key. */
  ghost predicate OtherRoleGrants(db: Rbac, roles: seq<string>, name: string, tenant: Option<Uuid>, key: string) {
    exists i :: 0 <= i < |roles| && roles[i] != name && Granted(db, roles[i], tenant, key)
  }

  /**
   Why the role tables are held fixed: a grant or revocation on a role drops no user entry, and the entry of a user stays
   right exactly when the write changed nothing for that user.
   */
  lemma RoleWriteMayLeaveStaleEntry(db: Rbac, tenant: Uuid, roleId: string, key: string, granted: bool,
                                    roles: seq<string>, rows: seq<UserRow>, user: Uuid, keys: set<string>)
    requires DbOk(db) && Verdict(db, UpdatePermission(tenant, roleId, key, granted)).Done?
    requires Fresh(db, roles, rows, user, Some(tenant), keys)
    ensures var (db', name) := (Apply(db, UpdatePermission(tenant, roleId, key, granted)), db.roles[roleId].name);
            Fresh(db', roles, rows, user, Some(tenant), keys) <==>
              || !Effective(db, roleId, tenant) || name !in roles
              || Has(rows, user, key, Grant) || Has(rows, user, key, Deny)
              || OtherRoleGrants(db, roles, name, Some(tenant), key)
              || (key in keys <==> granted)
  {
    var name := db.roles[roleId].name;
    hide Granted, DbOk, Verdict, Apply, Effective, Has;
    var op := UpdatePermission(tenant, roleId, key, granted);
    var db' := Apply(db, op);
    forall i, k | 0 <= i < |roles|
      ensures Granted(db', roles[i], Some(tenant), k) <==>
                if roles[i] == name && k == key && Effective(db, roleId, tenant) then granted else Granted(db, roles[i], Some(tenant), k)
    {
      if roles[i] == name {
        UpdateChangesOneKey(db, tenant, roleId, key, granted, k);
      } else {
        UpdateLeavesOtherRoles(db, tenant, roleId, key, granted, roles[i], k);
      }
    }
    RolesAfterUpdate(db, db', roles, name, tenant, key, granted, Effective(db, roleId, tenant));
  }

  lemma UpdateLeavesOtherRoles(db: Rbac, tenant: Uuid, roleId: string, key: string, granted: bool, role: string, k: string)
    requires DbOk(db) && Verdict(db, UpdatePermission(tenant, roleId, key, granted)).Done? && role != db.roles[roleId].name
    ensures Granted(Apply(db, UpdatePermission(tenant, roleId, key, granted)), role, Some(tenant), k) <==> Granted(db, role, Some(tenant), k)
  {
    hide Granted, DbOk, Apply;
    OnlyTargetChanges(db, UpdatePermission(tenant, roleId, key, granted), role, Some(tenant), k);
  }

  lemma RolesAfterUpdate(db: Rbac, db': Rbac, roles: seq<string>, name: string, tenant: Uuid, key: string, granted: bool, effective: bool)
    requires forall i, k :: 0 <= i < |roles| ==>
               (Granted(db', roles[i], Some(tenant), k) <==>
                  if roles[i] == name && k == key && effective then granted else Granted(db, roles[i], Some(tenant), k))
    ensures forall k :: SomeRoleGrants(db', roles, Some(tenant), k) <==>
              if k == key && effective && name in roles then granted || OtherRoleGrants(db, roles, name, Some(tenant), k)
              else SomeRoleGrants(db, roles, Some(tenant), k)
    ensures OtherRoleGrants(db, roles, name, Some(tenant), key) ==> SomeRoleGrants(db, roles, Some(tenant), key)
  {
    hide Granted;
    forall k ensures SomeRoleGrants(db', roles, Some(tenant), k) <==>
                       if k == key && effective && name in roles then granted || OtherRoleGrants(db, roles, name, Some(tenant), k)
                       else SomeRoleGrants(db, roles, Some(tenant), k)
    {
      assert forall i :: 0 <= i < |roles| ==> (Granted(db', roles[i], Some(tenant), k) <==>
                  if roles[i] == name && k == key && effective then granted else Granted(db, roles[i], Some(tenant), k));
    }
  }

  /** With one role and no overrides the user path and the role path give the same answer. */
  lemma SingleRoleAgrees(db: Rbac, role: string, rows: seq<UserRow>, user: Uuid, tenant: Option<Uuid>, key: string)
    requires forall k, a :: !Has(rows, user, k, a)
    ensures ("owner" in [role] || UserGranted(db, [role], rows, user, tenant, key)) <==> (role == "owner" || Granted(db, role, tenant, key))
  {
    assert [role][0] == role;
  }

  /** DENY beats every role, GRANT beats the absence of one, for every key and whatever else is in the table. */
  lemma OverrideBeatsRoles(db: Rbac, roles: seq<string>, rows: seq<UserRow>, op: OverrideOp, tenant: Option<Uuid>)
    requires UniqueActive(rows) && op.Set?
    ensures UserGranted(db, roles, AfterWrite(rows, op), op.user, tenant, op.key) <==> op.action.Grant?
  {
    hide AfterWrite, Granted;
    WriteDecidesItsKeys(rows, op, op.user, op.key, Grant);
    WriteDecidesItsKeys(rows, op, op.user, op.key, Deny);
  }
}
