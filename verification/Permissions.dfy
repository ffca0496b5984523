/**
 Tenant-aware permission resolution: a role's global grants, merged key by key with the tenant's
 overrides, the admin operations that change the tables, and the names of the cache entries.
 */
module Permissions {
  import opened Options
  import opened Strings

  /** The id of a tenant or a user: not empty, and without the separator of the cache keys. */
  type Uuid = t: string | t != "" && ':' !in t witness "t"

  datatype RoleRow = RoleRow(name: string, tenant: Option<Uuid>)

  datatype OverrideRow = OverrideRow(tenant: Uuid, role: string, key: string, granted: bool)

  /** `globals` is the seeded role_permissions table, `catalogue` maps every permission key to its resource. */
  datatype Rbac = Rbac(roles: map<string, RoleRow>, overrides: seq<OverrideRow>, globals: map<string, set<string>>,
                       catalogue: map<string, string>)

  /** The unique constraints and the foreign key of the tables. */
  ghost predicate DbOk(db: Rbac) {
    && (forall a, b :: a in db.roles && b in db.roles && db.roles[a] == db.roles[b] ==> a == b)
    && UniqueOverrides(db.overrides)
    && (forall o :: o in db.overrides ==>
          o.role in db.roles && (db.roles[o.role].tenant.None? || db.roles[o.role].tenant == Some(o.tenant)))
  }

  predicate SameOverride(a: OverrideRow, b: OverrideRow) {
    a.tenant == b.tenant && a.role == b.role && a.key == b.key
  }

  ghost predicate UniqueOverrides(rows: seq<OverrideRow>) {
    forall i, j :: 0 <= i < j < |rows| ==> !SameOverride(rows[i], rows[j])
  }

  // ----- what a role is granted, key by key -----

  predicate Named(db: Rbac, id: string, name: string, tenant: Option<Uuid>) {
    id in db.roles && db.roles[id] == RoleRow(name, tenant)
  }

  /** A system role of that name comes first; only then the tenant's own. */
  ghost function LookupRoleId(db: Rbac, role: string, tenant: Uuid): Option<string> {
    if exists id :: Named(db, id, role, None) then (var id :| Named(db, id, role, None); Some(id))
    else if exists id :: Named(db, id, role, Some(tenant)) then (var id :| Named(db, id, role, Some(tenant)); Some(id))
    else None
  }

  predicate Globally(db: Rbac, role: string, key: string) {
    role in db.globals && key in db.globals[role]
  }

  predicate TenantKey(db: Rbac, key: string) {
    key in db.catalogue && db.catalogue[key] != "superadmin"
  }

  ghost predicate Overridden(db: Rbac, tenant: Uuid, roleId: string, key: string, granted: bool) {
    OverrideRow(tenant, roleId, key, granted) in db.overrides
  }

  /** One key's answer: the owner has every tenant key; otherwise the tenant's override, else the global grant. */
  ghost predicate Granted(db: Rbac, role: string, tenant: Option<Uuid>, key: string) {
    if role == "owner" then TenantKey(db, key)
    else if tenant.None? || LookupRoleId(db, role, tenant.value).None? then Globally(db, role, key)
    else
      var id := LookupRoleId(db, role, tenant.value).value;
      Overridden(db, tenant.value, id, key, true) || (Globally(db, role, key) && !Overridden(db, tenant.value, id, key, false))
  }

  /** The set is exactly what a fresh resolution would give. */
  ghost predicate Resolves(db: Rbac, role: string, tenant: Option<Uuid>, keys: set<string>) {
    forall k :: k in keys <==> Granted(db, role, tenant, k)
  }

  // ----- the merge loop -----

  /** The rows of one tenant and role, in table order. */
  function TenantOverrides(rows: seq<OverrideRow>, tenant: Uuid, roleId: string): (r: seq<OverrideRow>)
    ensures forall i :: 0 <= i < |r| ==> r[i] in rows && r[i].tenant == tenant && r[i].role == roleId
    ensures forall o :: o in rows && o.tenant == tenant && o.role == roleId ==> o in r
  {
    if rows == [] then []
    else (if rows[0].tenant == tenant && rows[0].role == roleId then [rows[0]] else []) + TenantOverrides(rows[1..], tenant, roleId)
  }

  lemma {:induction false} TenantOverridesUnique(rows: seq<OverrideRow>, tenant: Uuid, roleId: string)
    requires UniqueOverrides(rows)
    ensures UniqueOverrides(TenantOverrides(rows, tenant, roleId))
  {
    if rows != [] {
      var rest := TenantOverrides(rows[1..], tenant, roleId);
      TenantOverridesUnique(rows[1..], tenant, roleId);
      forall i | 0 <= i < |rest| ensures !SameOverride(rows[0], rest[i]) {
        var j :| 0 <= j < |rows[1..]| && rows[1..][j] == rest[i];
        assert rows[j + 1] == rest[i];
      }
    }
  }

  /** Adding and deleting keys row by row gives the per-key merge, whatever the order of the rows. */
  method MergeOverrides(globals: set<string>, rows: seq<OverrideRow>) returns (merged: set<string>)
    requires UniqueOverrides(rows)
    requires forall i, j :: 0 <= i < j < |rows| ==> rows[i].tenant == rows[j].tenant && rows[i].role == rows[j].role
    ensures forall k :: k in merged <==> (exists i :: 0 <= i < |rows| && rows[i].key == k && rows[i].granted)
                                         || (k in globals && !exists i :: 0 <= i < |rows| && rows[i].key == k && !rows[i].granted)
  {
    merged := globals;
    for n := 0 to |rows|
      invariant forall k :: k in merged <==> (exists i :: 0 <= i < n && rows[i].key == k && rows[i].granted)
                                             || (k in globals && !exists i :: 0 <= i < n && rows[i].key == k && !rows[i].granted)
    {
      assert forall i :: 0 <= i < n ==> rows[i].key != rows[n].key by {
        forall i | 0 <= i < n ensures rows[i].key != rows[n].key { assert !SameOverride(rows[i], rows[n]); }
      }
      if rows[n].granted { merged := merged + {rows[n].key}; } else { merged := merged - {rows[n].key}; }
    }
  }

  // ----- admin operations on the tables -----

  /** Deleting a role takes two statements; it is whole when the second one goes through as well. */
  datatype AdminOp =
    | CreateRole(tenant: Uuid, name: string, id: string)
    | DeleteRole(tenant: Uuid, roleId: string, userCount: nat, whole: bool)
    | UpdatePermission(tenant: Uuid, roleId: string, key: string, granted: bool)
    | ResetPermission(tenant: Uuid, roleId: string, key: string)
    | ResetRole(tenant: Uuid, roleId: string)

  datatype Answer = Done | NotFound | Forbidden | DatabaseFailed

  const PLATFORM_ONLY_KEYS := {"analytics.view.all", "audit.view.all"}

  predicate Accessible(db: Rbac, roleId: string, tenant: Uuid) {
    roleId in db.roles && (db.roles[roleId].tenant.None? || db.roles[roleId].tenant == Some(tenant))
  }

  function AccessError(db: Rbac, roleId: string, tenant: Uuid): Answer {
    if roleId !in db.roles then NotFound else if !Accessible(db, roleId, tenant) then Forbidden else Done
  }

  function EditError(db: Rbac, roleId: string, tenant: Uuid): Answer {
    if !AccessError(db, roleId, tenant).Done? then AccessError(db, roleId, tenant)
    else if db.roles[roleId].name in {"owner", "superadmin"} then Forbidden
    else Done
  }

  function KeyError(db: Rbac, key: string): Answer {
    if key !in db.catalogue then NotFound
    else if db.catalogue[key] == "superadmin" || key in PLATFORM_ONLY_KEYS then Forbidden
    else Done
  }

  /** Why an operation is refused, or Done. */
  ghost function Verdict(db: Rbac, op: AdminOp): Answer {
    match op
    case CreateRole(tenant, name, id) =>
      if Trim(name) == "" || exists other :: Named(db, other, Trim(name), Some(tenant)) then Forbidden else Done
    case DeleteRole(tenant, roleId, userCount, _) =>
      if !AccessError(db, roleId, tenant).Done? then AccessError(db, roleId, tenant)
      else if db.roles[roleId].tenant != Some(tenant) || userCount > 0 then Forbidden
      else Done
    case UpdatePermission(tenant, roleId, key, _) =>
      if !EditError(db, roleId, tenant).Done? then EditError(db, roleId, tenant) else KeyError(db, key)
    case ResetPermission(tenant, roleId, _) => EditError(db, roleId, tenant)
    case ResetRole(tenant, roleId) => EditError(db, roleId, tenant)
  }

  function Upsert(rows: seq<OverrideRow>, o: OverrideRow): seq<OverrideRow> {
    if rows == [] then [o]
    else if SameOverride(rows[0], o) then [o] + rows[1..]
    else [rows[0]] + Upsert(rows[1..], o)
  }

  function DeleteOverride(rows: seq<OverrideRow>, tenant: Uuid, roleId: string, key: string): seq<OverrideRow> {
    if rows == [] then []
    else (if rows[0].tenant == tenant && rows[0].role == roleId && rows[0].key == key then [] else [rows[0]])
         + DeleteOverride(rows[1..], tenant, roleId, key)
  }

  function DeleteAllOverrides(rows: seq<OverrideRow>, tenant: Uuid, roleId: string): seq<OverrideRow> {
    if rows == [] then []
    else (if rows[0].tenant == tenant && rows[0].role == roleId then [] else [rows[0]])
         + DeleteAllOverrides(rows[1..], tenant, roleId)
  }

  ghost function Apply(db: Rbac, op: AdminOp): Rbac {
    if !Verdict(db, op).Done? then db else
    match op
    case CreateRole(tenant, name, id) => db.(roles := db.roles[id := RoleRow(Trim(name), Some(tenant))])
    case DeleteRole(tenant, roleId, _, whole) =>
      db.(overrides := DeleteAllOverrides(db.overrides, tenant, roleId), roles := if whole then db.roles - {roleId} else db.roles)
    case UpdatePermission(tenant, roleId, key, granted) =>
      db.(overrides := Upsert(db.overrides, OverrideRow(tenant, roleId, key, granted)))
    case ResetPermission(tenant, roleId, key) => db.(overrides := DeleteOverride(db.overrides, tenant, roleId, key))
    case ResetRole(tenant, roleId) => db.(overrides := DeleteAllOverrides(db.overrides, tenant, roleId))
  }

  /** A new role id is fresh; every other operation may name anything. */
  ghost predicate Possible(db: Rbac, op: AdminOp) {
    op.CreateRole? ==> op.id !in db.roles
  }

  // ----- what is decided, from the tables alone -----

  /**
   Every key's answer, from the rows alone. The owner has the keys outside the platform's; anyone else has the global grants, with
   the overrides of the role row that the name leads to, if any: a system row when there is one, else the tenant's own.
   */
  lemma GrantedKeyByKey(db: Rbac, role: string, tenant: Option<Uuid>, key: string)
    requires DbOk(db)
    ensures var global := role in db.globals && key in db.globals[role];
            if role == "owner" then Granted(db, role, tenant, key) <==> key in db.catalogue && db.catalogue[key] != "superadmin"
            else if tenant.None? then Granted(db, role, tenant, key) <==> global
            else
              && ((forall id :: id in db.roles ==> db.roles[id] != RoleRow(role, None) && db.roles[id] != RoleRow(role, tenant)) ==>
                    (Granted(db, role, tenant, key) <==> global))
              && (forall id :: id in db.roles
                               && (|| db.roles[id] == RoleRow(role, None)
                                   || (db.roles[id] == RoleRow(role, tenant) && forall other :: other in db.roles ==> db.roles[other] != RoleRow(role, None))) ==>
                    (Granted(db, role, tenant, key) <==>
                       || OverrideRow(tenant.value, id, key, true) in db.overrides
                       || (global && OverrideRow(tenant.value, id, key, false) !in db.overrides)))
  {
    hide LookupRoleId, UniqueOverrides;
    if role != "owner" && tenant.Some? {
      LookupFinds(db, role, tenant.value);
      forall id | id in db.roles ensures Named(db, id, role, None) <==> db.roles[id] == RoleRow(role, None) {}
    }
  }

  /**
   When each operation is accepted, and which refusal each unmet condition gives. A role can be edited that exists, is a
   system role or the tenant's own, and is neither the owner nor the superadmin.
   */
  lemma VerdictSays(db: Rbac, op: AdminOp)
    ensures var v := Verdict(db, op);
            match op
            case CreateRole(tenant, name, id) =>
              var fine := Trim(name) != "" && forall other :: other in db.roles ==> db.roles[other] != RoleRow(Trim(name), Some(tenant));
              v == if fine then Done else Forbidden
            case DeleteRole(tenant, roleId, userCount, _) =>
              && (v == NotFound <==> roleId !in db.roles)
              && (v == Done <==> roleId in db.roles && db.roles[roleId].tenant == Some(tenant) && userCount == 0)
              && v != DatabaseFailed
            case UpdatePermission(tenant, roleId, key, _) =>
              var editable := roleId in db.roles && (db.roles[roleId].tenant == None || db.roles[roleId].tenant == Some(tenant))
                              && db.roles[roleId].name != "owner" && db.roles[roleId].name != "superadmin";
              && (v == NotFound <==> roleId !in db.roles || (editable && key !in db.catalogue))
              && (v == Done <==> editable && key in db.catalogue && db.catalogue[key] != "superadmin"
                                 && key != "analytics.view.all" && key != "audit.view.all")
              && v != DatabaseFailed
            case _ =>
              var (tenant, roleId) := (op.tenant, op.roleId);
              && (v == NotFound <==> roleId !in db.roles)
              && (v == Done <==> roleId in db.roles && (db.roles[roleId].tenant == None || db.roles[roleId].tenant == Some(tenant))
                                 && db.roles[roleId].name != "owner" && db.roles[roleId].name != "superadmin")
              && v != DatabaseFailed
  {
    hide Trim;
    if op.CreateRole? {
      assert forall other :: Named(db, other, Trim(op.name), Some(op.tenant)) <==>
                             other in db.roles && db.roles[other] == RoleRow(Trim(op.name), Some(op.tenant));
    }
  }

  /** The rows after an accepted operation: one row written or one taken away, all those of the role gone, or a new role without any. */
  lemma RowsAfter(db: Rbac, op: AdminOp)
    requires DbOk(db) && Verdict(db, op).Done?
    ensures var db' := Apply(db, op);
            && db'.globals == db.globals && db'.catalogue == db.catalogue
            && match op
               case CreateRole(tenant, name, id) => db'.roles == db.roles[id := RoleRow(Trim(name), Some(tenant))] && db'.overrides == db.overrides
               case DeleteRole(tenant, roleId, _, whole) =>
                 && (forall id :: id in db'.roles <==> id in db.roles && !(whole && id == roleId))
                 && (forall id :: id in db'.roles ==> db'.roles[id] == db.roles[id])
                 && (forall o :: o in db'.overrides <==> o in db.overrides && !(o.tenant == tenant && o.role == roleId))
               case UpdatePermission(tenant, roleId, key, granted) =>
                 && db'.roles == db.roles
                 && (forall o :: o in db'.overrides <==>
                       || o == OverrideRow(tenant, roleId, key, granted)
                       || (o in db.overrides && !(o.tenant == tenant && o.role == roleId && o.key == key)))
               case ResetPermission(tenant, roleId, key) =>
                 && db'.roles == db.roles
                 && (forall o :: o in db'.overrides <==> o in db.overrides && !(o.tenant == tenant && o.role == roleId && o.key == key))
               case ResetRole(tenant, roleId) =>
                 && db'.roles == db.roles
                 && (forall o :: o in db'.overrides <==> o in db.overrides && !(o.tenant == tenant && o.role == roleId))
  {
    hide Trim, Upsert, DeleteOverride, DeleteAllOverrides, UniqueOverrides;
    match op
    case CreateRole(_, _, _) =>
    case DeleteRole(tenant, roleId, _, _) => DeleteAllRows(db.overrides, tenant, roleId);
    case UpdatePermission(tenant, roleId, key, granted) => UpsertRows(db.overrides, OverrideRow(tenant, roleId, key, granted));
    case ResetPermission(tenant, roleId, key) => DeleteOverrideRows(db.overrides, tenant, roleId, key);
    case ResetRole(tenant, roleId) => DeleteAllRows(db.overrides, tenant, roleId);
  }

  // ----- what the row operations do -----

  lemma {:induction false} UpsertRows(rows: seq<OverrideRow>, o: OverrideRow)
    requires UniqueOverrides(rows)
    ensures UniqueOverrides(Upsert(rows, o))
    ensures forall r :: r in Upsert(rows, o) <==> r == o || (r in rows && !SameOverride(r, o))
  {
    if rows != [] {
      UpsertRows(rows[1..], o);
      assert rows == [rows[0]] + rows[1..];
      forall i | 1 <= i < |rows| ensures rows[i] in rows[1..] && !SameOverride(rows[0], rows[i]) {
        assert rows[i] == rows[1..][i - 1];
      }
      if !SameOverride(rows[0], o) {
        forall r | r in Upsert(rows[1..], o) ensures !SameOverride(rows[0], r) {
          if r in rows[1..] { var j :| 0 <= j < |rows[1..]| && rows[1..][j] == r; assert rows[j + 1] == r; }
        }
      }
    }
  }

  lemma {:induction false} DeleteOverrideRows(rows: seq<OverrideRow>, tenant: Uuid, roleId: string, key: string)
    ensures UniqueOverrides(rows) ==> UniqueOverrides(DeleteOverride(rows, tenant, roleId, key))
    ensures forall r :: r in DeleteOverride(rows, tenant, roleId, key) <==>
                          r in rows && !(r.tenant == tenant && r.role == roleId && r.key == key)
  {
    if rows != [] {
      var rest := DeleteOverride(rows[1..], tenant, roleId, key);
      DeleteOverrideRows(rows[1..], tenant, roleId, key);
      assert rows == [rows[0]] + rows[1..];
      if UniqueOverrides(rows) { RestIsApart(rows, rest); }
    }
  }

  lemma {:induction false} DeleteAllRows(rows: seq<OverrideRow>, tenant: Uuid, roleId: string)
    ensures UniqueOverrides(rows) ==> UniqueOverrides(DeleteAllOverrides(rows, tenant, roleId))
    ensures forall r :: r in DeleteAllOverrides(rows, tenant, roleId) <==> r in rows && !(r.tenant == tenant && r.role == roleId)
  {
    if rows != [] {
      var rest := DeleteAllOverrides(rows[1..], tenant, roleId);
      DeleteAllRows(rows[1..], tenant, roleId);
      assert rows == [rows[0]] + rows[1..];
      if UniqueOverrides(rows) { RestIsApart(rows, rest); }
    }
  }

  lemma RestIsApart(rows: seq<OverrideRow>, rest: seq<OverrideRow>)
    requires rows != [] && UniqueOverrides(rows) && forall r :: r in rest ==> r in rows[1..]
    ensures UniqueOverrides(rows[1..])
    ensures forall r :: r in rest ==> !SameOverride(rows[0], r)
  {
    forall r | r in rest ensures !SameOverride(rows[0], r) {
      var j :| 0 <= j < |rows[1..]| && rows[1..][j] == r;
      assert rows[j + 1] == r;
    }
  }

  /** Every operation keeps the constraints of the tables. */
  lemma ApplyKeepsDbOk(db: Rbac, op: AdminOp)
    requires DbOk(db) && Possible(db, op)
    ensures DbOk(Apply(db, op))
  {
    hide Trim, Upsert, DeleteOverride, DeleteAllOverrides, UniqueOverrides;
    if Verdict(db, op).Done? {
      match op
      case CreateRole(tenant, name, id) =>
        assert forall other :: other in db.roles && db.roles[other] == RoleRow(Trim(name), Some(tenant)) ==> Named(db, other, Trim(name), Some(tenant));
      case DeleteRole(tenant, roleId, _, _) => DeleteAllRows(db.overrides, tenant, roleId);
      case UpdatePermission(tenant, roleId, key, granted) => UpsertRows(db.overrides, OverrideRow(tenant, roleId, key, granted));
      case ResetPermission(tenant, roleId, key) => DeleteOverrideRows(db.overrides, tenant, roleId, key);
      case ResetRole(tenant, roleId) => DeleteAllRows(db.overrides, tenant, roleId);
    }
  }

  // ----- which answers an operation changes -----

  lemma LookupFinds(db: Rbac, role: string, tenant: Uuid)
    ensures match LookupRoleId(db, role, tenant)
            case Some(id) => Named(db, id, role, None) || (Named(db, id, role, Some(tenant)) && forall other :: !Named(db, other, role, None))
            case None => forall id :: !Named(db, id, role, None) && !Named(db, id, role, Some(tenant))
  {
  }

  /** Tables with the same roles under a name give the same lookup. */
  lemma LookupDependsOnNames(db: Rbac, db': Rbac, role: string, tenant: Uuid)
    requires DbOk(db) && DbOk(db')
    requires forall id :: Named(db, id, role, None) <==> Named(db', id, role, None)
    requires forall id :: Named(db, id, role, Some(tenant)) <==> Named(db', id, role, Some(tenant))
    ensures LookupRoleId(db, role, tenant) == LookupRoleId(db', role, tenant)
  {
    LookupFinds(db, role, tenant);
    LookupFinds(db', role, tenant);
  }

  /** The role name and tenant whose cache entry the operation invalidates. */
  ghost function Target(db: Rbac, op: AdminOp): (string, Uuid)
    requires op.CreateRole? || op.roleId in db.roles
  {
    (if op.CreateRole? then Trim(op.name) else db.roles[op.roleId].name, op.tenant)
  }

  /** A role that has just been created has no overrides, so its name still resolves to the global grants. */
  lemma CreateRoleChangesNothing(db: Rbac, t: Uuid, name: string, id: string, role: string, tenant: Uuid, key: string)
    requires DbOk(db) && id !in db.roles && Verdict(db, CreateRole(t, name, id)).Done?
    ensures Granted(Apply(db, CreateRole(t, name, id)), role, Some(tenant), key) <==> Granted(db, role, Some(tenant), key)
  {
    hide Trim, LookupRoleId;
    var db' := Apply(db, CreateRole(t, name, id));
    ApplyKeepsDbOk(db, CreateRole(t, name, id));
    LookupFinds(db, role, tenant);
    LookupFinds(db', role, tenant);
    if role != Trim(name) || tenant != t {
      LookupDependsOnNames(db, db', role, tenant);
    } else if LookupRoleId(db, role, t).Some? {
      SystemLookupStays(db, db', role, t);
    } else {
      assert Named(db', id, role, Some(t));
      assert forall other :: Named(db', other, role, None) ==> Named(db, other, role, None);
      assert forall other :: Named(db', other, role, Some(t)) && other != id ==> Named(db, other, role, Some(t));
    }
  }

  /**
   An accepted operation changes answers only for its own role name in its own tenant. Creating a role
   changes none at all, which is why it invalidates nothing.
   */
  lemma OnlyTargetChanges(db: Rbac, op: AdminOp, role: string, tenant: Option<Uuid>, key: string)
    requires DbOk(db) && Possible(db, op) && Verdict(db, op).Done?
    requires op.CreateRole? || (role, tenant) != (Target(db, op).0, Some(Target(db, op).1))
    ensures Granted(Apply(db, op), role, tenant, key) <==> Granted(db, role, tenant, key)
  {
    hide Trim, Upsert, DeleteOverride, DeleteAllOverrides, LookupRoleId;
    if role != "owner" && tenant.Some? {
      ApplyKeepsDbOk(db, op);
      var db' := Apply(db, op);
      LookupFinds(db, role, tenant.value);
      LookupFinds(db', role, tenant.value);
      match op
      case CreateRole(t, name, id) => CreateRoleChangesNothing(db, t, name, id, role, tenant.value, key);
      case DeleteRole(t, roleId, _, _) =>
        DeleteAllRows(db.overrides, t, roleId);
        LookupDependsOnNames(db, db', role, tenant.value);
      case UpdatePermission(t, roleId, k, granted) =>
        UpsertRows(db.overrides, OverrideRow(t, roleId, k, granted));
        LookupDependsOnNames(db, db', role, tenant.value);
      case ResetPermission(t, roleId, k) =>
        DeleteOverrideRows(db.overrides, t, roleId, k);
        LookupDependsOnNames(db, db', role, tenant.value);
      case ResetRole(t, roleId) =>
        DeleteAllRows(db.overrides, t, roleId);
        LookupDependsOnNames(db, db', role, tenant.value);
    }
  }

  lemma SystemLookupStays(db: Rbac, db': Rbac, role: string, tenant: Uuid)
    requires DbOk(db) && DbOk(db')
    requires forall id :: Named(db, id, role, None) <==> Named(db', id, role, None)
    requires LookupRoleId(db, role, tenant).Some? && forall id :: !Named(db, id, role, Some(tenant))
    ensures LookupRoleId(db, role, tenant) == LookupRoleId(db', role, tenant)
  {
    LookupFinds(db, role, tenant);
    LookupFinds(db', role, tenant);
  }

  // ----- what the target's answers become -----

  /** The role row is the one its own name resolves to; false exactly for a custom role named like a system role. */
  ghost predicate Effective(db: Rbac, roleId: string, tenant: Uuid)
    requires roleId in db.roles
  {
    LookupRoleId(db, db.roles[roleId].name, tenant) == Some(roleId)
  }

  lemma EffectiveIffNotShadowed(db: Rbac, roleId: string, tenant: Uuid)
    requires DbOk(db) && Accessible(db, roleId, tenant)
    ensures Effective(db, roleId, tenant) <==>
              (db.roles[roleId].tenant.Some? ==> forall other :: !Named(db, other, db.roles[roleId].name, None))
  {
    hide LookupRoleId;
    var row := db.roles[roleId];
    assert Named(db, roleId, row.name, row.tenant);
    LookupFinds(db, row.name, tenant);
  }

  /** Two operations on overrides leave every name lookup as it is. */
  lemma OverridesKeepLookup(db: Rbac, op: AdminOp, role: string, tenant: Uuid)
    requires DbOk(db) && !op.CreateRole? && !op.DeleteRole?
    ensures LookupRoleId(Apply(db, op), role, tenant) == LookupRoleId(db, role, tenant)
  {
    hide Trim, Upsert, DeleteOverride, DeleteAllOverrides, LookupRoleId;
    ApplyKeepsDbOk(db, op);
    LookupDependsOnNames(db, Apply(db, op), role, tenant);
  }

  /**
   Granting or revoking one key sets that key's answer and no other. If a system role has the same name,
   the write reaches no answer at all.
   */
  lemma UpdateChangesOneKey(db: Rbac, tenant: Uuid, roleId: string, key: string, granted: bool, k: string)
    requires DbOk(db) && Verdict(db, UpdatePermission(tenant, roleId, key, granted)).Done?
    ensures var db' := Apply(db, UpdatePermission(tenant, roleId, key, granted));
            var name := db.roles[roleId].name;
            Granted(db', name, Some(tenant), k) <==>
              if k == key && Effective(db, roleId, tenant) then granted else Granted(db, name, Some(tenant), k)
  {
    hide Upsert, LookupRoleId, DbOk;
    var op := UpdatePermission(tenant, roleId, key, granted);
    OverridesKeepLookup(db, op, db.roles[roleId].name, tenant);
    UniqueIn(db);
    UpsertRows(db.overrides, OverrideRow(tenant, roleId, key, granted));
  }

  /** Resetting one key gives back its global answer, and touches no other key. */
  lemma ResetRestoresOneKey(db: Rbac, tenant: Uuid, roleId: string, key: string, k: string)
    requires DbOk(db) && Verdict(db, ResetPermission(tenant, roleId, key)).Done?
    ensures var db' := Apply(db, ResetPermission(tenant, roleId, key));
            var name := db.roles[roleId].name;
            Granted(db', name, Some(tenant), k) <==>
              if k == key && Effective(db, roleId, tenant) then Globally(db, name, k) else Granted(db, name, Some(tenant), k)
  {
    hide DeleteOverride, LookupRoleId, DbOk;
    OverridesKeepLookup(db, ResetPermission(tenant, roleId, key), db.roles[roleId].name, tenant);
    DeleteOverrideRows(db.overrides, tenant, roleId, key);
  }

  /** Resetting a role, or deleting it, wholly or not, leaves its name with the global grants alone. */
  lemma ResetRestoresRole(db: Rbac, op: AdminOp, k: string)
    requires DbOk(db) && (op.ResetRole? || op.DeleteRole?) && Verdict(db, op).Done?
    requires Effective(db, op.roleId, op.tenant) && db.roles[op.roleId].name != "owner"
    ensures var name := db.roles[op.roleId].name;
            Granted(Apply(db, op), name, Some(op.tenant), k) <==> Globally(db, name, k)
  {
    hide DeleteAllOverrides, LookupRoleId;
    var name, db' := db.roles[op.roleId].name, Apply(db, op);
    DeleteAllRows(db.overrides, op.tenant, op.roleId);
    ApplyKeepsDbOk(db, op);
    if op.ResetRole? || !op.whole {
      LookupDependsOnNames(db, db', name, op.tenant);
    } else {
      LookupFinds(db, name, op.tenant);
      LookupFinds(db', name, op.tenant);
      assert Named(db, op.roleId, name, Some(op.tenant));
      assert forall other, t :: Named(db', other, name, t) ==> Named(db, other, name, t) && other != op.roleId;
      assert LookupRoleId(db', name, op.tenant).None?;
    }
  }

  /** An operation on the row of a shadowed role changes nothing for its name. */
  lemma ShadowedChangesNothing(db: Rbac, op: AdminOp, k: string)
    requires DbOk(db) && (op.ResetRole? || op.DeleteRole?) && Verdict(db, op).Done? && !Effective(db, op.roleId, op.tenant)
    ensures var name := db.roles[op.roleId].name;
            Granted(Apply(db, op), name, Some(op.tenant), k) <==> Granted(db, name, Some(op.tenant), k)
  {
    hide DeleteAllOverrides, LookupRoleId;
    var name, db' := db.roles[op.roleId].name, Apply(db, op);
    DeleteAllRows(db.overrides, op.tenant, op.roleId);
    ApplyKeepsDbOk(db, op);
    EffectiveIffNotShadowed(db, op.roleId, op.tenant);
    LookupFinds(db, name, op.tenant);
    LookupFinds(db', name, op.tenant);
    var system :| Named(db, system, name, None);
    assert system != op.roleId;
    assert Named(db', system, name, None);
    assert forall other :: Named(db', other, name, None) ==> Named(db, other, name, None);
  }

  // ----- an entry that a lost deletion leaves in the cache -----

  /** The keys already are what the operation leaves the name with, wherever the operation decides that. */
  ghost predicate KeepsEntry(db: Rbac, op: AdminOp, keys: set<string>)
    requires !op.CreateRole? && op.roleId in db.roles
  {
    var name := db.roles[op.roleId].name;
    || name == "owner" || !Effective(db, op.roleId, op.tenant)
    || match op
       case UpdatePermission(_, _, key, granted) => key in keys <==> granted
       case ResetPermission(_, _, key) => key in keys <==> Globally(db, name, key)
       case _ => forall k :: k in keys <==> Globally(db, name, k)
  }

  /** What an accepted operation leaves its target with, key by key. */
  lemma TargetAfter(db: Rbac, op: AdminOp, k: string)
    requires DbOk(db) && !op.CreateRole? && Verdict(db, op).Done?
    ensures var name := db.roles[op.roleId].name;
            Granted(Apply(db, op), name, Some(op.tenant), k) <==>
              if name == "owner" || !Effective(db, op.roleId, op.tenant) then Granted(db, name, Some(op.tenant), k)
              else
                match op
                case UpdatePermission(_, _, key, granted) => if k == key then granted else Granted(db, name, Some(op.tenant), k)
                case ResetPermission(_, _, key) => if k == key then Globally(db, name, k) else Granted(db, name, Some(op.tenant), k)
                case _ => Globally(db, name, k)
  {
    var name := db.roles[op.roleId].name;
    if name == "owner" {
      OwnerIsFixed(db, op, k);
    } else {
      hide DbOk, Granted, Apply, Effective;
      if op.UpdatePermission? {
        UpdateChangesOneKey(db, op.tenant, op.roleId, op.key, op.granted, k);
      } else if op.ResetPermission? {
        ResetRestoresOneKey(db, op.tenant, op.roleId, op.key, k);
      } else if Effective(db, op.roleId, op.tenant) {
        ResetRestoresRole(db, op, k);
      } else {
        ShadowedChangesNothing(db, op, k);
      }
    }
  }

  lemma OwnerIsFixed(db: Rbac, op: AdminOp, k: string)
    ensures Granted(Apply(db, op), "owner", Some(op.tenant), k) <==> Granted(db, "owner", Some(op.tenant), k)
  {
  }

  /** A right entry that the operation leaves in the cache is still right if and only if it already had what the operation decides. */
  lemma KeptEntryIsRightIff(db: Rbac, op: AdminOp, keys: set<string>)
    requires DbOk(db) && !op.CreateRole? && Verdict(db, op).Done?
    requires Resolves(db, db.roles[op.roleId].name, Some(op.tenant), keys)
    ensures Resolves(Apply(db, op), db.roles[op.roleId].name, Some(op.tenant), keys) <==> KeepsEntry(db, op, keys)
  {
    var name := db.roles[op.roleId].name;
    hide DbOk, Granted, Apply, Effective, Globally;
    forall k
      ensures Granted(Apply(db, op), name, Some(op.tenant), k) <==>
                if name == "owner" || !Effective(db, op.roleId, op.tenant) then Granted(db, name, Some(op.tenant), k)
                else
                  match op
                  case UpdatePermission(_, _, key, granted) => if k == key then granted else Granted(db, name, Some(op.tenant), k)
                  case ResetPermission(_, _, key) => if k == key then Globally(db, name, k) else Granted(db, name, Some(op.tenant), k)
                  case _ => Globally(db, name, k)
    {
      TargetAfter(db, op, k);
    }
  }

  lemma UniqueIn(db: Rbac)
    requires DbOk(db)
    ensures UniqueOverrides(db.overrides)
  {
  }
}
