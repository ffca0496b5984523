/**
 `PermissionsService` and `AccessControlService` over mutable tables, a mutable cache and the per-process
 memo of system role ids. Every read is given the queries that fail during it.
 */
module PermissionService {
  import opened Options
  import opened Strings
  import opened Permissions
  import opened FailedQueries
  import opened RoleCache

  class PermissionsService {
    var db: Rbac
    var cache: map<string, set<string>>
    var systemRoleIds: map<string, string>
    ghost var doubted: set<string>

    constructor (db: Rbac)
      requires DbOk(db)
      ensures Valid() && this.db == db && cache == map[]
    {
      this.db, this.cache, this.systemRoleIds, this.doubted := db, map[], map[], {};
    }

    ghost function State(): Service
      reads this
    {
      Service(db, cache)
    }

    ghost predicate Valid()
      reads this
    {
      && Coherent(State(), doubted)
      && forall name :: name in systemRoleIds ==> Named(db, systemRoleIds[name], name, None)
    }

    /** The failures that a read of this role comes to: a system role id that is remembered is not queried. */
    function Met(role: string, f: Faults): Faults
      reads this`systemRoleIds
    {
      f.(system := f.system && role !in systemRoleIds)
    }

    method LookupSystemRoleId(role: string, fails: bool) returns (id: Option<string>)
      requires Valid()
      modifies this`systemRoleIds
      ensures Valid()
      ensures match id
              case Some(r) => Named(db, r, role, None) && !(fails && role !in old(systemRoleIds))
              case None => (fails && role !in old(systemRoleIds)) || forall r :: !Named(db, r, role, None)
    {
      hide CacheKey, Resolves;
      if role in systemRoleIds { return Some(systemRoleIds[role]); }
      if fails { return None; }
      if r :| r in db.roles && db.roles[r] == RoleRow(role, None) {
        systemRoleIds := systemRoleIds[role := r];
        return Some(r);
      }
      id := None;
    }

    method LookupId(role: string, tenant: Uuid, f: Faults) returns (id: Option<string>)
      requires Valid()
      modifies this`systemRoleIds
      ensures Valid()
      ensures id == LookupRoleId(Seen(db, old(Met(role, f))), role, tenant)
    {
      hide CacheKey, Resolves, LookupRoleId;
      ghost var seen := Seen(db, Met(role, f));
      LookupFinds(seen, role, tenant);
      SeenNames(db, Met(role, f), role, tenant);
      id := LookupSystemRoleId(role, f.system);
      if id.None? && !f.custom {
        if r :| r in db.roles && db.roles[r] == RoleRow(role, Some(tenant)) {
          assert Named(db, r, role, Some(tenant));
          id := Some(r);
        }
      }
    }

    method FetchGlobalGrants(role: string, fails: bool) returns (keys: set<string>)
      ensures forall k :: k in keys <==> !fails && Globally(db, role, k)
    {
      if fails { return {}; }
      keys := if role in db.globals then db.globals[role] else {};
    }

    method FetchAllTenantPermissionKeys(fails: bool) returns (keys: set<string>)
      ensures forall k :: k in keys <==> !fails && TenantKey(db, k)
    {
      if fails { return {}; }
      keys := set k | k in db.catalogue && db.catalogue[k] != "superadmin";
    }

    method FetchTenantOverrides(tenant: Uuid, roleId: string, fails: bool) returns (rows: seq<OverrideRow>)
      ensures rows == TenantOverrides(if fails then [] else db.overrides, tenant, roleId)
    {
      if fails { return []; }
      rows := TenantOverrides(db.overrides, tenant, roleId);
    }

    method ResolveGrantedKeys(role: string, tenant: Option<Uuid>, f: Faults) returns (keys: set<string>)
      requires Valid()
      modifies this`systemRoleIds
      ensures Valid() && Resolves(Seen(db, old(Met(role, f))), role, tenant, keys)
    {
      hide CacheKey, LookupRoleId, TenantOverrides;
      ghost var seen := Seen(db, Met(role, f));
      if role == "owner" {
        keys := FetchAllTenantPermissionKeys(f.catalogue);
        return;
      }
      keys := FetchGlobalGrants(role, f.globals);
      if tenant.None? { return; }
      var roleId := LookupId(role, tenant.value, f);
      if roleId.None? { return; }
      var rows := FetchTenantOverrides(tenant.value, roleId.value, f.overrides);
      TenantOverridesUnique(seen.overrides, tenant.value, roleId.value);
      RowsAreOverrides(seen, tenant.value, roleId.value, rows);
      if rows == [] { return; }
      keys := MergeOverrides(keys, rows);
    }

    /** A hit serves the entry; a miss resolves and fills it. The answer is a fresh resolution exactly when the entry is not in doubt. */
    method GetGrantedSet(role: string, tenant: Option<Uuid>, f: Faults) returns (keys: set<string>)
      requires Valid()
      modifies this`systemRoleIds, this`cache, this`doubted
      ensures Valid() && CacheKey(role, tenant) in cache && cache[CacheKey(role, tenant)] == keys
      ensures Resolves(db, role, tenant, keys) <==> CacheKey(role, tenant) !in doubted
      ensures Step(old(State()), Read(role, tenant, old(Met(role, f))), State())
      ensures doubted == DoubtedAfter(old(State()), old(doubted), Read(role, tenant, old(Met(role, f))))
    {
      hide CacheKey, Resolves, Seen, Excusable;
      var key := CacheKey(role, tenant);
      if key in cache { return cache[key]; }
      ghost var before, op := State(), Read(role, tenant, Met(role, f));
      keys := ResolveGrantedKeys(role, tenant, f);
      cache := cache[key := keys];
      StepKeepsCoherent(before, doubted, op, State());
      doubted := DoubtedAfter(before, doubted, op);
    }

    /** The enforced answer: the owner may do anything, everyone else what the tables grant now, unless the entry is in doubt. */
    method HasPermission(role: string, key: string, tenant: Option<Uuid>, f: Faults) returns (b: bool)
      requires Valid()
      modifies this`systemRoleIds, this`cache, this`doubted
      ensures Valid()
      ensures role == "owner" ==> b && State() == old(State())
      ensures role != "owner" ==>
                && Step(old(State()), Read(role, tenant, old(Met(role, f))), State())
                && doubted == DoubtedAfter(old(State()), old(doubted), Read(role, tenant, old(Met(role, f))))
                && CacheKey(role, tenant) in cache && (b <==> key in cache[CacheKey(role, tenant)])
      ensures role != "owner" && CacheKey(role, tenant) !in doubted ==> (b <==> Granted(db, role, tenant, key))
    {
      hide CacheKey, Granted, Step, DoubtedAfter, Coherent;
      if role == "owner" { return true; }
      var granted := GetGrantedSet(role, tenant, f);
      b := key in granted;
    }

    /** The admin view bypasses the cache; it shows what is granted exactly when its own failures are excusable. */
    method GetResolutionDetail(role: string, tenant: Option<Uuid>, f: Faults) returns (grantedKeys: set<string>, overrides: map<string, bool>)
      requires Valid()
      modifies this`systemRoleIds
      ensures Valid() && (Resolves(db, role, tenant, grantedKeys) <==> Excusable(db, role, tenant, old(Met(role, f))))
      ensures forall k, b :: k in overrides && overrides[k] == b <==>
                role != "owner" && OverrideOf(Seen(db, old(Met(role, f))), role, tenant, k, b)
    {
      hide CacheKey, LookupRoleId, TenantOverrides, Excusable, DbOk;
      ghost var seen := Seen(db, Met(role, f));
      overrides := map[];
      if role == "owner" {
        grantedKeys := FetchAllTenantPermissionKeys(f.catalogue);
        AnswerIsRightIff(db, role, tenant, Met(role, f), grantedKeys);
        return;
      }
      ghost var met := Met(role, f);
      grantedKeys := FetchGlobalGrants(role, f.globals);
      if tenant.None? {
        AnswerIsRightIff(db, role, tenant, met, grantedKeys);
        return;
      }
      var roleId := LookupId(role, tenant.value, f);
      if roleId.None? {
        AnswerIsRightIff(db, role, tenant, met, grantedKeys);
        return;
      }
      var rows := FetchTenantOverrides(tenant.value, roleId.value, f.overrides);
      SeenRowsUnique(db, met);
      TenantOverridesUnique(seen.overrides, tenant.value, roleId.value);
      grantedKeys, overrides := MergeAndRecord(grantedKeys, rows);
      DetailResolves(seen, role, tenant.value, roleId.value, rows, grantedKeys, overrides);
      AnswerIsRightIff(db, role, tenant, met, grantedKeys);
    }

    /** The cache swallows the error of a deletion. */
    method InvalidateRole(role: string, tenant: Uuid, works: bool)
      modifies this`cache
      ensures cache == if works then old(cache) - {CacheKey(role, Some(tenant))} else old(cache)
    {
      if works { cache := cache - {CacheKey(role, Some(tenant))}; }
    }

    method CreateRole(tenant: Uuid, name: string, id: string) returns (answer: Answer)
      requires Valid() && id !in db.roles
      modifies this`db
      ensures Valid() && answer == Verdict(old(db), AdminOp.CreateRole(tenant, name, id))
      ensures var fine := Trim(name) != "" && forall other :: other in old(db).roles ==> old(db).roles[other] != RoleRow(Trim(name), Some(tenant));
              && answer == (if fine then Done else Forbidden)
              && db == if fine then old(db).(roles := old(db).roles[id := RoleRow(Trim(name), Some(tenant))]) else old(db)
      ensures State() == AfterAdmin(old(State()), AdminOp.CreateRole(tenant, name, id), true)
    {
      hide Resolves, CacheKey, Trim;
      ghost var before, op := State(), AdminOp.CreateRole(tenant, name, id);
      AdminKeepsCoherent(before, doubted, op, true);
      VerdictSays(db, op);
      var trimmed := Trim(name);
      if trimmed == "" { return Forbidden; }
      if other :| other in db.roles && db.roles[other] == RoleRow(trimmed, Some(tenant)) {
        assert Named(db, other, trimmed, Some(tenant));
        return Forbidden;
      }
      db := db.(roles := db.roles[id := RoleRow(trimmed, Some(tenant))]);
      answer := Done;
    }

    method DeleteRole(tenant: Uuid, roleId: string, userCount: nat, whole: bool, dropped: bool) returns (answer: Answer)
      requires Valid()
      modifies this`db, this`cache, this`doubted
      ensures Valid()
      ensures var verdict := Verdict(old(db), AdminOp.DeleteRole(tenant, roleId, userCount, whole));
              answer == if verdict.Done? && !whole then DatabaseFailed else verdict
      ensures answer == NotFound <==> roleId !in old(db).roles
      ensures answer == Done || answer == DatabaseFailed <==>
                roleId in old(db).roles && old(db).roles[roleId].tenant == Some(tenant) && userCount == 0
      ensures answer == Done ==> roleId !in db.roles && forall o :: o in db.overrides <==> o in old(db).overrides && !(o.tenant == tenant && o.role == roleId)
      ensures answer == NotFound || answer == Forbidden ==> db == old(db)
      ensures State() == AfterAdmin(old(State()), AdminOp.DeleteRole(tenant, roleId, userCount, whole), dropped)
      ensures doubted == DoubtedAfter(old(State()), old(doubted), Admin(AdminOp.DeleteRole(tenant, roleId, userCount, whole), dropped))
    {
      hide Resolves, CacheKey, EntryStaysRight;
      ghost var before, op := State(), AdminOp.DeleteRole(tenant, roleId, userCount, whole);
      AdminKeepsCoherent(before, doubted, op, dropped);
      VerdictSays(db, op);
      if Verdict(db, op).Done? { RowsAfter(db, op); }
      answer := AccessError(db, roleId, tenant);
      if !answer.Done? { return; }
      var role := db.roles[roleId];
      if role.tenant != Some(tenant) || userCount > 0 { return Forbidden; }
      db := db.(overrides := DeleteAllOverrides(db.overrides, tenant, roleId));
      if !whole {
        doubted := DoubtedAfter(before, doubted, Admin(op, dropped));
        return DatabaseFailed;
      }
      db := db.(roles := db.roles - {roleId});
      InvalidateRole(role.name, tenant, dropped);
      doubted := DoubtedAfter(before, doubted, Admin(op, dropped));
    }

    method UpdatePermission(tenant: Uuid, roleId: string, key: string, granted: bool, dropped: bool) returns (answer: Answer)
      requires Valid()
      modifies this`db, this`cache, this`doubted
      ensures Valid() && answer == Verdict(old(db), AdminOp.UpdatePermission(tenant, roleId, key, granted))
      ensures var editable := roleId in old(db).roles && (old(db).roles[roleId].tenant == None || old(db).roles[roleId].tenant == Some(tenant))
                              && old(db).roles[roleId].name != "owner" && old(db).roles[roleId].name != "superadmin";
              && (answer == Done <==> editable && key in db.catalogue && db.catalogue[key] != "superadmin"
                                      && key != "analytics.view.all" && key != "audit.view.all")
              && (answer == NotFound <==> roleId !in old(db).roles || (editable && key !in db.catalogue))
      ensures answer == Done ==> forall o :: o in db.overrides <==>
                || o == OverrideRow(tenant, roleId, key, granted)
                || (o in old(db).overrides && !(o.tenant == tenant && o.role == roleId && o.key == key))
      ensures answer != Done ==> db == old(db)
      ensures State() == AfterAdmin(old(State()), AdminOp.UpdatePermission(tenant, roleId, key, granted), dropped)
      ensures doubted == DoubtedAfter(old(State()), old(doubted), Admin(AdminOp.UpdatePermission(tenant, roleId, key, granted), dropped))
    {
      hide Resolves, CacheKey, EntryStaysRight;
      ghost var before, op := State(), AdminOp.UpdatePermission(tenant, roleId, key, granted);
      AdminKeepsCoherent(before, doubted, op, dropped);
      VerdictSays(db, op);
      if Verdict(db, op).Done? { RowsAfter(db, op); }
      answer := EditError(db, roleId, tenant);
      if !answer.Done? { return; }
      answer := KeyError(db, key);
      if !answer.Done? { return; }
      db := db.(overrides := Upsert(db.overrides, OverrideRow(tenant, roleId, key, granted)));
      InvalidateRole(db.roles[roleId].name, tenant, dropped);
      doubted := DoubtedAfter(before, doubted, Admin(op, dropped));
    }

    /** Deletes the override, then reports what the role has now, through the cached path. */
    method ResetPermission(tenant: Uuid, roleId: string, key: string, dropped: bool, f: Faults) returns (answer: Answer, grantedNow: bool)
      requires Valid()
      modifies this
      ensures Valid() && answer == Verdict(old(db), AdminOp.ResetPermission(tenant, roleId, key))
      ensures answer == NotFound <==> roleId !in old(db).roles
      ensures answer == Done <==>
                && roleId in old(db).roles && (old(db).roles[roleId].tenant == None || old(db).roles[roleId].tenant == Some(tenant))
                && old(db).roles[roleId].name != "owner" && old(db).roles[roleId].name != "superadmin"
      ensures answer == Done ==> forall o :: o in db.overrides <==> o in old(db).overrides && !(o.tenant == tenant && o.role == roleId && o.key == key)
      ensures answer != Done ==> db == old(db)
      ensures db == Apply(old(db), AdminOp.ResetPermission(tenant, roleId, key))
      ensures !answer.Done? ==> State() == old(State()) && doubted == old(doubted)
      ensures answer.Done? ==>
                var name := old(db).roles[roleId].name;
                var op, read := Admin(AdminOp.ResetPermission(tenant, roleId, key), dropped), Read(name, Some(tenant), old(Met(name, f)));
                var mid := AfterAdmin(old(State()), op.op, dropped);
                && Step(mid, read, State()) && doubted == DoubtedAfter(mid, DoubtedAfter(old(State()), old(doubted), op), read)
                && CacheKey(name, Some(tenant)) in cache && (grantedNow <==> key in cache[CacheKey(name, Some(tenant))])
                && (CacheKey(name, Some(tenant)) !in doubted ==> (grantedNow <==> Granted(db, name, Some(tenant), key)))
    {
      hide Resolves, CacheKey, Excusable, Granted, EntryStaysRight, Step;
      ghost var before, op := State(), AdminOp.ResetPermission(tenant, roleId, key);
      AdminKeepsCoherent(before, doubted, op, dropped);
      VerdictSays(db, op);
      if Verdict(db, op).Done? { RowsAfter(db, op); }
      answer, grantedNow := EditError(db, roleId, tenant), false;
      if !answer.Done? { return; }
      db := db.(overrides := DeleteOverride(db.overrides, tenant, roleId, key));
      InvalidateRole(db.roles[roleId].name, tenant, dropped);
      doubted := DoubtedAfter(before, doubted, Admin(op, dropped));
      grantedNow := HasPermission(db.roles[roleId].name, key, Some(tenant), f);
    }

    method ResetRole(tenant: Uuid, roleId: string, dropped: bool) returns (answer: Answer)
      requires Valid()
      modifies this`db, this`cache, this`doubted
      ensures Valid() && answer == Verdict(old(db), AdminOp.ResetRole(tenant, roleId))
      ensures answer == NotFound <==> roleId !in old(db).roles
      ensures answer == Done <==>
                && roleId in old(db).roles && (old(db).roles[roleId].tenant == None || old(db).roles[roleId].tenant == Some(tenant))
                && old(db).roles[roleId].name != "owner" && old(db).roles[roleId].name != "superadmin"
      ensures answer == Done ==> forall o :: o in db.overrides <==> o in old(db).overrides && !(o.tenant == tenant && o.role == roleId)
      ensures answer != Done ==> db == old(db)
      ensures State() == AfterAdmin(old(State()), AdminOp.ResetRole(tenant, roleId), dropped)
      ensures doubted == DoubtedAfter(old(State()), old(doubted), Admin(AdminOp.ResetRole(tenant, roleId), dropped))
    {
      hide Resolves, CacheKey, EntryStaysRight;
      ghost var before, op := State(), AdminOp.ResetRole(tenant, roleId);
      AdminKeepsCoherent(before, doubted, op, dropped);
      VerdictSays(db, op);
      if Verdict(db, op).Done? { RowsAfter(db, op); }
      answer := EditError(db, roleId, tenant);
      if !answer.Done? { return; }
      db := db.(overrides := DeleteAllOverrides(db.overrides, tenant, roleId));
      InvalidateRole(db.roles[roleId].name, tenant, dropped);
      doubted := DoubtedAfter(before, doubted, Admin(op, dropped));
    }
  }

  /** The admin view's loop: the same merge, and each override remembered under its key. */
  method MergeAndRecord(globals: set<string>, rows: seq<OverrideRow>) returns (merged: set<string>, overrides: map<string, bool>)
    requires UniqueOverrides(rows)
    requires forall i, j :: 0 <= i < j < |rows| ==> rows[i].tenant == rows[j].tenant && rows[i].role == rows[j].role
    ensures forall k :: k in merged <==> if k in overrides then overrides[k] else k in globals
    ensures forall i :: 0 <= i < |rows| ==> rows[i].key in overrides && overrides[rows[i].key] == rows[i].granted
    ensures forall k :: k in overrides ==> exists i :: 0 <= i < |rows| && rows[i].key == k && rows[i].granted == overrides[k]
  {
    hide UniqueOverrides, SameOverride;
    KeysDiffer(rows);
    merged, overrides := globals, map[];
    for n := 0 to |rows|
      invariant forall k :: k in merged <==> if k in overrides then overrides[k] else k in globals
      invariant forall k :: k in overrides ==> exists i :: 0 <= i < n && rows[i].key == k && rows[i].granted == overrides[k]
      invariant forall i :: 0 <= i < n ==> rows[i].key in overrides && overrides[rows[i].key] == rows[i].granted
    {
      overrides := overrides[rows[n].key := rows[n].granted];
      if rows[n].granted { merged := merged + {rows[n].key}; } else { merged := merged - {rows[n].key}; }
    }
  }

  lemma DetailResolves(db: Rbac, role: string, tenant: Uuid, id: string, rows: seq<OverrideRow>, merged: set<string>, overrides: map<string, bool>)
    requires role != "owner" && LookupRoleId(db, role, tenant) == Some(id) && rows == TenantOverrides(db.overrides, tenant, id)
    requires forall k :: k in merged <==> if k in overrides then overrides[k] else Globally(db, role, k)
    requires forall i :: 0 <= i < |rows| ==> rows[i].key in overrides && overrides[rows[i].key] == rows[i].granted
    requires forall k :: k in overrides ==> exists i :: 0 <= i < |rows| && rows[i].key == k && rows[i].granted == overrides[k]
    ensures Resolves(db, role, Some(tenant), merged)
    ensures forall k, b :: OverrideOf(db, role, Some(tenant), k, b) <==> k in overrides && overrides[k] == b
  {
    hide LookupRoleId, TenantOverrides;
    RowsAreOverrides(db, tenant, id, rows);
    forall k, b ensures OverrideOf(db, role, Some(tenant), k, b) <==> k in overrides && overrides[k] == b {
      assert Overridden(db, tenant, id, k, b) <==> exists i :: 0 <= i < |rows| && rows[i].key == k && rows[i].granted == b;
    }
    forall k ensures k in merged <==> Granted(db, role, Some(tenant), k) {
      assert OverrideOf(db, role, Some(tenant), k, true) <==> k in overrides && overrides[k];
      assert OverrideOf(db, role, Some(tenant), k, false) <==> k in overrides && !overrides[k];
    }
  }

  lemma KeysDiffer(rows: seq<OverrideRow>)
    requires UniqueOverrides(rows)
    requires forall i, j :: 0 <= i < j < |rows| ==> rows[i].tenant == rows[j].tenant && rows[i].role == rows[j].role
    ensures forall i, j :: 0 <= i < j < |rows| ==> rows[i].key != rows[j].key
  {
    forall i, j | 0 <= i < j < |rows| ensures rows[i].key != rows[j].key { assert !SameOverride(rows[i], rows[j]); }
  }

  /** Which role rows of a name the lookups still find. */
  lemma SeenNames(db: Rbac, f: Faults, role: string, tenant: Uuid)
    ensures forall id :: Named(Seen(db, f), id, role, None) <==> !f.system && Named(db, id, role, None)
    ensures forall id :: Named(Seen(db, f), id, role, Some(tenant)) <==> !f.custom && Named(db, id, role, Some(tenant))
  {
  }

  lemma SeenRowsUnique(db: Rbac, f: Faults)
    requires DbOk(db)
    ensures UniqueOverrides(Seen(db, f).overrides)
  {
  }

  lemma RowsAreOverrides(db: Rbac, tenant: Uuid, roleId: string, rows: seq<OverrideRow>)
    requires rows == TenantOverrides(db.overrides, tenant, roleId)
    ensures forall k, b :: Overridden(db, tenant, roleId, k, b) <==> exists i :: 0 <= i < |rows| && rows[i].key == k && rows[i].granted == b
  {
    forall k, b ensures Overridden(db, tenant, roleId, k, b) <==> exists i :: 0 <= i < |rows| && rows[i].key == k && rows[i].granted == b {
      if Overridden(db, tenant, roleId, k, b) {
        assert OverrideRow(tenant, roleId, k, b) in rows;
      }
      if i :| 0 <= i < |rows| && rows[i].key == k && rows[i].granted == b {
        assert rows[i] == OverrideRow(tenant, roleId, k, b);
      }
    }
  }
}
