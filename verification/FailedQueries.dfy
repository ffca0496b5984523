/**
 Every query of a permission resolution swallows its error and answers as if there were no rows. What a resolution
 then gives, and exactly when it is right all the same.
 */
module FailedQueries {
  import opened Options
  import opened Permissions

  /** Which queries of one resolution fail: permission catalogue, global grants, system role, tenant role, tenant overrides. */
  datatype Faults = Faults(catalogue: bool, globals: bool, system: bool, custom: bool, overrides: bool)

  const NO_FAULTS := Faults(false, false, false, false, false)

  /** The tables as such a resolution sees them: the rows of a failed query are not there. */
  function Seen(db: Rbac, f: Faults): Rbac {
    Rbac(map id | id in db.roles && !(if db.roles[id].tenant.None? then f.system else f.custom) :: db.roles[id],
         if f.overrides then [] else db.overrides,
         if f.globals then map[] else db.globals,
         if f.catalogue then map[] else db.catalogue)
  }

  lemma NothingFailed(db: Rbac)
    ensures Seen(db, NO_FAULTS) == db
  {
    assert Seen(db, NO_FAULTS).roles == db.roles;
  }

  /**
   A query fails that comes before the overrides. The catalogue is read only for the owner, the roles only for a tenant, and
   the tenant's own role only when the lookup finds no system role of the name.
   */
  ghost predicate LookUpFails(db: Rbac, role: string, tenant: Option<Uuid>, f: Faults) {
    if role == "owner" then f.catalogue
    else f.globals || (tenant.Some? && (f.system || (f.custom && forall id :: !Named(db, id, role, None))))
  }

  /** Failures of queries that are not made show in nothing. */
  lemma UnmadeQueriesShowNothing(db: Rbac, role: string, tenant: Uuid, f: Faults)
    requires DbOk(db) && role != "owner" && !LookUpFails(db, role, Some(tenant), f)
    ensures LookupRoleId(Seen(db, f), role, tenant) == LookupRoleId(db, role, tenant)
  {
    hide LookupRoleId;
    LookupFinds(db, role, tenant);
    LookupFinds(Seen(db, f), role, tenant);
    assert forall id :: Named(Seen(db, f), id, role, None) <==> Named(db, id, role, None);
    assert forall id :: Named(Seen(db, f), id, role, Some(tenant)) <==> !f.custom && Named(db, id, role, Some(tenant));
  }

  // ----- when the answer is right -----

  /** The tenant overrides this key for the role row that the name leads to. */
  ghost predicate OverrideOf(db: Rbac, role: string, tenant: Option<Uuid>, key: string, granted: bool) {
    tenant.Some? && LookupRoleId(db, role, tenant.value).Some? && Overridden(db, tenant.value, LookupRoleId(db, role, tenant.value).value, key, granted)
  }

  ghost predicate AnyOverride(db: Rbac, role: string, tenant: Option<Uuid>, key: string) {
    OverrideOf(db, role, tenant, key, true) || OverrideOf(db, role, tenant, key, false)
  }

  /** Each override in one view of the tables is matched in the other: by the same override, or, where there is none, by the global grant. */
  ghost predicate Matched(a: Rbac, b: Rbac, role: string, tenant: Option<Uuid>) {
    forall k, granted :: OverrideOf(a, role, tenant, k, granted) ==>
                           if AnyOverride(b, role, tenant, k) then OverrideOf(b, role, tenant, k, granted) else granted == Globally(b, role, k)
  }

  /** The failures lose nothing that matters: a condition on the rows. */
  ghost predicate Excusable(db: Rbac, role: string, tenant: Option<Uuid>, f: Faults) {
    if role == "owner" then f.catalogue ==> forall k :: !TenantKey(db, k)
    else
      && Matched(db, Seen(db, f), role, tenant) && Matched(Seen(db, f), db, role, tenant)
      && (f.globals ==> forall k :: Globally(db, role, k) ==> AnyOverride(db, role, tenant, k) || AnyOverride(Seen(db, f), role, tenant, k))
  }

  lemma OneOverride(db: Rbac, f: Faults, role: string, tenant: Option<Uuid>, key: string)
    requires DbOk(db)
    ensures !(OverrideOf(db, role, tenant, key, true) && OverrideOf(db, role, tenant, key, false))
    ensures !(OverrideOf(Seen(db, f), role, tenant, key, true) && OverrideOf(Seen(db, f), role, tenant, key, false))
  {
    hide LookupRoleId;
    forall t, id | Overridden(db, t, id, key, true) ensures !Overridden(db, t, id, key, false) {
      assert SameOverride(OverrideRow(t, id, key, true), OverrideRow(t, id, key, false));
    }
  }

  lemma GrantedByOverride(db: Rbac, role: string, tenant: Option<Uuid>, key: string)
    requires role != "owner"
    ensures Granted(db, role, tenant, key) <==>
              OverrideOf(db, role, tenant, key, true) || (Globally(db, role, key) && !OverrideOf(db, role, tenant, key, false))
  {
    hide LookupRoleId;
  }

  /** One key is answered alike when its rows are matched, and only then. */
  lemma SameAnswerIff(db: Rbac, f: Faults, role: string, tenant: Option<Uuid>, k: string)
    requires DbOk(db) && role != "owner"
    ensures (Granted(Seen(db, f), role, tenant, k) <==> Granted(db, role, tenant, k)) <==>
              && (forall g :: OverrideOf(db, role, tenant, k, g) ==>
                    if AnyOverride(Seen(db, f), role, tenant, k) then OverrideOf(Seen(db, f), role, tenant, k, g) else g == Globally(Seen(db, f), role, k))
              && (forall g :: OverrideOf(Seen(db, f), role, tenant, k, g) ==>
                    if AnyOverride(db, role, tenant, k) then OverrideOf(db, role, tenant, k, g) else g == Globally(db, role, k))
              && (f.globals && Globally(db, role, k) ==> AnyOverride(db, role, tenant, k) || AnyOverride(Seen(db, f), role, tenant, k))
  {
    var seen := Seen(db, f);
    assert Globally(seen, role, k) == (!f.globals && Globally(db, role, k));
    hide OverrideOf, Seen, Granted, Globally, DbOk;
    OneOverride(db, f, role, tenant, k);
    GrantedByOverride(db, role, tenant, k);
    GrantedByOverride(seen, role, tenant, k);
  }

  /** The failures change no answer if and only if they are excusable. */
  lemma SameAnswersIff(db: Rbac, role: string, tenant: Option<Uuid>, f: Faults)
    requires DbOk(db)
    ensures (forall k :: Granted(Seen(db, f), role, tenant, k) <==> Granted(db, role, tenant, k)) <==> Excusable(db, role, tenant, f)
  {
    if role == "owner" {
      OwnerAnswersIff(db, tenant, f);
    } else {
      hide OverrideOf, AnyOverride, Seen, Granted, Globally, DbOk;
      forall k
        ensures (Granted(Seen(db, f), role, tenant, k) <==> Granted(db, role, tenant, k)) <==>
                  && (forall g :: OverrideOf(db, role, tenant, k, g) ==>
                        if AnyOverride(Seen(db, f), role, tenant, k) then OverrideOf(Seen(db, f), role, tenant, k, g) else g == Globally(Seen(db, f), role, k))
                  && (forall g :: OverrideOf(Seen(db, f), role, tenant, k, g) ==>
                        if AnyOverride(db, role, tenant, k) then OverrideOf(db, role, tenant, k, g) else g == Globally(db, role, k))
                  && (f.globals && Globally(db, role, k) ==> AnyOverride(db, role, tenant, k) || AnyOverride(Seen(db, f), role, tenant, k))
      {
        SameAnswerIff(db, f, role, tenant, k);
      }
    }
  }

  lemma OwnerAnswersIff(db: Rbac, tenant: Option<Uuid>, f: Faults)
    ensures (forall k :: Granted(Seen(db, f), "owner", tenant, k) <==> Granted(db, "owner", tenant, k)) <==> Excusable(db, "owner", tenant, f)
  {
    assert forall k :: Granted(db, "owner", tenant, k) == TenantKey(db, k);
    assert forall k :: Granted(Seen(db, f), "owner", tenant, k) == (!f.catalogue && TenantKey(db, k));
  }

  /** What a resolution with these failures gives is right if and only if the failures are excusable. */
  lemma AnswerIsRightIff(db: Rbac, role: string, tenant: Option<Uuid>, f: Faults, keys: set<string>)
    requires DbOk(db) && Resolves(Seen(db, f), role, tenant, keys)
    ensures Resolves(db, role, tenant, keys) <==> Excusable(db, role, tenant, f)
  {
    hide Excusable, Granted, Seen, DbOk;
    SameAnswersIff(db, role, tenant, f);
  }

  // ----- what single failures do -----

  /** When the overrides are lost, by their own query or by the role lookups, the answer is right if and only if every override repeats the global grant. */
  lemma LostOverridesIff(db: Rbac, role: string, tenant: Uuid, f: Faults)
    requires DbOk(db) && role != "owner" && !f.globals
    requires f.overrides || LookupRoleId(Seen(db, f), role, tenant).None?
    ensures Excusable(db, role, Some(tenant), f) <==>
              forall k, granted :: OverrideOf(db, role, Some(tenant), k, granted) ==> granted == Globally(db, role, k)
  {
    assert forall k, g :: !OverrideOf(Seen(db, f), role, Some(tenant), k, g);
    assert forall k :: Globally(Seen(db, f), role, k) == Globally(db, role, k);
    hide OverrideOf, Seen, DbOk, Globally;
  }

  /** When only the global grants are lost, the answer is right if and only if every one of them is overridden. */
  lemma LostGrantsIff(db: Rbac, role: string, tenant: Option<Uuid>)
    requires DbOk(db) && role != "owner"
    ensures Excusable(db, role, tenant, NO_FAULTS.(globals := true)) <==>
              forall k :: Globally(db, role, k) ==> AnyOverride(db, role, tenant, k)
  {
    var seen := Seen(db, NO_FAULTS.(globals := true));
    assert seen == db.(globals := map[]) by { NothingFailed(db); assert seen.roles == db.roles; }
    forall k, g ensures OverrideOf(seen, role, tenant, k, g) == OverrideOf(db, role, tenant, k, g) {
      if tenant.Some? { LookupDependsOnNames(db, seen, role, tenant.value); }
    }
    hide OverrideOf, Seen, DbOk, Globally;
  }

  /** A revoked key comes back: the global grants are served when the override query fails. */
  lemma RevokedKeyComesBack(db: Rbac, role: string, tenant: Uuid, f: Faults, key: string, keys: set<string>)
    requires DbOk(db) && role != "owner" && !f.globals && Globally(db, role, key) && OverrideOf(db, role, Some(tenant), key, false)
    requires f.overrides || LookupRoleId(Seen(db, f), role, tenant).None?
    requires Resolves(Seen(db, f), role, Some(tenant), keys)
    ensures key in keys && !Granted(db, role, Some(tenant), key)
  {
    hide LookupRoleId, DbOk;
    OneOverride(db, f, role, Some(tenant), key);
    GrantedByOverride(db, role, Some(tenant), key);
    GrantedByOverride(Seen(db, f), role, Some(tenant), key);
    assert key in keys <==> Granted(Seen(db, f), role, Some(tenant), key);
  }

  /**
   What is served when queries fail, from the rows alone: the owner's keys need the catalogue, the global grants their own query,
   and the overrides theirs and that of the role's row. A lookup that misses the system row may still find the tenant's own.
   */
  lemma ServedWithFailures(db: Rbac, role: string, tenant: Uuid, f: Faults, key: string)
    requires DbOk(db)
    ensures var served := Granted(Seen(db, f), role, Some(tenant), key);
            var global := !f.globals && role in db.globals && key in db.globals[role];
            if role == "owner" then served <==> !f.catalogue && key in db.catalogue && db.catalogue[key] != "superadmin"
            else
              && (f.overrides || (f.system && f.custom) ==> (served <==> global))
              && (forall id :: id in db.roles && !f.overrides
                               && (|| (!f.system && db.roles[id] == RoleRow(role, None))
                                   || (!f.custom && db.roles[id] == RoleRow(role, Some(tenant))
                                       && (f.system || forall other :: other in db.roles ==> db.roles[other] != RoleRow(role, None)))) ==>
                    (served <==> || OverrideRow(tenant, id, key, true) in db.overrides
                                 || (global && OverrideRow(tenant, id, key, false) !in db.overrides)))
  {
    hide LookupRoleId, UniqueOverrides;
    var seen := Seen(db, f);
    if role != "owner" {
      LookupFinds(seen, role, tenant);
      assert forall id :: Named(seen, id, role, None) <==> !f.system && id in db.roles && db.roles[id] == RoleRow(role, None);
      assert forall id :: Named(seen, id, role, Some(tenant)) <==> !f.custom && id in db.roles && db.roles[id] == RoleRow(role, Some(tenant));
    }
  }

  // ----- the sets that the queries give -----

  /** The merge of some global grants with the override rows of one role id. */
  function MergedKeys(globals: set<string>, db: Rbac, tenant: Uuid, id: string): set<string> {
    (globals - (set o | o in db.overrides && o.tenant == tenant && o.role == id && !o.granted :: o.key))
    + (set o | o in db.overrides && o.tenant == tenant && o.role == id && o.granted :: o.key)
  }

  function GlobalKeys(db: Rbac, role: string): set<string> {
    if role in db.globals then db.globals[role] else {}
  }

  function OwnerKeys(db: Rbac): set<string> {
    set k | k in db.catalogue && db.catalogue[k] != "superadmin"
  }

  lemma OwnerKeysResolve(db: Rbac, tenant: Option<Uuid>)
    ensures Resolves(db, "owner", tenant, OwnerKeys(db))
  {
  }

  lemma MergedKeysResolve(db: Rbac, role: string, tenant: Uuid, id: string)
    requires role != "owner" && LookupRoleId(db, role, tenant) == Some(id)
    ensures Resolves(db, role, Some(tenant), MergedKeys(GlobalKeys(db, role), db, tenant, id))
  {
    hide LookupRoleId;
    var keys := MergedKeys(GlobalKeys(db, role), db, tenant, id);
    forall k ensures k in keys <==> Granted(db, role, Some(tenant), k) {
      if Overridden(db, tenant, id, k, true) { assert OverrideRow(tenant, id, k, true) in db.overrides; }
      if Overridden(db, tenant, id, k, false) { assert OverrideRow(tenant, id, k, false) in db.overrides; }
    }
  }

  lemma GlobalsResolve(db: Rbac, role: string, tenant: Option<Uuid>)
    requires role != "owner" && (tenant.None? || LookupRoleId(db, role, tenant.value).None?)
    ensures Resolves(db, role, tenant, GlobalKeys(db, role))
  {
    hide LookupRoleId;
  }
}
