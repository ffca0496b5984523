/**
 The role cache under concurrency. Readers take several steps (cache lookup, role lookup, override
 query, cache fill), any of their queries may fail, writers change the tables one statement at a time, a
 deletion of a cache entry may fail, and time passes in between. Time is in seconds. An entry is named by its (role, tenant) pair,
 which `RoleCache.CacheKeyInjective` justifies.
 */
module CacheStaleness {
  import opened Options
  import opened Permissions
  import opened FailedQueries

  const TTL := 600

  // ----- the tables over time -----

  /** One state of the tables. `used` holds every role id ever given out: ids are UUIDs and do not come back. */
  datatype Version = Version(db: Rbac, used: set<string>, since: nat)

  datatype Write =
    | SetOverride(row: OverrideRow)
    | DropOverride(tenant: Uuid, roleId: string, key: string)
    | DropOverrides(tenant: Uuid, roleId: string)
    | AddRole(tenant: Uuid, name: string, id: string)
    | DropRole(tenant: Uuid, roleId: string)

  /** The database refuses a statement that breaks a key; a delete that matches nothing changes nothing. */
  ghost predicate Allowed(v: Version, w: Write) {
    match w
    case SetOverride(row) => Accessible(v.db, row.role, row.tenant)
    case AddRole(tenant, name, id) => id !in v.used && forall other :: !Named(v.db, other, name, Some(tenant))
    case DropRole(tenant, roleId) =>
      && roleId in v.db.roles && v.db.roles[roleId].tenant == Some(tenant)
      && forall o :: o in v.db.overrides ==> o.role != roleId
    case _ => true
  }

  function Written(v: Version, w: Write, now: nat): Version {
    match w
    case SetOverride(row) => Version(v.db.(overrides := Upsert(v.db.overrides, row)), v.used, now)
    case DropOverride(tenant, roleId, key) =>
      Version(v.db.(overrides := DeleteOverride(v.db.overrides, tenant, roleId, key)), v.used, now)
    case DropOverrides(tenant, roleId) =>
      Version(v.db.(overrides := DeleteAllOverrides(v.db.overrides, tenant, roleId)), v.used, now)
    case AddRole(tenant, name, id) => Version(v.db.(roles := v.db.roles[id := RoleRow(name, Some(tenant))]), v.used + {id}, now)
    case DropRole(_, roleId) => Version(v.db.(roles := v.db.roles - {roleId}), v.used, now)
  }

  ghost predicate VersionOk(v: Version) {
    DbOk(v.db) && v.db.roles.Keys <= v.used
  }

  lemma WriteKeepsVersionOk(v: Version, w: Write, now: nat)
    requires VersionOk(v) && Allowed(v, w)
    ensures VersionOk(Written(v, w, now))
  {
    hide Upsert, DeleteOverride, DeleteAllOverrides, UniqueOverrides;
    match w
    case SetOverride(row) => UpsertRows(v.db.overrides, row);
    case DropOverride(tenant, roleId, key) => DeleteOverrideRows(v.db.overrides, tenant, roleId, key);
    case DropOverrides(tenant, roleId) => DeleteAllRows(v.db.overrides, tenant, roleId);
    case AddRole(tenant, name, id) =>
      assert forall other :: other in v.db.roles && v.db.roles[other] == RoleRow(name, Some(tenant)) ==> Named(v.db, other, name, Some(tenant));
    case DropRole(_, _) =>
  }

  /** What each statement writes: one row set or taken away, all those of a role gone, or a role added or dropped; nothing else. */
  lemma StatementRows(v: Version, w: Write, now: nat)
    requires VersionOk(v) && Allowed(v, w)
    ensures var (db, db') := (v.db, Written(v, w, now).db);
            && db'.globals == db.globals && db'.catalogue == db.catalogue && Written(v, w, now).since == now
            && match w
               case SetOverride(row) =>
                 && db'.roles == db.roles && row.role in db.roles && (db.roles[row.role].tenant.None? || db.roles[row.role].tenant == Some(row.tenant))
                 && (forall o :: o in db'.overrides <==>
                       o == row || (o in db.overrides && !(o.tenant == row.tenant && o.role == row.role && o.key == row.key)))
               case DropOverride(tenant, roleId, key) =>
                 && db'.roles == db.roles
                 && (forall o :: o in db'.overrides <==> o in db.overrides && !(o.tenant == tenant && o.role == roleId && o.key == key))
               case DropOverrides(tenant, roleId) =>
                 && db'.roles == db.roles
                 && (forall o :: o in db'.overrides <==> o in db.overrides && !(o.tenant == tenant && o.role == roleId))
               case AddRole(tenant, name, id) =>
                 && id !in v.used && (forall other :: other in db.roles ==> db.roles[other] != RoleRow(name, Some(tenant)))
                 && db'.roles == db.roles[id := RoleRow(name, Some(tenant))] && db'.overrides == db.overrides
               case DropRole(tenant, roleId) =>
                 && roleId in db.roles && db.roles[roleId].tenant == Some(tenant) && db'.overrides == db.overrides
                 && forall id :: (id in db'.roles <==> id in db.roles && id != roleId) && (id in db'.roles ==> db'.roles[id] == db.roles[id])
  {
    hide Upsert, DeleteOverride, DeleteAllOverrides, UniqueOverrides;
    match w
    case SetOverride(row) => UpsertRows(v.db.overrides, row);
    case DropOverride(tenant, roleId, key) => DeleteOverrideRows(v.db.overrides, tenant, roleId, key);
    case DropOverrides(tenant, roleId) => DeleteAllRows(v.db.overrides, tenant, roleId);
    case AddRole(tenant, name, id) =>
      assert forall other :: other in v.db.roles && v.db.roles[other] == RoleRow(name, Some(tenant)) ==> Named(v.db, other, name, Some(tenant));
    case DropRole(_, _) =>
  }

  ghost predicate Follows(v: Version, v': Version) {
    exists w :: Allowed(v, w) && v' == Written(v, w, v'.since)
  }

  ghost predicate HistoryOk(h: seq<Version>) {
    && h != [] && (forall i :: 0 <= i < |h| ==> VersionOk(h[i]))
    && (forall i :: 0 <= i < |h| - 1 ==> Follows(h[i], h[i + 1]) && h[i].since <= h[i + 1].since)
  }

  // ----- a read that spans several versions -----

  /** A lookup result lasts until the role is dropped, and a dropped id is never named again. */
  lemma LookupLasts(v: Version, v': Version, role: string, tenant: Uuid, id: string)
    requires VersionOk(v) && VersionOk(v') && Follows(v, v')
    requires LookupRoleId(v.db, role, tenant) == Some(id)
    ensures id in v'.used
    ensures LookupRoleId(v'.db, role, tenant) == Some(id)
            || (LookupRoleId(v'.db, role, tenant).None? && id !in v'.db.roles)
  {
    hide Upsert, DeleteOverride, DeleteAllOverrides, LookupRoleId;
    var w :| Allowed(v, w) && v' == Written(v, w, v'.since);
    LookupFinds(v.db, role, tenant);
    LookupFinds(v'.db, role, tenant);
    match w
    case AddRole(t, name, newId) =>
      assert Named(v'.db, id, role, v.db.roles[id].tenant);
      assert forall other, x :: Named(v'.db, other, role, x) && other != newId ==> Named(v.db, other, role, x);
    case DropRole(t, gone) =>
      assert forall other, x :: Named(v'.db, other, role, x) ==> Named(v.db, other, role, x);
      if gone != id { assert Named(v'.db, id, role, v.db.roles[id].tenant); }
    case _ => LookupDependsOnNames(v.db, v'.db, role, tenant);
  }

  lemma DroppedOnce(v: Version, v': Version, id: string)
    requires Follows(v, v')
    ensures v'.db.globals == v.db.globals
    ensures id in v.used && id !in v.db.roles ==> id in v'.used && id !in v'.db.roles
  {
    hide Upsert, DeleteOverride, DeleteAllOverrides, Accessible, Named;
  }

  lemma HistoryStep(h: seq<Version>, m: nat)
    requires HistoryOk(h) && 0 < m < |h|
    ensures Follows(h[m - 1], h[m]) && h[m - 1].since <= h[m].since
  {
    hide VersionOk, Follows;
    assert Follows(h[m - 1], h[m - 1 + 1]);
  }

  lemma {:induction false} DroppedStaysDropped(h: seq<Version>, i: nat, m: nat, id: string)
    requires HistoryOk(h) && i <= m < |h| && id in h[i].used && id !in h[i].db.roles
    ensures id in h[m].used && id !in h[m].db.roles
    ensures h[m].db.globals == h[i].db.globals
  {
    hide HistoryOk, Follows;
    if i < m {
      DroppedStaysDropped(h, i, m - 1, id);
      HistoryStep(h, m);
      DroppedOnce(h[m - 1], h[m], id);
    }
  }

  lemma {:induction false} GlobalsNeverChange(h: seq<Version>, i: nat, m: nat)
    requires HistoryOk(h) && i <= m < |h|
    ensures h[m].db.globals == h[i].db.globals
  {
    hide HistoryOk, Follows;
    if i < m {
      GlobalsNeverChange(h, i, m - 1);
      HistoryStep(h, m);
      DroppedOnce(h[m - 1], h[m], "");
    }
  }

  /** keys are the resolution of some version in h[lo..hi]. */
  ghost predicate Explained(h: seq<Version>, lo: nat, hi: nat, role: string, tenant: Option<Uuid>, keys: set<string>) {
    exists i :: lo <= i < hi && i < |h| && Resolves(h[i].db, role, tenant, keys)
  }

  /**
   A read whose role lookup and override query hit different versions still returns the resolution of one
   version in between, although the role may have been deleted, and even recreated, meanwhile.
   */
  lemma {:induction false} TornReadIsExplained(h: seq<Version>, v: nat, m: nat, role: string, tenant: Uuid, id: string)
    requires HistoryOk(h) && v <= m < |h| && role != "owner" && LookupRoleId(h[v].db, role, tenant) == Some(id)
    ensures Explained(h, v, m + 1, role, Some(tenant), MergedKeys(GlobalKeys(h[m].db, role), h[m].db, tenant, id))
    decreases m - v
  {
    hide LookupRoleId, Follows, DbOk, Resolves;
    if LookupRoleId(h[m].db, role, tenant) == Some(id) {
      MergedKeysResolve(h[m].db, role, tenant, id);
      assert Resolves(h[m].db, role, Some(tenant), MergedKeys(GlobalKeys(h[m].db, role), h[m].db, tenant, id));
    } else {
      var next := v + 1;
      assert Follows(h[v], h[v + 1]);
      LookupLasts(h[v], h[next], role, tenant, id);
      if LookupRoleId(h[next].db, role, tenant) == Some(id) {
        TornReadIsExplained(h, next, m, role, tenant, id);
        var i :| next <= i < m + 1 && i < |h| && Resolves(h[i].db, role, Some(tenant), MergedKeys(GlobalKeys(h[m].db, role), h[m].db, tenant, id));
        assert v <= i;
      } else {
        DroppedStaysDropped(h, next, m, id);
        NoRowsOfDropped(h[m], role, tenant, id);
        GlobalsResolve(h[next].db, role, Some(tenant));
        assert GlobalKeys(h[m].db, role) == GlobalKeys(h[next].db, role);
        assert Resolves(h[next].db, role, Some(tenant), MergedKeys(GlobalKeys(h[m].db, role), h[m].db, tenant, id));
      }
    }
  }

  lemma NoRowsOfDropped(v: Version, role: string, tenant: Uuid, id: string)
    requires VersionOk(v) && id !in v.db.roles
    ensures MergedKeys(GlobalKeys(v.db, role), v.db, tenant, id) == GlobalKeys(v.db, role)
  {
    assert forall o :: o in v.db.overrides ==> o.role != id;
  }

  // ----- readers, cache and clock -----

  /** `beganAt` and `beganVersion` record when the read that produced a value started, `right` that its failures were excusable. */
  datatype Entry = Entry(keys: set<string>, beganAt: nat, beganVersion: nat, filledAt: nat, right: bool)

  /** A read is clean while no query that it made has failed. */
  datatype Progress =
    | Missed
    | GotRole(id: string, version: nat, globals: set<string>, clean: bool)
    | GotKeys(keys: set<string>, right: bool)

  datatype Reader = Reader(role: string, tenant: Option<Uuid>, beganAt: nat, beganVersion: nat, progress: Progress)

  datatype Served = Served(role: string, tenant: Option<Uuid>, entry: Entry, at: nat)

  datatype World = World(now: nat, history: seq<Version>, cache: map<(string, Option<Uuid>), Entry>,
                         readers: map<nat, Reader>, served: seq<Served>)

  datatype Event =
    | Begin(reader: nat, role: string, tenant: Option<Uuid>, cacheError: bool)
    | LookUp(reader: nat, faults: Faults)
    | Fetch(reader: nat, fails: bool)
    | Fill(reader: nat, stored: bool)
    | DoWrite(write: Write)
    | Del(role: string, tenant: Option<Uuid>, works: bool)
    | Tick(seconds: nat)

  function Current(w: World): Version
    requires w.history != []
  {
    w.history[|w.history| - 1]
  }

  predicate Alive(w: World, key: (string, Option<Uuid>)) {
    key in w.cache && w.now < w.cache[key].filledAt + TTL
  }

  ghost function Exec(w: World, e: Event): World
    requires w.history != []
  {
    match e
    case Begin(rid, role, tenant, cacheError) =>
      if rid in w.readers then w
      else if Alive(w, (role, tenant)) && !cacheError
      then w.(served := w.served + [Served(role, tenant, w.cache[(role, tenant)], w.now)])
      else w.(readers := w.readers[rid := Reader(role, tenant, w.now, |w.history| - 1, Missed)])
    case LookUp(rid, faults) =>
      if rid !in w.readers || !w.readers[rid].progress.Missed? then w
      else w.(readers := w.readers[rid := w.readers[rid].(progress := AfterLookUp(Current(w), |w.history| - 1, w.readers[rid], faults))])
    case Fetch(rid, fails) =>
      if rid !in w.readers || !w.readers[rid].progress.GotRole? || w.readers[rid].tenant.None? then w
      else w.(readers := w.readers[rid := w.readers[rid].(progress := AfterFetch(Current(w), w.readers[rid], fails))])
    case Fill(rid, stored) =>
      if rid !in w.readers || !w.readers[rid].progress.GotKeys? then w
      else
        var r := w.readers[rid];
        var entry := Entry(r.progress.keys, r.beganAt, r.beganVersion, w.now, r.progress.right);
        World(w.now, w.history, if stored then w.cache[(r.role, r.tenant) := entry] else w.cache, w.readers - {rid},
              w.served + [Served(r.role, r.tenant, entry, w.now)])
    case DoWrite(write) =>
      if Allowed(Current(w), write) then w.(history := w.history + [Written(Current(w), write, w.now)]) else w
    case Del(role, tenant, works) => if works then w.(cache := w.cache - {(role, tenant)}) else w
    case Tick(seconds) => w.(now := w.now + seconds)
  }

  /** Keys that a read has after its last query: right if no query failed, or if they are the resolution of this version all the same. */
  ghost function Got(v: Version, r: Reader, keys: set<string>, clean: bool): Progress {
    GotKeys(keys, clean || Resolves(v.db, r.role, r.tenant, keys))
  }

  /** The owner's keys and the global grants need no further query; otherwise the role id comes first. */
  ghost function AfterLookUp(v: Version, version: nat, r: Reader, f: Faults): Progress {
    var seen, clean := Seen(v.db, f), !LookUpFails(v.db, r.role, r.tenant, f);
    if r.role == "owner" then Got(v, r, OwnerKeys(seen), clean)
    else if r.tenant.None? || LookupRoleId(seen, r.role, r.tenant.value).None? then Got(v, r, GlobalKeys(seen, r.role), clean)
    else GotRole(LookupRoleId(seen, r.role, r.tenant.value).value, version, GlobalKeys(seen, r.role), clean)
  }

  /** Without the override rows the merge leaves the global grants. */
  ghost function AfterFetch(v: Version, r: Reader, fails: bool): Progress
    requires r.progress.GotRole? && r.tenant.Some?
  {
    Got(v, r, if fails then r.progress.globals else MergedKeys(r.progress.globals, v.db, r.tenant.value, r.progress.id), r.progress.clean && !fails)
  }

  ghost function Run(w: World, events: seq<Event>): (w': World)
    requires w.history != []
    ensures w'.history != []
    decreases |events|
  {
    if events == [] then w else
    HistoryGrows(w, events[0]);
    Run(Exec(w, events[0]), events[1..])
  }

  lemma HistoryGrows(w: World, e: Event)
    requires w.history != []
    ensures Exec(w, e).history != [] && w.history <= Exec(w, e).history
    ensures w.served <= Exec(w, e).served
  {
  }

  // ----- the invariant -----

  /** Version b was still the current one at time t, or became so later. */
  ghost predicate NotEndedBefore(h: seq<Version>, b: nat, t: nat) {
    b < |h| && (b + 1 < |h| ==> t <= h[b + 1].since)
  }

  ghost predicate EntryOk(h: seq<Version>, now: nat, role: string, tenant: Option<Uuid>, e: Entry) {
    && e.beganAt <= e.filledAt <= now && NotEndedBefore(h, e.beganVersion, e.beganAt)
    && (e.right ==> exists i :: e.beganVersion <= i < |h| && h[i].since <= e.filledAt && Resolves(h[i].db, role, tenant, e.keys))
  }

  ghost predicate ReaderOk(h: seq<Version>, now: nat, r: Reader) {
    && r.beganAt <= now && NotEndedBefore(h, r.beganVersion, r.beganAt)
    && match r.progress
       case Missed => true
       case GotRole(id, v, globals, clean) =>
         && r.beganVersion <= v < |h| && r.role != "owner" && r.tenant.Some?
         && (clean ==> LookupRoleId(h[v].db, r.role, r.tenant.value) == Some(id) && globals == GlobalKeys(h[v].db, r.role))
       case GotKeys(keys, right) => right ==> Explained(h, r.beganVersion, |h|, r.role, r.tenant, keys)
  }

  ghost predicate Inv(w: World) {
    && HistoryOk(w.history) && Current(w).since <= w.now
    && (forall rid :: rid in w.readers ==> ReaderOk(w.history, w.now, w.readers[rid]))
    && (forall key :: key in w.cache ==> EntryOk(w.history, w.now, key.0, key.1, w.cache[key]))
    && (forall n :: 0 <= n < |w.served| ==>
          var s := w.served[n];
          EntryOk(w.history, w.now, s.role, s.tenant, s.entry) && s.entry.filledAt <= s.at < s.entry.filledAt + TTL)
  }

  lemma {:induction false} SinceIncreases(h: seq<Version>, i: nat, m: nat)
    requires HistoryOk(h) && i <= m < |h|
    ensures h[i].since <= h[m].since
  {
    hide HistoryOk, Follows;
    if i < m { SinceIncreases(h, i, m - 1); HistoryStep(h, m); }
  }

  /** Facts about entries and readers survive later versions and later times. */
  lemma EntrySurvives(h: seq<Version>, h': seq<Version>, now: nat, now': nat, role: string, tenant: Option<Uuid>, e: Entry)
    requires EntryOk(h, now, role, tenant, e) && h <= h' && now <= now'
    requires |h| < |h'| ==> now <= h'[|h|].since
    ensures EntryOk(h', now', role, tenant, e)
  {
    hide Resolves;
    if e.right {
      var i :| e.beganVersion <= i < |h| && h[i].since <= e.filledAt && Resolves(h[i].db, role, tenant, e.keys);
      assert h'[i] == h[i];
    }
  }

  lemma ReaderSurvives(h: seq<Version>, h': seq<Version>, now: nat, now': nat, r: Reader)
    requires ReaderOk(h, now, r) && h <= h' && now <= now'
    requires |h| < |h'| ==> now <= h'[|h|].since
    ensures ReaderOk(h', now', r)
  {
    hide Resolves, LookupRoleId;
    if r.progress.GotKeys? && r.progress.right {
      var i :| r.beganVersion <= i < |h| && i < |h| && Resolves(h[i].db, r.role, r.tenant, r.progress.keys);
      assert h'[i] == h[i];
    }
  }

  /** Time passes or the tables change; readers, cache and log stay. */
  lemma OutsideChangeKeepsInv(w: World, now: nat, h: seq<Version>)
    requires Inv(w) && HistoryOk(h) && w.history <= h && w.now <= now && h[|h| - 1].since <= now
    requires |w.history| < |h| ==> w.now <= h[|w.history|].since
    ensures Inv(w.(now := now, history := h))
  {
    hide EntryOk, ReaderOk, HistoryOk;
    forall rid | rid in w.readers ensures ReaderOk(h, now, w.readers[rid]) {
      ReaderSurvives(w.history, h, w.now, now, w.readers[rid]);
    }
    forall key | key in w.cache ensures EntryOk(h, now, key.0, key.1, w.cache[key]) {
      EntrySurvives(w.history, h, w.now, now, key.0, key.1, w.cache[key]);
    }
    forall n | 0 <= n < |w.served| ensures EntryOk(h, now, w.served[n].role, w.served[n].tenant, w.served[n].entry) {
      EntrySurvives(w.history, h, w.now, now, w.served[n].role, w.served[n].tenant, w.served[n].entry);
    }
  }

  lemma WriteKeepsHistoryOk(w: World, write: Write)
    requires Inv(w) && Allowed(Current(w), write)
    ensures HistoryOk(w.history + [Written(Current(w), write, w.now)])
  {
    hide Allowed, EntryOk, ReaderOk;
    WriteKeepsVersionOk(Current(w), write, w.now);
    var h := w.history + [Written(Current(w), write, w.now)];
    assert Follows(h[|h| - 2], h[|h| - 1]);
  }

  /** What a clean lookup sees of the tables is what they hold. */
  lemma CleanSees(db: Rbac, f: Faults, role: string, tenant: Option<Uuid>)
    requires DbOk(db) && !LookUpFails(db, role, tenant, f)
    ensures role == "owner" ==> OwnerKeys(Seen(db, f)) == OwnerKeys(db)
    ensures role != "owner" ==> GlobalKeys(Seen(db, f), role) == GlobalKeys(db, role)
    ensures role != "owner" && tenant.Some? ==> LookupRoleId(Seen(db, f), role, tenant.value) == LookupRoleId(db, role, tenant.value)
  {
    hide LookupRoleId, DbOk;
    if role != "owner" && tenant.Some? { UnmadeQueriesShowNothing(db, role, tenant.value, f); }
  }

  lemma LastExplains(h: seq<Version>, lo: nat, role: string, tenant: Option<Uuid>, keys: set<string>)
    requires lo < |h| && Resolves(h[|h| - 1].db, role, tenant, keys)
    ensures Explained(h, lo, |h|, role, tenant, keys)
  {
    hide Resolves;
  }

  /** What a lookup leaves a read with: its keys if they are right, and if it is clean the role id and the global grants. */
  lemma LookedUp(v: Version, n: nat, r: Reader, f: Faults)
    requires VersionOk(v)
    ensures match AfterLookUp(v, n, r, f)
            case Missed => false
            case GotRole(id, version, globals, clean) =>
              && version == n && r.role != "owner" && r.tenant.Some?
              && (clean ==> LookupRoleId(v.db, r.role, r.tenant.value) == Some(id) && globals == GlobalKeys(v.db, r.role))
            case GotKeys(keys, right) => right ==> Resolves(v.db, r.role, r.tenant, keys)
  {
    hide LookupRoleId, Seen, OwnerKeys, GlobalKeys, LookUpFails;
    if !LookUpFails(v.db, r.role, r.tenant, f) {
      CleanSees(v.db, f, r.role, r.tenant);
      if r.role == "owner" {
        OwnerKeysResolve(v.db, r.tenant);
      } else if r.tenant.None? || LookupRoleId(v.db, r.role, r.tenant.value).None? {
        GlobalsResolve(v.db, r.role, r.tenant);
      }
    }
  }

  lemma LastIsOk(h: seq<Version>)
    requires HistoryOk(h)
    ensures VersionOk(h[|h| - 1])
  {
    hide VersionOk, Follows;
  }

  lemma LookUpKeepsReaderOk(w: World, r: Reader, f: Faults)
    requires Inv(w) && ReaderOk(w.history, w.now, r)
    ensures ReaderOk(w.history, w.now, r.(progress := AfterLookUp(Current(w), |w.history| - 1, r, f)))
  {
    hide LookupRoleId, HistoryOk, EntryOk, AfterLookUp, Resolves;
    LastIsOk(w.history);
    LookedUp(Current(w), |w.history| - 1, r, f);
  }

  lemma FillKeepsEntryOk(w: World, r: Reader)
    requires Inv(w) && ReaderOk(w.history, w.now, r) && r.progress.GotKeys?
    ensures EntryOk(w.history, w.now, r.role, r.tenant, Entry(r.progress.keys, r.beganAt, r.beganVersion, w.now, r.progress.right))
  {
    hide Resolves, HistoryOk;
    var h := w.history;
    if r.progress.right {
      var i :| r.beganVersion <= i < |h| && i < |h| && Resolves(h[i].db, r.role, r.tenant, r.progress.keys);
      SinceIncreases(h, i, |h| - 1);
    }
  }

  lemma ReaderChangeKeepsInv(w: World, rid: nat, r: Reader)
    requires Inv(w) && ReaderOk(w.history, w.now, r)
    ensures Inv(w.(readers := w.readers[rid := r]))
  {
    hide EntryOk, HistoryOk, ReaderOk;
  }

  lemma ServeKeepsInv(w: World, s: Served)
    requires Inv(w) && EntryOk(w.history, w.now, s.role, s.tenant, s.entry) && s.entry.filledAt <= s.at < s.entry.filledAt + TTL
    ensures Inv(w.(served := w.served + [s]))
  {
    hide EntryOk, HistoryOk, ReaderOk;
  }

  lemma CacheChangeKeepsInv(w: World, cache: map<(string, Option<Uuid>), Entry>, readers: map<nat, Reader>)
    requires Inv(w)
    requires forall key :: key in cache ==> EntryOk(w.history, w.now, key.0, key.1, cache[key])
    requires forall rid :: rid in readers ==> rid in w.readers && readers[rid] == w.readers[rid]
    ensures Inv(w.(cache := cache, readers := readers))
  {
    hide EntryOk, HistoryOk, ReaderOk;
  }

  lemma BeginKeepsInv(w: World, rid: nat, role: string, tenant: Option<Uuid>, cacheError: bool)
    requires Inv(w)
    ensures Inv(Exec(w, Begin(rid, role, tenant, cacheError)))
  {
    InvHasHistory(w);
    hide HistoryOk, EntryOk;
    if rid !in w.readers {
      if Alive(w, (role, tenant)) && !cacheError {
        FilledByNow(w, (role, tenant));
        ServeKeepsInv(w, Served(role, tenant, w.cache[(role, tenant)], w.now));
      } else {
        ReaderChangeKeepsInv(w, rid, Reader(role, tenant, w.now, |w.history| - 1, Missed));
      }
    }
  }

  lemma FilledByNow(w: World, key: (string, Option<Uuid>))
    requires Inv(w) && key in w.cache
    ensures EntryOk(w.history, w.now, key.0, key.1, w.cache[key]) && w.cache[key].filledAt <= w.now
  {
    hide HistoryOk, ReaderOk, Resolves;
  }

  lemma FillKeepsInv(w: World, rid: nat, stored: bool)
    requires Inv(w)
    ensures Inv(Exec(w, Fill(rid, stored)))
  {
    hide EntryOk, HistoryOk, ReaderOk;
    if rid in w.readers && w.readers[rid].progress.GotKeys? {
      var r := w.readers[rid];
      var entry := Entry(r.progress.keys, r.beganAt, r.beganVersion, w.now, r.progress.right);
      FillKeepsEntryOk(w, r);
      var cache := if stored then w.cache[(r.role, r.tenant) := entry] else w.cache;
      CacheChangeKeepsInv(w, cache, w.readers - {rid});
      ServeKeepsInv(w.(cache := cache, readers := w.readers - {rid}), Served(r.role, r.tenant, entry, w.now));
    }
  }

  lemma ReaderIsOk(w: World, rid: nat)
    requires Inv(w) && rid in w.readers
    ensures ReaderOk(w.history, w.now, w.readers[rid])
  {
    hide HistoryOk, EntryOk, ReaderOk;
  }

  lemma LookUpKeepsInv(w: World, rid: nat, f: Faults)
    requires Inv(w)
    ensures Inv(Exec(w, LookUp(rid, f)))
  {
    hide Inv, ReaderOk, AfterLookUp, Got, Seen, Resolves, LookupRoleId, EntryOk, HistoryOk;
    InvHasHistory(w);
    if rid in w.readers && w.readers[rid].progress.Missed? {
      ReaderIsOk(w, rid);
      LookUpKeepsReaderOk(w, w.readers[rid], f);
      ReaderChangeKeepsInv(w, rid, w.readers[rid].(progress := AfterLookUp(Current(w), |w.history| - 1, w.readers[rid], f)));
    }
  }

  lemma WriteKeepsInv(w: World, write: Write)
    requires Inv(w)
    ensures Inv(Exec(w, DoWrite(write)))
  {
    InvHasHistory(w);
    WriteAddsVersion(w, write);
    hide Inv, HistoryOk, Allowed, Written, Exec;
    if Allowed(Current(w), write) {
      WriteKeepsHistoryOk(w, write);
      OutsideChangeKeepsInv(w, w.now, w.history + [Written(Current(w), write, w.now)]);
    }
  }

  lemma WriteAddsVersion(w: World, write: Write)
    requires w.history != []
    ensures Written(Current(w), write, w.now).since == w.now
    ensures Exec(w, DoWrite(write)) ==
            if Allowed(Current(w), write) then w.(now := w.now, history := w.history + [Written(Current(w), write, w.now)]) else w
  {
    hide Allowed;
  }

  lemma OutsideKeepsInv(w: World, e: Event)
    requires Inv(w) && (e.Del? || e.Tick?)
    ensures Inv(Exec(w, e))
  {
    InvHasHistory(w);
    hide EntryOk, HistoryOk, ReaderOk;
    match e
    case Del(role, tenant, works) => if works { CacheChangeKeepsInv(w, w.cache - {(role, tenant)}, w.readers); }
    case Tick(seconds) => OutsideChangeKeepsInv(w, w.now + seconds, w.history);
    case _ =>
  }

  lemma EventKeepsInv(w: World, e: Event)
    requires Inv(w)
    ensures Inv(Exec(w, e))
  {
    hide Inv, Exec;
    match e
    case Begin(rid, role, tenant, cacheError) => BeginKeepsInv(w, rid, role, tenant, cacheError);
    case LookUp(rid, f) => LookUpKeepsInv(w, rid, f);
    case Fetch(rid, fails) => FetchKeepsInv(w, rid, fails);
    case Fill(rid, stored) => FillKeepsInv(w, rid, stored);
    case DoWrite(write) => WriteKeepsInv(w, write);
    case Del(_, _, _) => OutsideKeepsInv(w, e);
    case Tick(_) => OutsideKeepsInv(w, e);
  }

  lemma FetchKeepsInv(w: World, rid: nat, fails: bool)
    requires Inv(w)
    ensures Inv(Exec(w, Fetch(rid, fails)))
  {
    hide Inv, ReaderOk, AfterFetch;
    InvHasHistory(w);
    if rid in w.readers && w.readers[rid].progress.GotRole? && w.readers[rid].tenant.Some? {
      var r := w.readers[rid];
      ReaderIsOk(w, rid);
      FetchKeepsReaderOk(w, r, fails);
      ReaderChangeKeepsInv(w, rid, r.(progress := AfterFetch(Current(w), r, fails)));
    }
  }

  /** A clean read may be torn between two versions; a read that failed is right only if the last version says so. */
  lemma FetchKeepsReaderOk(w: World, r: Reader, fails: bool)
    requires Inv(w) && ReaderOk(w.history, w.now, r) && r.progress.GotRole? && r.tenant.Some?
    ensures ReaderOk(w.history, w.now, r.(progress := AfterFetch(Current(w), r, fails)))
  {
    hide LookupRoleId, MergedKeys, Resolves, EntryOk, HistoryOk, GlobalKeys;
    var h, p := w.history, AfterFetch(Current(w), r, fails);
    if r.progress.clean && !fails {
      GlobalsNeverChange(h, r.progress.version, |h| - 1);
      SameGlobals(h[r.progress.version].db, Current(w).db, r.role);
      TornReadIsExplained(h, r.progress.version, |h| - 1, r.role, r.tenant.value, r.progress.id);
      ExplainedFromEarlier(h, r.beganVersion, r.progress.version, |h|, r.role, r.tenant, p.keys);
    } else if p.right {
      LastExplains(h, r.beganVersion, r.role, r.tenant, p.keys);
    }
  }

  lemma SameGlobals(a: Rbac, b: Rbac, role: string)
    requires a.globals == b.globals
    ensures GlobalKeys(a, role) == GlobalKeys(b, role)
  {
  }

  lemma ExplainedFromEarlier(h: seq<Version>, lo: nat, lo': nat, hi: nat, role: string, tenant: Option<Uuid>, keys: set<string>)
    requires lo <= lo' && Explained(h, lo', hi, role, tenant, keys)
    ensures Explained(h, lo, hi, role, tenant, keys)
  {
    hide Resolves;
  }

  lemma {:induction false} RunKeepsInv(w: World, events: seq<Event>)
    requires Inv(w)
    ensures Inv(Run(w, events))
    decreases |events|
  {
    hide Inv, Exec;
    if events != [] {
      InvHasHistory(w);
      EventKeepsInv(w, events[0]);
      InvHasHistory(Exec(w, events[0]));
      RunKeepsInv(Exec(w, events[0]), events[1..]);
    }
  }

  lemma InvHasHistory(w: World)
    requires Inv(w)
    ensures w.history != []
  {
  }

  // ----- the guarantees -----

  predicate Initial(w: World) {
    |w.history| == 1 && w.history[0].since <= w.now && w.cache == map[] && w.readers == map[] && w.served == []
  }

  /**
   Whatever the interleaving and whichever queries and deletions fail, every set served at time t that is right is the
   resolution of a state of the tables that was current at or after t minus 600 seconds minus the duration of the read that filled it.
   */
  lemma StalenessIsBounded(w: World, events: seq<Event>, n: nat)
    requires Initial(w) && VersionOk(w.history[0]) && n < |Run(w, events).served| && Run(w, events).served[n].entry.right
    ensures var h, s := Run(w, events).history, Run(w, events).served[n];
            && s.at < s.entry.filledAt + 600 && s.entry.beganAt <= s.entry.filledAt <= s.at
            && exists i :: 0 <= i < |h| && Resolves(h[i].db, s.role, s.tenant, s.entry.keys)
                           && h[i].since <= s.at && (i + 1 < |h| ==> s.entry.beganAt <= h[i + 1].since)
  {
    hide Run, Resolves, VersionOk, HistoryOk;
    InitialInv(w);
    RunKeepsInv(w, events);
    var w' := Run(w, events);
    ServedOk(w', n);
    hide Inv;
    var h, s := w'.history, w'.served[n];
    var i :| s.entry.beganVersion <= i < |h| && h[i].since <= s.entry.filledAt && Resolves(h[i].db, s.role, s.tenant, s.entry.keys);
    if i + 1 < |h| { SinceIncreases(h, s.entry.beganVersion + 1, i + 1); }
  }

  lemma InitialInv(w: World)
    requires Initial(w) && VersionOk(w.history[0])
    ensures Inv(w)
  {
    hide VersionOk;
  }

  lemma ServedOk(w: World, n: nat)
    requires Inv(w) && n < |w.served|
    ensures var s := w.served[n];
            && HistoryOk(w.history) && EntryOk(w.history, w.now, s.role, s.tenant, s.entry)
            && s.entry.filledAt <= s.at < s.entry.filledAt + TTL
  {
    hide HistoryOk, EntryOk, ReaderOk;
  }
  // ----- which sets are right -----

  /** No query that this event makes fails. */
  ghost predicate Answered(w: World, e: Event)
    requires w.history != []
  {
    match e
    case LookUp(rid, f) => rid in w.readers ==> !LookUpFails(Current(w).db, w.readers[rid].role, w.readers[rid].tenant, f)
    case Fetch(_, fails) => !fails
    case _ => true
  }

  ghost predicate AllRight(w: World) {
    && (forall key :: key in w.cache ==> w.cache[key].right)
    && (forall rid :: rid in w.readers ==>
          && (w.readers[rid].progress.GotRole? ==> w.readers[rid].progress.clean)
          && (w.readers[rid].progress.GotKeys? ==> w.readers[rid].progress.right))
    && (forall n :: 0 <= n < |w.served| ==> w.served[n].entry.right)
  }

  /** While every query that is made is answered, only right sets are served. */
  lemma {:induction false} AnsweredRunsServeRightSets(w: World, events: seq<Event>)
    requires w.history != [] && AllRight(w)
    requires forall i :: 0 <= i < |events| ==> Answered(Run(w, events[..i]), events[i])
    ensures AllRight(Run(w, events))
    decreases |events|
  {
    if events != [] {
      HistoryGrows(w, events[0]);
      assert events[..0] == [] && Answered(Run(w, events[..0]), events[0]);
      AnsweredKeepsRight(w, events[0]);
      hide Exec, AllRight, Answered;
      var w1, rest := Exec(w, events[0]), events[1..];
      forall i | 0 <= i < |rest| ensures Answered(Run(w1, rest[..i]), rest[i]) {
        assert events[..i + 1][1..] == rest[..i];
        assert Answered(Run(w, events[..i + 1]), events[i + 1]);
      }
      AnsweredRunsServeRightSets(w1, rest);
    }
  }

  lemma AnsweredKeepsRight(w: World, e: Event)
    requires w.history != [] && AllRight(w) && Answered(w, e)
    ensures AllRight(Exec(w, e))
  {
    hide Resolves, LookupRoleId, Seen, MergedKeys, GlobalKeys, OwnerKeys, Allowed, Written, LookUpFails;
  }

  /** A read whose queries all see one version gets right keys if and only if its failures are excusable there. */
  lemma FailedReadIsRightIff(v: Version, r: Reader, f: Faults)
    requires VersionOk(v) && r.progress.Missed?
    ensures var p := AfterLookUp(v, 0, r, f);
            var q := if p.GotRole? && r.tenant.Some? then AfterFetch(v, r.(progress := p), f.overrides) else p;
            q.GotKeys? && (q.right <==> Excusable(v.db, r.role, r.tenant, f))
  {
    hide LookupRoleId, Excusable;
    LookedUp(v, 0, r, f);
    var p := AfterLookUp(v, 0, r, f);
    var q := if p.GotRole? && r.tenant.Some? then AfterFetch(v, r.(progress := p), f.overrides) else p;
    ReadsWhatIsSeen(v, r, f);
    AnswerIsRightIff(v.db, r.role, r.tenant, f, q.keys);
    if p.GotRole? && p.clean {
      MergedKeysResolve(v.db, r.role, r.tenant.value, p.id);
    }
  }

  lemma ReadsWhatIsSeen(v: Version, r: Reader, f: Faults)
    requires VersionOk(v) && r.progress.Missed?
    ensures var p := AfterLookUp(v, 0, r, f);
            var q := if p.GotRole? && r.tenant.Some? then AfterFetch(v, r.(progress := p), f.overrides) else p;
            q.GotKeys? && Resolves(Seen(v.db, f), r.role, r.tenant, q.keys)
  {
    hide LookupRoleId, DbOk;
    var seen := Seen(v.db, f);
    if r.role == "owner" {
      OwnerKeysResolve(seen, r.tenant);
    } else if r.tenant.None? || LookupRoleId(seen, r.role, r.tenant.value).None? {
      GlobalsResolve(seen, r.role, r.tenant);
    } else {
      var id := LookupRoleId(seen, r.role, r.tenant.value).value;
      MergedKeysResolve(seen, r.role, r.tenant.value, id);
      var globals := GlobalKeys(seen, r.role);
      assert f.overrides ==> MergedKeys(globals, seen, r.tenant.value, id) == globals;
      assert !f.overrides ==> MergedKeys(globals, seen, r.tenant.value, id) == MergedKeys(globals, v.db, r.tenant.value, id);
    }
  }
}
