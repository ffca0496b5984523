/**
 What a deletion from the role cache achieves when every step is interleaved: which reads in flight can put an
 old set back, and for how long it is then served.
 */
module CacheFreshness {
  import opened Options
  import opened Permissions
  import opened FailedQueries
  import opened CacheStaleness

  // ----- harmless reads -----

  /** What a read that has looked up its role fills in if it goes on in this version. */
  function WouldFill(v: Version, r: Reader): set<string>
    requires !r.progress.Missed? && (r.progress.GotRole? ==> r.tenant.Some?)
  {
    if r.progress.GotKeys? then r.progress.keys else MergedKeys(r.progress.globals, v.db, r.tenant.value, r.progress.id)
  }

  /** No failed query has spoilt what the read will fill in. */
  predicate Unspoilt(r: Reader) {
    match r.progress
    case Missed => true
    case GotRole(_, _, _, clean) => clean
    case GotKeys(_, right) => right
  }

  /** The read has not looked anything up yet, or a failed query has spoilt it, or what it would fill in is right for this version. */
  ghost predicate Harmless(v: Version, r: Reader) {
    r.progress.Missed? || (r.progress.GotRole? && r.tenant.None?) || (Unspoilt(r) ==> Resolves(v.db, r.role, r.tenant, WouldFill(v, r)))
  }

  /** The id was looked up in version v or later, or it was dropped by then, when its name meant the global grants alone. */
  ghost predicate RoleFresh(h: seq<Version>, role: string, tenant: Uuid, id: string, v: nat)
    requires v < |h|
  {
    || (exists i :: v <= i < |h| && LookupRoleId(h[i].db, role, tenant) == Some(id))
    || (id in h[v].used && id !in h[v].db.roles && Resolves(h[v].db, role, Some(tenant), GlobalKeys(h[v].db, role)))
  }

  ghost predicate ReaderFresh(h: seq<Version>, r: Reader, v: nat)
    requires v < |h|
  {
    match r.progress
    case Missed => true
    case GotRole(id, _, globals, clean) =>
      && r.tenant.Some? && r.role != "owner"
      && (clean ==> globals == GlobalKeys(h[v].db, r.role) && RoleFresh(h, r.role, r.tenant.value, id, v))
    case GotKeys(keys, right) => right ==> Explained(h, v, |h|, r.role, r.tenant, keys)
  }

  /** The entry of the key, and every read on its way to filling it, resolves version v or a later one. */
  ghost predicate FreshSince(w: World, key: (string, Option<Uuid>), v: nat) {
    && v < |w.history|
    && (key in w.cache && w.cache[key].right ==> Explained(w.history, v, |w.history|, key.0, key.1, w.cache[key].keys))
    && (forall rid :: rid in w.readers && (w.readers[rid].role, w.readers[rid].tenant) == key ==> ReaderFresh(w.history, w.readers[rid], v))
  }

  /** The answers for the key that are served from position `from` on and are right. */
  ghost predicate ServedFresh(w: World, key: (string, Option<Uuid>), v: nat, from: nat) {
    forall n :: from <= n < |w.served| && (w.served[n].role, w.served[n].tenant) == key && w.served[n].entry.right ==>
                  Explained(w.history, v, |w.history|, key.0, key.1, w.served[n].entry.keys)
  }

  lemma {:induction false} LookupOrDropped(h: seq<Version>, i: nat, m: nat, role: string, tenant: Uuid, id: string)
    requires HistoryOk(h) && i <= m < |h| && LookupRoleId(h[i].db, role, tenant) == Some(id)
    ensures LookupRoleId(h[m].db, role, tenant) == Some(id) || (id in h[m].used && id !in h[m].db.roles)
  {
    hide LookupRoleId, Follows, DbOk, Resolves;
    if i < m {
      LookupOrDropped(h, i, m - 1, role, tenant, id);
      HistoryStep(h, m);
      if LookupRoleId(h[m - 1].db, role, tenant) == Some(id) {
        LookupLasts(h[m - 1], h[m], role, tenant, id);
      } else {
        DroppedOnce(h[m - 1], h[m], id);
      }
    }
  }

  lemma HarmlessIsFresh(w: World, r: Reader)
    requires Inv(w) && ReaderOk(w.history, w.now, r) && Harmless(Current(w), r)
    ensures ReaderFresh(w.history, r, |w.history| - 1)
  {
    hide EntryOk, LookupRoleId, DbOk, Resolves, Follows;
    var h, v := w.history, |w.history| - 1;
    if r.progress.GotRole? && r.progress.clean {
      var id := r.progress.id;
      GlobalsNeverChange(h, r.progress.version, v);
      SameGlobals(h[r.progress.version].db, h[v].db, r.role);
      LookupOrDropped(h, r.progress.version, v, r.role, r.tenant.value, id);
      if LookupRoleId(h[v].db, r.role, r.tenant.value) != Some(id) { NoRowsOfDropped(h[v], r.role, r.tenant.value, id); }
    } else if r.progress.GotKeys? && r.progress.right {
      assert Resolves(h[v].db, r.role, r.tenant, r.progress.keys);
    }
  }

  // ----- every event keeps freshness -----

  lemma ExplainedGrows(h: seq<Version>, h': seq<Version>, v: nat, role: string, tenant: Option<Uuid>, keys: set<string>)
    requires h <= h' && Explained(h, v, |h|, role, tenant, keys)
    ensures Explained(h', v, |h'|, role, tenant, keys)
  {
    hide Resolves;
    var i :| v <= i < |h| && i < |h| && Resolves(h[i].db, role, tenant, keys);
    assert h'[i] == h[i];
  }

  lemma ReaderFreshGrows(h: seq<Version>, h': seq<Version>, r: Reader, v: nat)
    requires v < |h| && h <= h' && ReaderFresh(h, r, v)
    ensures ReaderFresh(h', r, v)
  {
    hide Resolves, LookupRoleId, Explained;
    match r.progress
    case Missed =>
    case GotRole(id, _, _, clean) =>
      if i :| v <= i < |h| && LookupRoleId(h[i].db, r.role, r.tenant.value) == Some(id) { assert h'[i] == h[i]; }
    case GotKeys(keys, right) => if right { ExplainedGrows(h, h', v, r.role, r.tenant, keys); }
  }

  /** What a fresh read fetches is explained. */
  lemma FetchedIsExplained(h: seq<Version>, role: string, tenant: Uuid, id: string, v: nat)
    requires HistoryOk(h) && v < |h| && role != "owner" && RoleFresh(h, role, tenant, id, v)
    ensures Explained(h, v, |h|, role, Some(tenant), MergedKeys(GlobalKeys(h[v].db, role), h[|h| - 1].db, tenant, id))
  {
    hide LookupRoleId, Follows, DbOk, Resolves, MergedKeys;
    var m := |h| - 1;
    GlobalsNeverChange(h, v, m);
    SameGlobals(h[v].db, h[m].db, role);
    var keys := MergedKeys(GlobalKeys(h[m].db, role), h[m].db, tenant, id);
    if i :| v <= i < |h| && LookupRoleId(h[i].db, role, tenant) == Some(id) {
      TornReadIsExplained(h, i, m, role, tenant, id);
      ExplainedFromEarlier(h, v, i, |h|, role, Some(tenant), keys);
    } else {
      DroppedStaysDropped(h, v, m, id);
      NoRowsOfDropped(h[m], role, tenant, id);
      assert Resolves(h[v].db, role, Some(tenant), keys);
    }
  }

  lemma LookedUpIsFresh(w: World, r: Reader, v: nat, f: Faults)
    requires Inv(w) && v < |w.history|
    ensures ReaderFresh(w.history, r.(progress := AfterLookUp(Current(w), |w.history| - 1, r, f)), v)
  {
    hide LookupRoleId, HistoryOk, EntryOk, ReaderOk, AfterLookUp, Resolves, GlobalKeys;
    var h, last := w.history, |w.history| - 1;
    LastIsOk(h);
    LookedUp(Current(w), last, r, f);
    GlobalsNeverChange(h, v, last);
    SameGlobals(h[v].db, h[last].db, r.role);
  }

  lemma EventKeepsFresh(w: World, e: Event, key: (string, Option<Uuid>), v: nat)
    requires Inv(w) && FreshSince(w, key, v)
    ensures FreshSince(Exec(w, e), key, v) && ServedFresh(Exec(w, e), key, v, |w.served|)
  {
    InvHasHistory(w);
    match e
    case Begin(_, _, _, _) => QuietEventKeepsFresh(w, e, key, v);
    case LookUp(rid, f) =>
      if rid in w.readers && w.readers[rid].progress.Missed? { LookedUpIsFresh(w, w.readers[rid], v, f); }
      hide Inv, ReaderFresh, Explained, AfterLookUp;
    case Fetch(rid, fails) => FetchKeepsFresh(w, rid, fails, key, v);
    case Fill(_, _) => QuietEventKeepsFresh(w, e, key, v);
    case DoWrite(write) => GrowthKeepsFresh(w, e, key, v);
    case Del(_, _, _) => QuietEventKeepsFresh(w, e, key, v);
    case Tick(_) => QuietEventKeepsFresh(w, e, key, v);
  }

  lemma QuietEventKeepsFresh(w: World, e: Event, key: (string, Option<Uuid>), v: nat)
    requires w.history != [] && FreshSince(w, key, v) && (e.Begin? || e.Fill? || e.Del? || e.Tick?)
    ensures FreshSince(Exec(w, e), key, v) && ServedFresh(Exec(w, e), key, v, |w.served|)
  {
    hide Explained, RoleFresh;
  }

  lemma FetchKeepsFresh(w: World, rid: nat, fails: bool, key: (string, Option<Uuid>), v: nat)
    requires Inv(w) && FreshSince(w, key, v)
    ensures FreshSince(Exec(w, Fetch(rid, fails)), key, v) && ServedFresh(Exec(w, Fetch(rid, fails)), key, v, |w.served|)
  {
    InvHasHistory(w);
    if rid in w.readers && w.readers[rid].progress.GotRole? && (w.readers[rid].role, w.readers[rid].tenant) == key {
      FetchedReaderIsFresh(w, w.readers[rid], fails, v);
    }
    hide Inv, Explained, RoleFresh, ReaderFresh, AfterFetch;
  }

  lemma FetchedReaderIsFresh(w: World, r: Reader, fails: bool, v: nat)
    requires Inv(w) && v < |w.history| && r.progress.GotRole? && ReaderFresh(w.history, r, v)
    ensures r.tenant.Some? && ReaderFresh(w.history, r.(progress := AfterFetch(Current(w), r, fails)), v)
  {
    hide Explained, RoleFresh, MergedKeys, EntryOk, HistoryOk, Resolves;
    var p := AfterFetch(Current(w), r, fails);
    if r.progress.clean && !fails {
      FetchedIsExplained(w.history, r.role, r.tenant.value, r.progress.id, v);
    } else if p.right {
      LastExplains(w.history, v, r.role, r.tenant, p.keys);
    }
  }

  lemma GrowthKeepsFresh(w: World, e: Event, key: (string, Option<Uuid>), v: nat)
    requires w.history != [] && FreshSince(w, key, v) && e.DoWrite?
    ensures FreshSince(Exec(w, e), key, v) && ServedFresh(Exec(w, e), key, v, |w.served|)
  {
    hide Explained, ReaderFresh, Allowed, Written;
    var h' := Exec(w, e).history;
    if key in w.cache && w.cache[key].right { ExplainedGrows(w.history, h', v, key.0, key.1, w.cache[key].keys); }
    forall rid | rid in w.readers && (w.readers[rid].role, w.readers[rid].tenant) == key ensures ReaderFresh(h', w.readers[rid], v) {
      ReaderFreshGrows(w.history, h', w.readers[rid], v);
    }
  }

  lemma {:induction false} RunKeepsFresh(w: World, events: seq<Event>, key: (string, Option<Uuid>), v: nat, from: nat)
    requires Inv(w) && FreshSince(w, key, v) && ServedFresh(w, key, v, from) && from <= |w.served|
    ensures w.history != [] && ServedFresh(Run(w, events), key, v, from)
    decreases |events|
  {
    InvHasHistory(w);
    hide Exec, Inv, FreshSince, ServedFresh;
    if events != [] {
      var w' := Exec(w, events[0]);
      EventKeepsInv(w, events[0]);
      EventKeepsFresh(w, events[0], key, v);
      HistoryGrows(w, events[0]);
      ServedStaysFresh(w, w', key, v, from);
      RunKeepsFresh(w', events[1..], key, v, from);
    }
  }

  lemma ServedStaysFresh(w: World, w': World, key: (string, Option<Uuid>), v: nat, from: nat)
    requires w.history <= w'.history && w.served <= w'.served && from <= |w.served|
    requires ServedFresh(w, key, v, from) && ServedFresh(w', key, v, |w.served|)
    ensures ServedFresh(w', key, v, from)
  {
    hide Explained;
    forall n | from <= n < |w.served| && (w.served[n].role, w.served[n].tenant) == key && w.served[n].entry.right
      ensures Explained(w'.history, v, |w'.history|, key.0, key.1, w.served[n].entry.keys)
    {
      ExplainedGrows(w.history, w'.history, v, key.0, key.1, w.served[n].entry.keys);
    }
  }

  // ----- what a deletion achieves -----

  ghost predicate AllHarmless(w: World, key: (string, Option<Uuid>))
    requires w.history != []
  {
    forall rid :: rid in w.readers && (w.readers[rid].role, w.readers[rid].tenant) == key ==> Harmless(Current(w), w.readers[rid])
  }

  lemma DeletionMakesFresh(w: World, key: (string, Option<Uuid>))
    requires Inv(w) && AllHarmless(w, key)
    ensures FreshSince(Exec(w, Del(key.0, key.1, true)), key, |w.history| - 1)
    ensures ServedFresh(Exec(w, Del(key.0, key.1, true)), key, |w.history| - 1, |w.served|)
  {
    InvHasHistory(w);
    hide EntryOk, HistoryOk, ReaderOk, ReaderFresh, Harmless;
    forall rid | rid in w.readers && (w.readers[rid].role, w.readers[rid].tenant) == key
      ensures ReaderFresh(w.history, w.readers[rid], |w.history| - 1)
    {
      HarmlessIsFresh(w, w.readers[rid]);
    }
  }

  /** One more answer has been served, for this read, which no failed query has spoilt, and the last version of the tables does not explain it. */
  ghost predicate AnsweredStale(w: World, w': World, r: Reader) {
    && w'.history == w.history && w.history != [] && |w'.served| == |w.served| + 1
    && var s := w'.served[|w.served|];
    && (s.role, s.tenant) == (r.role, r.tenant) && s.entry.right
    && !Explained(w.history, |w.history| - 1, |w.history|, r.role, r.tenant, s.entry.keys)
  }

  /** A read that is not harmless can go on at once, and then answers with a set that the present version does not explain. */
  lemma HarmfulReadAnswersStale(w: World, rid: nat, role: string, tenant: Option<Uuid>)
    requires w.history != [] && rid in w.readers && !Harmless(Current(w), w.readers[rid])
    requires (w.readers[rid].role, w.readers[rid].tenant) == (role, tenant)
    ensures Exec(w, Del(role, tenant, true)).history != []
    ensures AnsweredStale(w, Run(Exec(w, Del(role, tenant, true)), [Fetch(rid, false), Fill(rid, true)]), w.readers[rid])
  {
    DelKeepsReaders(w, role, tenant);
    hide Resolves, WouldFill, Exec, Run, Explained;
    var r := w.readers[rid];
    var w1 := Exec(w, Del(role, tenant, true));
    FetchThenFill(w1, rid);
    RunTwo(w1, Fetch(rid, false), Fill(rid, true));
    NotExplainedByLast(w.history, r, WouldFill(Current(w), r));
  }

  lemma NotExplainedByLast(h: seq<Version>, r: Reader, keys: set<string>)
    requires h != [] && !Resolves(h[|h| - 1].db, r.role, r.tenant, keys)
    ensures !Explained(h, |h| - 1, |h|, r.role, r.tenant, keys)
  {
    hide Resolves;
  }

  lemma DelKeepsReaders(w: World, role: string, tenant: Option<Uuid>)
    requires w.history != []
    ensures var w1 := Exec(w, Del(role, tenant, true)); w1.readers == w.readers && w1.history == w.history && w1.served == w.served
  {
  }

  lemma FetchThenFill(w: World, rid: nat)
    requires w.history != [] && rid in w.readers && !w.readers[rid].progress.Missed? && Unspoilt(w.readers[rid])
    requires w.readers[rid].progress.GotRole? ==> w.readers[rid].tenant.Some?
    ensures Exec(w, Fetch(rid, false)).history != []
    ensures var r := w.readers[rid];
            var w' := Exec(Exec(w, Fetch(rid, false)), Fill(rid, true));
            w'.history == w.history &&
            w'.served == w.served + [Served(r.role, r.tenant, Entry(WouldFill(Current(w), r), r.beganAt, r.beganVersion, w.now, true), w.now)]
  {
    hide MergedKeys, Resolves;
  }

  lemma RunTwo(w: World, a: Event, b: Event)
    requires w.history != []
    ensures Exec(w, a).history != [] && Run(w, [a, b]) == Exec(Exec(w, a), b)
  {
    hide Exec;
    HistoryGrows(w, a);
    HistoryGrows(Exec(w, a), b);
    assert [a, b][1..] == [b] && [b][1..] == [];
    assert Run(Exec(w, a), [b]) == Run(Exec(Exec(w, a), b), []);
  }

  /**
   After a deletion that works, every later right answer for the entry, on every continuation, resolves the present version
   of the tables or a newer one, if and only if every read of that entry in flight is harmless.
   */
  lemma DeletionServesTheWriteIff(w: World, role: string, tenant: Option<Uuid>)
    requires Inv(w)
    ensures w.history != []
    ensures (forall events: seq<Event> ::
               ServedFresh(Run(Exec(w, Del(role, tenant, true)), events), (role, tenant), |w.history| - 1, |w.served|))
            <==> AllHarmless(w, (role, tenant))
  {
    InvHasHistory(w);
    hide Inv, Harmless, Exec, Run, Explained;
    var key := (role, tenant);
    var w1 := Exec(w, Del(role, tenant, true));
    HistoryGrows(w, Del(role, tenant, true));
    if AllHarmless(w, key) {
      forall events: seq<Event> ensures ServedFresh(Run(w1, events), key, |w.history| - 1, |w.served|) {
        HarmlessReadsStayFresh(w, role, tenant, events);
      }
    } else {
      var rid :| rid in w.readers && (w.readers[rid].role, w.readers[rid].tenant) == key && !Harmless(Current(w), w.readers[rid]);
      HarmfulReadAnswersStale(w, rid, role, tenant);
      assert !ServedFresh(Run(w1, [Fetch(rid, false), Fill(rid, true)]), key, |w.history| - 1, |w.served|);
    }
  }

  lemma HarmlessReadsStayFresh(w: World, role: string, tenant: Option<Uuid>, events: seq<Event>)
    requires Inv(w) && w.history != [] && AllHarmless(w, (role, tenant))
    ensures var w1 := Exec(w, Del(role, tenant, true));
            w1.history != [] && ServedFresh(Run(w1, events), (role, tenant), |w.history| - 1, |w.served|)
  {
    hide Inv, Harmless, FreshSince, Exec, Run, Explained;
    var w1 := Exec(w, Del(role, tenant, true));
    EventKeepsInv(w, Del(role, tenant, true));
    DelServesNothing(w, role, tenant);
    InvHasHistory(w1);
    DeletionMakesFresh(w, (role, tenant));
    RunKeepsFresh(w1, events, (role, tenant), |w.history| - 1, |w.served|);
  }

  lemma DelServesNothing(w: World, role: string, tenant: Option<Uuid>)
    requires w.history != []
    ensures Exec(w, Del(role, tenant, true)).served == w.served
  {
  }

  // ----- an old set put back -----

  /** A read fills the entry, and after a while another reader asks for it. */
  ghost function FilledThenAsked(w: World, rid: nat, role: string, tenant: Option<Uuid>, seconds: nat, other: nat): (w': World)
    requires w.history != []
    ensures w'.history != []
  {
    var w1 := Exec(w, Fill(rid, true));
    var w2 := Exec(w1, Tick(seconds));
    Exec(w2, Begin(other, role, tenant, false))
  }

  /** The tables change and the entry is deleted, then a read that was in flight fills it. */
  ghost function PutBack(w: World, write: Write, rid: nat, seconds: nat, other: nat): (w': World)
    requires w.history != [] && rid in w.readers
    ensures w'.history != []
  {
    var r := w.readers[rid];
    var w1 := Exec(w, DoWrite(write));
    var w2 := Exec(w1, Del(r.role, r.tenant, true));
    FilledThenAsked(w2, rid, r.role, r.tenant, seconds, other)
  }

  /**
   A read that has its keys when a write changes one of them fills the entry after the deletion. From then on the
   next reader is served the old set, which no version since the write explains, until exactly one TTL has passed.
   */
  lemma OlderFillOutlivesDeletion(w: World, rid: nat, other: nat, write: Write, k: string, seconds: nat)
    requires w.history != [] && rid in w.readers && w.readers[rid].progress.GotKeys? && other != rid && other !in w.readers
    requires Allowed(Current(w), write)
    requires var r := w.readers[rid];
             (k in r.progress.keys) != Granted(Written(Current(w), write, w.now).db, r.role, r.tenant, k)
    ensures var (r, w') := (w.readers[rid], PutBack(w, write, rid, seconds, other));
            && w'.history == w.history + [Written(Current(w), write, w.now)]
            && !Explained(w'.history, |w.history|, |w'.history|, r.role, r.tenant, r.progress.keys)
            && (seconds < TTL ==>
                  && |w'.served| == |w.served| + 2
                  && w'.served[|w.served| + 1].entry.keys == r.progress.keys && w'.served[|w.served| + 1].at == w.now + seconds)
            && (seconds >= TTL ==> |w'.served| == |w.served| + 1 && other in w'.readers)
  {
    hide Allowed, Written, Granted, Explained;
    var r := w.readers[rid];
    FillServesTwice(Exec(Exec(w, DoWrite(write)), Del(r.role, r.tenant, true)), rid, r.role, r.tenant, seconds, other);
    NewVersionDoesNotExplain(w.history, Written(Current(w), write, w.now), w.readers[rid], k);
  }

  lemma NewVersionDoesNotExplain(h: seq<Version>, v: Version, r: Reader, k: string)
    requires r.progress.GotKeys? && (k in r.progress.keys) != Granted(v.db, r.role, r.tenant, k)
    ensures !Explained(h + [v], |h|, |h + [v]|, r.role, r.tenant, r.progress.keys)
  {
    hide Granted;
    assert forall i :: |h| <= i < |h + [v]| ==> (h + [v])[i] == v;
  }

  /** A reader begins, looks up its role and fetches its keys before anything else happens; the last query may fail. */
  ghost function ReadAhead(w: World, rid: nat, role: string, tenant: Uuid, fails: bool): (w': World)
    requires w.history != []
    ensures w'.history == w.history
  {
    var w1 := Exec(w, Begin(rid, role, Some(tenant), false));
    var w2 := Exec(w1, LookUp(rid, NO_FAULTS));
    Exec(w2, Fetch(rid, fails))
  }

  /**
   Every effective revocation can be outlived like this: whenever the entry is not cached, a read of the role can get its
   keys just before the write.
   */
  lemma AnyRevocationCanBeOutlived(w: World, rid: nat, tenant: Uuid, roleId: string, k: string)
    requires w.history != [] && Inv(w) && rid !in w.readers
    requires Verdict(Current(w).db, UpdatePermission(tenant, roleId, k, false)).Done? && Effective(Current(w).db, roleId, tenant)
    requires var role := Current(w).db.roles[roleId].name;
             role != "owner" && Granted(Current(w).db, role, Some(tenant), k) && !Alive(w, (role, Some(tenant)))
    ensures var role := Current(w).db.roles[roleId].name;
            var write := SetOverride(OverrideRow(tenant, roleId, k, false));
            var w' := ReadAhead(w, rid, role, tenant, false);
            && Inv(w') && rid in w'.readers && w'.readers[rid].progress.GotKeys?
            && (w'.readers[rid].role, w'.readers[rid].tenant) == (role, Some(tenant)) && Allowed(Current(w'), write)
            && (k in w'.readers[rid].progress.keys) != Granted(Written(Current(w'), write, w'.now).db, role, Some(tenant), k)
  {
    hide Inv, ReadAhead, LookupRoleId, Written, Granted, Allowed, DbOk, Alive, Verdict, Effective;
    InvGivesOk(w);
    RevocationTargets(Current(w).db, tenant, roleId, k);
    RevocationChangesKey(w, tenant, roleId, k);
    ReadHasTheKey(w, rid, Current(w).db.roles[roleId].name, tenant, roleId, k);
  }

  lemma RevocationTargets(db: Rbac, tenant: Uuid, roleId: string, k: string)
    requires Verdict(db, UpdatePermission(tenant, roleId, k, false)).Done? && Effective(db, roleId, tenant)
    ensures roleId in db.roles && LookupRoleId(db, db.roles[roleId].name, tenant) == Some(roleId)
  {
    hide LookupRoleId;
  }

  lemma ReadHasTheKey(w: World, rid: nat, role: string, tenant: Uuid, roleId: string, k: string)
    requires w.history != [] && Inv(w) && rid !in w.readers && role != "owner" && !Alive(w, (role, Some(tenant)))
    requires LookupRoleId(Current(w).db, role, tenant) == Some(roleId) && Granted(Current(w).db, role, Some(tenant), k)
    ensures var w' := ReadAhead(w, rid, role, tenant, false);
            && Inv(w') && w'.now == w.now && w'.history == w.history && rid in w'.readers && w'.readers[rid].progress.GotKeys?
            && (w'.readers[rid].role, w'.readers[rid].tenant) == (role, Some(tenant)) && k in w'.readers[rid].progress.keys
  {
    hide Inv, ReadAhead, MergedKeys, GlobalKeys, LookupRoleId, Granted, Alive;
    ReadGoesAhead(w, rid, role, tenant, roleId, false);
    GrantedIsMerged(Current(w).db, role, tenant, roleId, k);
  }

  lemma GrantedIsMerged(db: Rbac, role: string, tenant: Uuid, roleId: string, k: string)
    requires role != "owner" && LookupRoleId(db, role, tenant) == Some(roleId) && Granted(db, role, Some(tenant), k)
    ensures k in MergedKeys(GlobalKeys(db, role), db, tenant, roleId)
  {
    hide MergedKeys, LookupRoleId, Granted;
    MergedKeysResolve(db, role, tenant, roleId);
  }

  lemma InvGivesOk(w: World)
    requires Inv(w)
    ensures DbOk(Current(w).db)
  {
    hide EntryOk, ReaderOk;
    assert VersionOk(w.history[|w.history| - 1]);
  }

  lemma RevocationChangesKey(w: World, tenant: Uuid, roleId: string, k: string)
    requires w.history != [] && DbOk(Current(w).db) && Verdict(Current(w).db, UpdatePermission(tenant, roleId, k, false)).Done?
    requires Effective(Current(w).db, roleId, tenant)
    ensures var (role, write) := (Current(w).db.roles[roleId].name, SetOverride(OverrideRow(tenant, roleId, k, false)));
            Allowed(Current(w), write) && !Granted(Written(Current(w), write, w.now).db, role, Some(tenant), k)
  {
    hide Granted, DbOk, Upsert;
    UpdateChangesOneKey(Current(w).db, tenant, roleId, k, false, k);
  }

  lemma ReadGoesAhead(w: World, rid: nat, role: string, tenant: Uuid, roleId: string, fails: bool)
    requires Inv(w) && rid !in w.readers && role != "owner" && !Alive(w, (role, Some(tenant)))
    requires w.history != [] && LookupRoleId(Current(w).db, role, tenant) == Some(roleId)
    ensures var (db, w') := (Current(w).db, ReadAhead(w, rid, role, tenant, fails));
            && Inv(w') && w'.now == w.now && w'.served == w.served && rid in w'.readers && w'.readers.Keys == w.readers.Keys + {rid}
            && w'.readers[rid].progress.GotKeys? && (w'.readers[rid].role, w'.readers[rid].tenant) == (role, Some(tenant))
            && w'.readers[rid].progress.keys == if fails then GlobalKeys(db, role) else MergedKeys(GlobalKeys(db, role), db, tenant, roleId)
  {
    hide Inv, MergedKeys, LookupRoleId, Exec, Alive;
    ReadAheadKeepsInv(w, rid, role, tenant, fails);
    BeginMisses(w, rid, role, tenant);
    var w1 := Exec(w, Begin(rid, role, Some(tenant), false));
    LookUpFinds(w1, rid, role, tenant, roleId);
    FetchMerges(Exec(w1, LookUp(rid, NO_FAULTS)), rid, role, tenant, roleId, GlobalKeys(Current(w).db, role), fails);
  }

  lemma BeginMisses(w: World, rid: nat, role: string, tenant: Uuid)
    requires w.history != [] && rid !in w.readers && !Alive(w, (role, Some(tenant)))
    ensures Exec(w, Begin(rid, role, Some(tenant), false)) ==
            w.(readers := w.readers[rid := Reader(role, Some(tenant), w.now, |w.history| - 1, Missed)])
  {
  }

  ghost predicate Reading(w: World, rid: nat, role: string, tenant: Uuid, progress: Progress) {
    rid in w.readers && w.readers[rid].role == role && w.readers[rid].tenant == Some(tenant) && w.readers[rid].progress == progress
  }

  lemma LookUpFinds(w: World, rid: nat, role: string, tenant: Uuid, roleId: string)
    requires w.history != [] && Reading(w, rid, role, tenant, Missed) && role != "owner"
    requires LookupRoleId(Current(w).db, role, tenant) == Some(roleId)
    ensures var w' := Exec(w, LookUp(rid, NO_FAULTS));
            && w'.history == w.history && w'.now == w.now && w'.served == w.served && w'.readers.Keys == w.readers.Keys
            && Reading(w', rid, role, tenant, GotRole(roleId, |w.history| - 1, GlobalKeys(Current(w).db, role), true))
  {
    hide LookupRoleId;
    NothingFailed(Current(w).db);
  }

  lemma FetchMerges(w: World, rid: nat, role: string, tenant: Uuid, roleId: string, globals: set<string>, fails: bool)
    requires w.history != [] && Reading(w, rid, role, tenant, GotRole(roleId, |w.history| - 1, globals, true))
    ensures var w' := Exec(w, Fetch(rid, fails));
            && w'.history == w.history && w'.now == w.now && w'.served == w.served && w'.readers.Keys == w.readers.Keys && rid in w'.readers
            && w'.readers[rid].progress.GotKeys? && (w'.readers[rid].role, w'.readers[rid].tenant) == (role, Some(tenant))
            && w'.readers[rid].progress.keys == if fails then globals else MergedKeys(globals, Current(w).db, tenant, roleId)
  {
    hide MergedKeys, Resolves;
  }

  lemma ReadAheadKeepsInv(w: World, rid: nat, role: string, tenant: Uuid, fails: bool)
    requires w.history != [] && Inv(w)
    ensures Inv(ReadAhead(w, rid, role, tenant, fails))
  {
    hide Inv, Exec;
    var w1 := Exec(w, Begin(rid, role, Some(tenant), false));
    EventKeepsInv(w, Begin(rid, role, Some(tenant), false));
    InvHasHistory(w1);
    EventKeepsInv(w1, LookUp(rid, NO_FAULTS));
    var w2 := Exec(w1, LookUp(rid, NO_FAULTS));
    InvHasHistory(w2);
    EventKeepsInv(w2, Fetch(rid, fails));
  }

  // ----- a failed query -----

  /**
   When the override query of a read fails, a key that the tenant has revoked is granted, however long ago that was: to this
   read, and from the cache to every reader for exactly one TTL. If no version granted the key, none explains the answer.
   */
  lemma FailedFetchServesRevokedKey(w: World, rid: nat, other: nat, role: string, tenant: Uuid, k: string, seconds: nat)
    requires w.history != [] && Inv(w) && rid !in w.readers && other !in w.readers && rid != other && role != "owner"
    requires !Alive(w, (role, Some(tenant)))
    requires Globally(Current(w).db, role, k) && OverrideOf(Current(w).db, role, Some(tenant), k, false)
    ensures var w' := FilledThenAsked(ReadAhead(w, rid, role, tenant, true), rid, role, Some(tenant), seconds, other);
            && w'.history == w.history && !Granted(Current(w).db, role, Some(tenant), k)
            && |w'.served| == |w.served| + (if seconds < TTL then 2 else 1) && (seconds >= TTL ==> other in w'.readers)
            && forall n :: |w.served| <= n < |w'.served| ==>
                 var s := w'.served[n];
                 && (s.role, s.tenant) == (role, Some(tenant)) && k in s.entry.keys && s.at == w.now + (if n == |w.served| then 0 else seconds)
                 && ((forall i :: 0 <= i < |w.history| ==> !Granted(w.history[i].db, role, Some(tenant), k)) ==>
                       !Explained(w.history, 0, |w.history|, role, Some(tenant), s.entry.keys))
  {
    var db := Current(w).db;
    var roleId := LookupRoleId(db, role, tenant).value;
    InvGivesOk(w);
    RevokedKey(db, role, tenant, k);
    hide Inv, ReadAhead, MergedKeys, LookupRoleId, Granted, Explained, OverrideOf, FilledThenAsked, DbOk, Alive;
    ReadGoesAhead(w, rid, role, tenant, roleId, true);
    KeyServedTwice(ReadAhead(w, rid, role, tenant, true), rid, role, Some(tenant), k, seconds, other);
  }

  /** Both answers hold a key that the read has. */
  lemma KeyServedTwice(w: World, rid: nat, role: string, tenant: Option<Uuid>, k: string, seconds: nat, other: nat)
    requires w.history != [] && rid in w.readers && w.readers[rid].progress.GotKeys? && other !in w.readers
    requires (w.readers[rid].role, w.readers[rid].tenant) == (role, tenant) && k in w.readers[rid].progress.keys
    ensures var w' := FilledThenAsked(w, rid, role, tenant, seconds, other);
            && w'.history == w.history
            && |w'.served| == |w.served| + (if seconds < TTL then 2 else 1) && (seconds >= TTL ==> other in w'.readers)
            && forall n :: |w.served| <= n < |w'.served| ==>
                 var s := w'.served[n];
                 && (s.role, s.tenant) == (role, tenant) && k in s.entry.keys && s.at == w.now + (if n == |w.served| then 0 else seconds)
                 && ((forall i :: 0 <= i < |w.history| ==> !Granted(w.history[i].db, role, tenant, k)) ==>
                       !Explained(w.history, 0, |w.history|, role, tenant, s.entry.keys))
  {
    hide Granted, Explained, FilledThenAsked;
    FillServesTwice(w, rid, role, tenant, seconds, other);
    NeverGranted(w.history, role, tenant, k, w.readers[rid].progress.keys);
  }

  lemma RevokedKey(db: Rbac, role: string, tenant: Uuid, k: string)
    requires DbOk(db) && role != "owner" && OverrideOf(db, role, Some(tenant), k, false)
    ensures !Granted(db, role, Some(tenant), k)
  {
    hide OverrideOf, DbOk;
    OneOverride(db, NO_FAULTS, role, Some(tenant), k);
    GrantedByOverride(db, role, Some(tenant), k);
  }

  lemma FillServesTwice(w: World, rid: nat, role: string, tenant: Option<Uuid>, seconds: nat, other: nat)
    requires w.history != [] && rid in w.readers && w.readers[rid].progress.GotKeys? && other !in w.readers
    requires (w.readers[rid].role, w.readers[rid].tenant) == (role, tenant)
    ensures var (r, w') := (w.readers[rid], FilledThenAsked(w, rid, role, tenant, seconds, other));
            var entry := Entry(r.progress.keys, r.beganAt, r.beganVersion, w.now, r.progress.right);
            && w'.history == w.history
            && w'.served == w.served + [Served(role, tenant, entry, w.now)]
                            + (if seconds < TTL then [Served(role, tenant, entry, w.now + seconds)] else [])
            && (seconds >= TTL ==> other in w'.readers)
  {
  }

  lemma NeverGranted(h: seq<Version>, role: string, tenant: Option<Uuid>, k: string, keys: set<string>)
    requires k in keys
    ensures (forall i :: 0 <= i < |h| ==> !Granted(h[i].db, role, tenant, k)) ==> !Explained(h, 0, |h|, role, tenant, keys)
  {
    hide Granted;
  }
}
