/**
 Login sessions and refresh-token rotation with reuse detection. Requests are atomic, but each of their
 statements may fail: a failed read is a missing row, and a failed write goes unnoticed. Tokens are kept in the
 order in which they were issued; a new token hash and a new session id are fresh, as 64 random bytes and a UUID
 are. Time is in seconds.
 */
module RefreshTokens {
  import opened Options

  const WEEK := 7 * 24 * 3600

  type SessionId = nat

  datatype Session = Session(user: string, tenant: Option<string>, revoked: bool)

  datatype Token = Token(hash: string, session: SessionId, user: string, used: bool, expiresAt: nat)

  datatype AuthState = AuthState(sessions: map<SessionId, Session>, tokens: seq<Token>)

  datatype RefreshResult = Refreshed(hash: string) | InvalidToken | ReuseDetected | Expired | SessionRevoked | UserNotFound

  /** Which statements of a request went through: its reads, the insert of a session, and the writes to both tables. */
  datatype Answers = Answers(tokenRead: bool, sessionRead: bool, userFound: bool, sessionInserted: bool,
                             tokenInserted: bool, marked: bool, revoked: bool)

  const ALL_WELL := Answers(true, true, true, true, true, true, true)

  datatype Op =
    | Login(user: string, tenant: Option<string>, session: SessionId, hash: string, now: nat, a: Answers)
    | Refresh(hash: string, newHash: string, now: nat, a: Answers)
    | Logout(session: SessionId, a: Answers)
    | Revoke(session: SessionId, actor: string, isSuperadmin: bool, tenant: Option<string>, a: Answers)
    | RevokeAll(user: string, tenant: Option<string>, a: Answers)

  // ----- the writes -----

  /** The index of the token with this hash. */
  function Find(tokens: seq<Token>, hash: string): (found: Option<nat>)
    ensures found.Some? ==> found.value < |tokens| && tokens[found.value].hash == hash
    ensures found.None? ==> forall i :: 0 <= i < |tokens| ==> tokens[i].hash != hash
  {
    if tokens == [] then None
    else if tokens[|tokens| - 1].hash == hash then Some(|tokens| - 1)
    else Find(tokens[..|tokens| - 1], hash)
  }

  function Revoked(sessions: map<SessionId, Session>, which: set<SessionId>): map<SessionId, Session> {
    map s | s in sessions :: if s in which then sessions[s].(revoked := true) else sessions[s]
  }

  function Used(tokens: seq<Token>, which: set<SessionId>): seq<Token> {
    seq(|tokens|, i requires 0 <= i < |tokens| => if tokens[i].session in which then tokens[i].(used := true) else tokens[i])
  }

  /** The two updates that end sessions: revoke them, and use up their tokens. */
  function Ended(st: AuthState, which: set<SessionId>, a: Answers): AuthState {
    AuthState(if a.revoked then Revoked(st.sessions, which) else st.sessions, if a.marked then Used(st.tokens, which) else st.tokens)
  }

  function RefreshStep(st: AuthState, hash: string, newHash: string, now: nat, a: Answers): (AuthState, RefreshResult) {
    var found := Find(st.tokens, hash);
    if found.None? || !a.tokenRead then (st, InvalidToken) else
    var t := st.tokens[found.value];
    if t.used then (Ended(st, {t.session}, a.(marked := false)), ReuseDetected)
    else if t.expiresAt < now then (st, Expired)
    else if t.session !in st.sessions || !a.sessionRead || st.sessions[t.session].revoked then (st, SessionRevoked)
    else if !a.userFound then (st, UserNotFound)
    else
      var kept := if a.marked then st.tokens[found.value := t.(used := true)] else st.tokens;
      (st.(tokens := if a.tokenInserted then kept + [Token(newHash, t.session, t.user, false, now + WEEK)] else kept), Refreshed(newHash))
  }

  predicate MayRevoke(st: AuthState, session: SessionId, actor: string, isSuperadmin: bool, tenant: Option<string>) {
    && session in st.sessions
    && (!isSuperadmin && tenant.Some? ==> st.sessions[session].tenant == tenant)
    && (isSuperadmin || st.sessions[session].user == actor)
  }

  function SessionsOf(st: AuthState, user: string, tenant: Option<string>): set<SessionId> {
    set s | s in st.sessions && st.sessions[s].user == user && st.sessions[s].tenant == tenant && !st.sessions[s].revoked
  }

  predicate Possible(st: AuthState, op: Op) {
    match op
    case Login(_, _, session, hash, _, _) => session !in st.sessions && Find(st.tokens, hash).None?
    case Refresh(_, newHash, _, _) => Find(st.tokens, newHash).None?
    case _ => true
  }

  function Exec(st: AuthState, op: Op): AuthState {
    if !Possible(st, op) then st else
    match op
    case Login(user, tenant, session, hash, now, a) =>
      if !a.sessionInserted then st
      else AuthState(st.sessions[session := Session(user, tenant, false)],
                     if a.tokenInserted then st.tokens + [Token(hash, session, user, false, now + WEEK)] else st.tokens)
    case Refresh(hash, newHash, now, a) => RefreshStep(st, hash, newHash, now, a).0
    case Logout(session, a) => Ended(st, {session}, a)
    case Revoke(session, actor, isSuperadmin, tenant, a) =>
      if a.sessionRead && MayRevoke(st, session, actor, isSuperadmin, tenant) then Ended(st, {session}, a) else st
    case RevokeAll(user, tenant, a) => if a.sessionRead then Ended(st, SessionsOf(st, user, tenant), a) else st
  }

  function Run(st: AuthState, ops: seq<Op>): AuthState
    decreases |ops|
  {
    if ops == [] then st else Run(Exec(st, ops[0]), ops[1..])
  }

  // ----- the invariant -----

  /** Every token but the last one issued to a session has been used. */
  ghost predicate ChainOk(tokens: seq<Token>) {
    forall i, j :: 0 <= i < j < |tokens| && tokens[i].session == tokens[j].session ==> tokens[i].used
  }

  /** Hashes are distinct, and each token belongs to a session and its user: true whatever fails. */
  ghost predicate Inv(st: AuthState) {
    && (forall i, j :: 0 <= i < j < |st.tokens| ==> st.tokens[i].hash != st.tokens[j].hash)
    && (forall i :: 0 <= i < |st.tokens| ==> st.tokens[i].session in st.sessions
                                             && st.tokens[i].user == st.sessions[st.tokens[i].session].user)
  }

  lemma EndingKeepsInv(st: AuthState, which: set<SessionId>, a: Answers)
    requires Inv(st)
    ensures Inv(Ended(st, which, a))
  {
  }

  lemma RefreshKeepsInv(st: AuthState, hash: string, newHash: string, now: nat, a: Answers)
    requires Inv(st) && Find(st.tokens, newHash).None?
    ensures Inv(RefreshStep(st, hash, newHash, now, a).0)
  {
    hide Find, Ended;
    var found := Find(st.tokens, hash);
    if found.Some? { EndingKeepsInv(st, {st.tokens[found.value].session}, a.(marked := false)); }
  }

  lemma LoginKeepsInv(st: AuthState, op: Op)
    requires Inv(st) && op.Login? && Possible(st, op)
    ensures Inv(Exec(st, op))
  {
    hide Find;
  }

  lemma StepKeepsInv(st: AuthState, op: Op)
    requires Inv(st)
    ensures Inv(Exec(st, op))
  {
    hide Inv, Find, Ended, RefreshStep, MayRevoke, SessionsOf;
    if Possible(st, op) {
      match op
      case Login(_, _, _, _, _, _) => LoginKeepsInv(st, op);
      case Refresh(hash, newHash, now, a) => RefreshKeepsInv(st, hash, newHash, now, a);
      case Logout(session, a) => EndingKeepsInv(st, {session}, a);
      case Revoke(session, _, _, _, a) => EndingKeepsInv(st, {session}, a);
      case RevokeAll(user, tenant, a) => EndingKeepsInv(st, SessionsOf(st, user, tenant), a);
    }
  }

  lemma {:induction false} RunKeepsInv(st: AuthState, ops: seq<Op>)
    requires Inv(st)
    ensures Inv(Run(st, ops))
    decreases |ops|
  {
    hide Inv, Exec;
    if ops != [] {
      StepKeepsInv(st, ops[0]);
      RunKeepsInv(Exec(st, ops[0]), ops[1..]);
    }
  }

  // ----- what each operation decides and writes, row by row -----

  /** A login that stores its session adds that row and one token, good for a week; without its session it adds nothing. */
  lemma LoginRows(st: AuthState, op: Op)
    requires op.Login? && Possible(st, op)
    ensures var st' := Exec(st, op);
            && (!op.a.sessionInserted ==> st' == st)
            && (op.a.sessionInserted ==>
                  && op.session !in st.sessions && st'.sessions == st.sessions[op.session := Session(op.user, op.tenant, false)]
                  && st'.tokens == st.tokens + if op.a.tokenInserted then [Token(op.hash, op.session, op.user, false, op.now + 604800)] else [])
            && forall i :: 0 <= i < |st.tokens| ==> st.tokens[i].hash != op.hash
  {
    hide Find;
  }

  /** What a refresh answers, and the one condition behind each answer, in the order in which they are looked at. */
  lemma RefreshAnswers(st: AuthState, hash: string, newHash: string, now: nat, a: Answers, i: nat)
    requires Inv(st) && i < |st.tokens| && st.tokens[i].hash == hash
    ensures var (t, result) := (st.tokens[i], RefreshStep(st, hash, newHash, now, a).1);
            var live := a.sessionRead && t.session in st.sessions && !st.sessions[t.session].revoked;
            && (result == InvalidToken <==> !a.tokenRead)
            && (result == ReuseDetected <==> a.tokenRead && t.used)
            && (result == Expired <==> a.tokenRead && !t.used && t.expiresAt < now)
            && (result == SessionRevoked <==> a.tokenRead && !t.used && now <= t.expiresAt && !live)
            && (result == UserNotFound <==> a.tokenRead && !t.used && now <= t.expiresAt && live && !a.userFound)
            && (result == Refreshed(newHash) <==> a.tokenRead && !t.used && now <= t.expiresAt && live && a.userFound)
  {
    assert Find(st.tokens, hash) == Some(i) by { hide Find; }
    hide Find;
  }

  /**
   What a refresh writes: a success marks its token and adds the next one of the same session and user, a replay revokes the
   session, and any other answer changes nothing.
   */
  lemma RefreshRows(st: AuthState, hash: string, newHash: string, now: nat, a: Answers, i: nat)
    requires Inv(st) && i < |st.tokens| && st.tokens[i].hash == hash
    ensures var (t, st', result) := (st.tokens[i], RefreshStep(st, hash, newHash, now, a).0, RefreshStep(st, hash, newHash, now, a).1);
            && (result == Refreshed(newHash) ==>
                  && st'.sessions == st.sessions
                  && st'.tokens == (if a.marked then st.tokens[i := t.(used := true)] else st.tokens)
                                   + (if a.tokenInserted then [Token(newHash, t.session, t.user, false, now + 604800)] else []))
            && (result == ReuseDetected ==>
                  && st'.tokens == st.tokens && st'.sessions.Keys == st.sessions.Keys
                  && forall s :: s in st.sessions ==>
                       st'.sessions[s] == if a.revoked && s == t.session then st.sessions[s].(revoked := true) else st.sessions[s])
            && (result == InvalidToken || result == Expired || result == SessionRevoked || result == UserNotFound ==> st' == st)
  {
    assert Find(st.tokens, hash) == Some(i) by { hide Find; }
    hide Find;
  }

  lemma UnknownTokenIsInvalid(st: AuthState, hash: string, newHash: string, now: nat, a: Answers)
    requires forall i :: 0 <= i < |st.tokens| ==> st.tokens[i].hash != hash
    ensures RefreshStep(st, hash, newHash, now, a) == (st, InvalidToken)
  {
    hide Find;
  }

  /**
   Which rows the operations that end sessions write. Logging out ends the session named; revoking one ends it for its own user
   within the tenant, or for a superadmin; revoking all ends exactly the live sessions of that user in that tenant.
   */
  lemma EndingRows(st: AuthState, op: Op, s: SessionId)
    requires Inv(st) && (op.Logout? || op.Revoke? || op.RevokeAll?) && s in st.sessions
    ensures var (st', row) := (Exec(st, op), st.sessions[s]);
            var ends := match op
              case Logout(session, _) => s == session
              case Revoke(session, actor, isSuperadmin, tenant, a) =>
                a.sessionRead && s == session && (isSuperadmin || (row.user == actor && (tenant.None? || row.tenant == tenant)))
              case RevokeAll(user, tenant, a) => a.sessionRead && row.user == user && row.tenant == tenant && !row.revoked
              case _ => false;
            && st'.sessions.Keys == st.sessions.Keys && |st'.tokens| == |st.tokens|
            && st'.sessions[s] == (if ends && op.a.revoked then row.(revoked := true) else row)
            && forall i :: 0 <= i < |st.tokens| && st.tokens[i].session == s ==>
                 st'.tokens[i] == if ends && op.a.marked then st.tokens[i].(used := true) else st.tokens[i]
  {
  }

  const EMPTY := AuthState(map[], [])

  // ----- one token at a time -----

  /** A refresh that issues a token while the mark on the old one is lost. */
  predicate LosesMark(st: AuthState, op: Op) {
    && op.Refresh? && Possible(st, op) && RefreshStep(st, op.hash, op.newHash, op.now, op.a).1.Refreshed?
    && op.a.tokenInserted && !op.a.marked
  }

  lemma OnlyUnused(st: AuthState, n: nat)
    requires ChainOk(st.tokens) && n < |st.tokens| && !st.tokens[n].used
    ensures forall i :: 0 <= i < |st.tokens| && i != n && st.tokens[i].session == st.tokens[n].session ==> st.tokens[i].used && i < n
  {
    assert forall i :: n < i < |st.tokens| ==> st.tokens[i].session != st.tokens[n].session;
  }

  /** A request leaves a session with two unused tokens exactly when it is a refresh that loses its mark. */
  lemma ChainKeptIff(st: AuthState, op: Op)
    requires Inv(st) && ChainOk(st.tokens)
    ensures ChainOk(Exec(st, op).tokens) <==> !LosesMark(st, op)
  {
    hide Find;
    var st' := Exec(st, op);
    if op.Refresh? && Possible(st, op) && RefreshStep(st, op.hash, op.newHash, op.now, op.a).1.Refreshed? {
      var n := Find(st.tokens, op.hash).value;
      OnlyUnused(st, n);
      if LosesMark(st, op) {
        assert st'.tokens[n].session == st'.tokens[|st.tokens|].session && !st'.tokens[n].used;
      }
    } else if op.Login? && Possible(st, op) {
      assert forall i :: 0 <= i < |st.tokens| ==> st.tokens[i].session != op.session;
    }
  }

  /** No refresh of the run issues a token while its mark is lost. */
  ghost predicate KeepsMarks(st: AuthState, ops: seq<Op>)
    decreases |ops|
  {
    ops == [] || (!LosesMark(st, ops[0]) && KeepsMarks(Exec(st, ops[0]), ops[1..]))
  }

  lemma {:induction false} ChainKept(st: AuthState, ops: seq<Op>)
    requires Inv(st) && ChainOk(st.tokens) && KeepsMarks(st, ops)
    ensures ChainOk(Run(st, ops).tokens)
    decreases |ops|
  {
    hide Inv, Exec, ChainOk, LosesMark;
    if ops != [] {
      ChainKeptIff(st, ops[0]);
      StepKeepsInv(st, ops[0]);
      ChainKept(Exec(st, ops[0]), ops[1..]);
    }
  }

  /** In every run that loses no mark, whatever else fails, a session has at most one unused token, and it is the newest one. */
  lemma AtMostOneUnusedToken(ops: seq<Op>, s: SessionId)
    requires KeepsMarks(EMPTY, ops)
    ensures var st := Run(EMPTY, ops);
            forall i, j :: 0 <= i < |st.tokens| && 0 <= j < |st.tokens| ==>
              (st.tokens[i].session == s && st.tokens[j].session == s && !st.tokens[i].used ==>
                 j <= i && (!st.tokens[j].used ==> i == j))
  {
    ChainKept(EMPTY, ops);
    hide Run;
    var st := Run(EMPTY, ops);
    forall i, j | 0 <= i < |st.tokens| && 0 <= j < |st.tokens| && st.tokens[i].session == s && st.tokens[j].session == s && !st.tokens[i].used
      ensures j <= i && (!st.tokens[j].used ==> i == j)
    {
      OnlyUnused(st, i);
    }
  }

  // ----- live sessions can go on -----

  ghost predicate HasUnused(tokens: seq<Token>, s: SessionId) {
    exists i :: 0 <= i < |tokens| && tokens[i].session == s && !tokens[i].used
  }

  /** Every session that is not revoked has an unused token. */
  ghost predicate AllUsable(st: AuthState) {
    forall s :: s in st.sessions && !st.sessions[s].revoked ==> HasUnused(st.tokens, s)
  }

  /** The statements that take a token away or open a session go through only together with their counterparts. */
  predicate Paired(op: Op) {
    match op
    case Login(_, _, _, _, _, a) => a.sessionInserted ==> a.tokenInserted
    case Refresh(_, _, _, a) => a.marked ==> a.tokenInserted
    case _ => op.a.marked ==> op.a.revoked
  }

  lemma UnusedSurvives(st: AuthState, st': AuthState, s: SessionId)
    requires HasUnused(st.tokens, s) && |st.tokens| <= |st'.tokens|
    requires forall i :: 0 <= i < |st.tokens| && st.tokens[i].session == s ==> st'.tokens[i] == st.tokens[i]
    ensures HasUnused(st'.tokens, s)
  {
    var i :| 0 <= i < |st.tokens| && st.tokens[i].session == s && !st.tokens[i].used;
    assert st'.tokens[i].session == s && !st'.tokens[i].used;
  }

  lemma PairedKeepsUsable(st: AuthState, op: Op)
    requires AllUsable(st) && Paired(op)
    ensures AllUsable(Exec(st, op))
  {
    hide Find, HasUnused;
    var st' := Exec(st, op);
    forall s | s in st'.sessions && !st'.sessions[s].revoked ensures HasUnused(st'.tokens, s) {
      if s !in st.sessions {
        NewestIsUnused(st'.tokens, s);
      } else if |st'.tokens| > |st.tokens| && st'.tokens[|st.tokens|].session == s {
        NewestIsUnused(st'.tokens, s);
      } else {
        UnusedSurvives(st, st', s);
      }
    }
  }

  lemma NewestIsUnused(tokens: seq<Token>, s: SessionId)
    requires tokens != [] && tokens[|tokens| - 1].session == s && !tokens[|tokens| - 1].used
    ensures HasUnused(tokens, s)
  {
  }

  /** If paired statements go through together, every session that is not revoked can be refreshed in every state of the run. */
  lemma {:induction false} LiveSessionsStayUsable(st: AuthState, ops: seq<Op>)
    requires AllUsable(st) && forall i :: 0 <= i < |ops| ==> Paired(ops[i])
    ensures AllUsable(Run(st, ops))
    decreases |ops|
  {
    hide AllUsable, Exec, Paired;
    if ops != [] {
      PairedKeepsUsable(st, ops[0]);
      LiveSessionsStayUsable(Exec(st, ops[0]), ops[1..]);
    }
  }

  // ----- nothing goes back -----

  ghost predicate Forward(st: AuthState, st': AuthState) {
    && |st.tokens| <= |st'.tokens|
    && (forall i :: 0 <= i < |st.tokens| ==>
          st'.tokens[i].(used := false) == st.tokens[i].(used := false) && (st.tokens[i].used ==> st'.tokens[i].used))
    && (forall s :: s in st.sessions ==>
          s in st'.sessions && st'.sessions[s].(revoked := false) == st.sessions[s].(revoked := false)
          && (st.sessions[s].revoked ==> st'.sessions[s].revoked))
  }

  lemma StepGoesForward(st: AuthState, op: Op)
    ensures Forward(st, Exec(st, op))
  {
    hide Find;
  }

  /** `is_used` and `is_revoked` never go back, and no row disappears or changes its owner. */
  lemma {:induction false} RunGoesForward(st: AuthState, ops: seq<Op>)
    ensures Forward(st, Run(st, ops))
    decreases |ops|
  {
    hide Exec;
    if ops != [] {
      StepGoesForward(st, ops[0]);
      RunGoesForward(Exec(st, ops[0]), ops[1..]);
      ForwardTransitive(st, Exec(st, ops[0]), Run(st, ops));
    }
  }

  lemma ForwardTransitive(a: AuthState, b: AuthState, c: AuthState)
    requires Forward(a, b) && Forward(b, c)
    ensures Forward(a, c)
  {
    forall i | 0 <= i < |a.tokens| ensures c.tokens[i].(used := false) == a.tokens[i].(used := false) {
      assert c.tokens[i].(used := false) == b.tokens[i].(used := false);
    }
    forall s | s in a.sessions ensures s in c.sessions && c.sessions[s].(revoked := false) == a.sessions[s].(revoked := false) {
      assert c.sessions[s].(revoked := false) == b.sessions[s].(revoked := false);
    }
  }

  // ----- dead sessions -----

  /** The operation is a refresh that succeeds for session s. */
  predicate Refreshes(st: AuthState, op: Op, s: SessionId) {
    && op.Refresh? && Possible(st, op)
    && RefreshStep(st, op.hash, op.newHash, op.now, op.a).1.Refreshed?
    && st.tokens[Find(st.tokens, op.hash).value].session == s
  }

  function Successes(st: AuthState, ops: seq<Op>, s: SessionId): nat
    decreases |ops|
  {
    if ops == [] then 0 else (if Refreshes(st, ops[0], s) then 1 else 0) + Successes(Exec(st, ops[0]), ops[1..], s)
  }

  /** Refreshes of the run are made at time t or later. */
  predicate From(ops: seq<Op>, t: nat) {
    forall i :: 0 <= i < |ops| && ops[i].Refresh? ==> t <= ops[i].now
  }

  /** From time t on the session is revoked or left without a token that could be refreshed. */
  ghost predicate Dead(st: AuthState, s: SessionId, t: nat) {
    && s in st.sessions
    && (st.sessions[s].revoked || forall i :: 0 <= i < |st.tokens| && st.tokens[i].session == s && !st.tokens[i].used ==> st.tokens[i].expiresAt < t)
  }

  lemma DeadStaysDead(st: AuthState, op: Op, s: SessionId, t: nat)
    requires Dead(st, s, t) && (op.Refresh? ==> t <= op.now)
    ensures !Refreshes(st, op, s) && Dead(Exec(st, op), s, t)
  {
    hide Find;
  }

  lemma {:induction false} DeadNeverRefreshes(st: AuthState, ops: seq<Op>, s: SessionId, t: nat)
    requires Dead(st, s, t) && From(ops, t)
    ensures Successes(st, ops, s) == 0
    decreases |ops|
  {
    hide Exec, Dead, Refreshes;
    if ops != [] {
      DeadStaysDead(st, ops[0], s, t);
      DeadNeverRefreshes(Exec(st, ops[0]), ops[1..], s, t);
    }
  }

  /** A hash that no token has. */
  function FreshHash(tokens: seq<Token>): (h: string)
    ensures forall i :: 0 <= i < |tokens| ==> |tokens[i].hash| < |h|
  {
    if tokens == [] then "h" else FreshHash(tokens[..|tokens| - 1]) + tokens[|tokens| - 1].hash + "h"
  }

  /** No later refresh of a session ever succeeds, on any continuation, if and only if the session is dead. */
  lemma NeverRefreshesIffDead(st: AuthState, s: SessionId, t: nat)
    requires Inv(st) && s in st.sessions
    ensures (forall ops :: From(ops, t) ==> Successes(st, ops, s) == 0) <==> Dead(st, s, t)
  {
    if Dead(st, s, t) {
      forall ops | From(ops, t) ensures Successes(st, ops, s) == 0 { DeadNeverRefreshes(st, ops, s, t); }
    } else {
      var i :| 0 <= i < |st.tokens| && st.tokens[i].session == s && !st.tokens[i].used && st.tokens[i].expiresAt >= t;
      var newHash := FreshHash(st.tokens);
      assert Find(st.tokens, newHash).None?;
      assert Find(st.tokens, st.tokens[i].hash) == Some(i) by { hide Find; }
      hide Find, FreshHash;
      var op := Refresh(st.tokens[i].hash, newHash, t, ALL_WELL);
      assert Refreshes(st, op, s);
      assert Successes(st, [op], s) >= 1 && From([op], t);
    }
  }

  /** Once revoked, a session never refreshes again, whatever is presented, whatever fails and whatever else happens. */
  lemma RevokedSessionNeverRefreshes(st: AuthState, ops: seq<Op>, s: SessionId)
    requires s in st.sessions && st.sessions[s].revoked
    ensures Successes(st, ops, s) == 0
  {
    DeadNeverRefreshes(st, ops, s, 0);
  }

  /** The operation sets out to end session s: logout, an allowed revocation, or the replay of a token already used. */
  ghost predicate Ends(st: AuthState, op: Op, s: SessionId) {
    match op
    case Logout(session, _) => session == s
    case Revoke(session, actor, isSuperadmin, tenant, a) => session == s && a.sessionRead && MayRevoke(st, session, actor, isSuperadmin, tenant)
    case RevokeAll(user, tenant, a) => a.sessionRead && s in SessionsOf(st, user, tenant)
    case Refresh(hash, newHash, _, a) =>
      a.tokenRead && exists i :: 0 <= i < |st.tokens| && st.tokens[i].hash == hash && st.tokens[i].session == s && st.tokens[i].used
    case Login(_, _, _, _, _, _) => false
  }

  /** At least one of the updates that end the session went through; a replay makes only one. */
  predicate TookEffect(op: Op) {
    op.a.revoked || (op.a.marked && !op.Refresh?)
  }

  /**
   After an operation that sets out to end a session, which answers the same whatever fails, no refresh of the session
   ever succeeds again if and only if one of its updates went through, or the session was dead before.
   */
  lemma EndedSessionNeverRefreshesIff(st: AuthState, op: Op, s: SessionId, t: nat)
    requires Inv(st) && s in st.sessions && Possible(st, op) && Ends(st, op, s)
    ensures (forall ops :: From(ops, t) ==> Successes(Exec(st, op), ops, s) == 0) <==> TookEffect(op) || Dead(st, s, t)
  {
    StepKeepsInv(st, op);
    EndingMakesDead(st, op, s, t);
    hide Successes, Exec, Dead;
    NeverRefreshesIffDead(Exec(st, op), s, t);
  }

  lemma EndingMakesDead(st: AuthState, op: Op, s: SessionId, t: nat)
    requires Inv(st) && s in st.sessions && Possible(st, op) && Ends(st, op, s)
    ensures s in Exec(st, op).sessions && (Dead(Exec(st, op), s, t) <==> TookEffect(op) || Dead(st, s, t))
  {
    if op.Refresh? {
      var i :| 0 <= i < |st.tokens| && st.tokens[i].hash == op.hash && st.tokens[i].session == s && st.tokens[i].used;
      assert Find(st.tokens, op.hash) == Some(i) by { hide Find; }
    }
    hide Find;
    var st' := Exec(st, op);
    assert |st'.tokens| == |st.tokens|;
    if !op.Refresh? && !op.a.marked { assert st'.tokens == st.tokens; }
  }

  /** When no mark was lost, a refresh succeeds only with the newest token of a live session, unused and unexpired. */
  lemma OnlyNewestTokenRefreshes(st: AuthState, op: Op, s: SessionId)
    requires ChainOk(st.tokens) && Refreshes(st, op, s)
    ensures var n := Find(st.tokens, op.hash).value;
            && !st.tokens[n].used && op.now <= st.tokens[n].expiresAt && !st.sessions[s].revoked
            && forall i :: n < i < |st.tokens| ==> st.tokens[i].session != s
  {
    hide Find;
    OnlyUnused(st, Find(st.tokens, op.hash).value);
  }

  // ----- counting -----

  function Issued(tokens: seq<Token>, s: SessionId): nat {
    if tokens == [] then 0
    else Issued(tokens[..|tokens| - 1], s) + if tokens[|tokens| - 1].session == s then 1 else 0
  }

  lemma {:induction false} IssuedDependsOnSessions(a: seq<Token>, b: seq<Token>, s: SessionId)
    requires |a| == |b| && forall i :: 0 <= i < |a| ==> a[i].session == b[i].session
    ensures Issued(a, s) == Issued(b, s)
  {
    if a != [] { IssuedDependsOnSessions(a[..|a| - 1], b[..|b| - 1], s); }
  }

  predicate LogsIn(st: AuthState, op: Op, s: SessionId) {
    op.Login? && Possible(st, op) && op.session == s && op.a.sessionInserted
  }

  /** The operation succeeds for the session and its new token is stored. */
  predicate Issues(st: AuthState, op: Op, s: SessionId) {
    (Refreshes(st, op, s) || LogsIn(st, op, s)) && op.a.tokenInserted
  }

  function Issuings(st: AuthState, ops: seq<Op>, s: SessionId): nat
    decreases |ops|
  {
    if ops == [] then 0 else (if Issues(st, ops[0], s) then 1 else 0) + Issuings(Exec(st, ops[0]), ops[1..], s)
  }

  /** The tokens after an operation: the same rows, and at most one more. */
  lemma StepShape(st: AuthState, op: Op, s: SessionId)
    ensures var tokens := Exec(st, op).tokens;
            && (|tokens| == |st.tokens| || |tokens| == |st.tokens| + 1)
            && (forall i :: 0 <= i < |st.tokens| ==> tokens[i].session == st.tokens[i].session)
            && (Issues(st, op, s) <==> |tokens| == |st.tokens| + 1 && tokens[|st.tokens|].session == s)
  {
    hide Find, Revoked;
  }

  lemma StepCounts(st: AuthState, op: Op, s: SessionId)
    ensures Issued(Exec(st, op).tokens, s) == Issued(st.tokens, s) + (if Issues(st, op, s) then 1 else 0)
  {
    StepShape(st, op, s);
    hide Exec, Issues;
    var tokens := Exec(st, op).tokens;
    if |tokens| == |st.tokens| {
      IssuedDependsOnSessions(tokens, st.tokens, s);
    } else {
      IssuedDependsOnSessions(tokens[..|st.tokens|], st.tokens, s);
    }
  }

  /** A session's tokens are exactly those that a login or a successful refresh stored for it. */
  lemma {:induction false} TokensCountIssuings(st: AuthState, ops: seq<Op>, s: SessionId)
    ensures Issued(Run(st, ops).tokens, s) == Issued(st.tokens, s) + Issuings(st, ops, s)
    decreases |ops|
  {
    hide Exec, Find, Issues;
    if ops != [] {
      StepCounts(st, ops[0], s);
      TokensCountIssuings(Exec(st, ops[0]), ops[1..], s);
    }
  }

  /** When every insert of a token goes through, an existing session issues one token for each successful refresh. */
  lemma {:induction false} IssuingsAreSuccesses(st: AuthState, ops: seq<Op>, s: SessionId)
    requires s in st.sessions && forall i :: 0 <= i < |ops| ==> ops[i].a.tokenInserted
    ensures Issuings(st, ops, s) == Successes(st, ops, s)
    decreases |ops|
  {
    hide Exec, Find, Refreshes;
    if ops != [] {
      StepGoesForward(st, ops[0]);
      IssuingsAreSuccesses(Exec(st, ops[0]), ops[1..], s);
    }
  }

  /** From its login on, a session has the token of the login, if that was stored, plus one for each refresh that stored one. */
  lemma TokensPerSession(st: AuthState, login: Op, ops: seq<Op>)
    requires Inv(st) && login.Login? && Possible(st, login) && login.a.sessionInserted
    ensures var st' := Exec(st, login);
            && Issued(Run(st', ops).tokens, login.session) == (if login.a.tokenInserted then 1 else 0) + Issuings(st', ops, login.session)
            && ((forall i :: 0 <= i < |ops| ==> ops[i].a.tokenInserted) ==>
                  Issuings(st', ops, login.session) == Successes(st', ops, login.session))
  {
    hide Find, Run, Successes, Issuings;
    NoTokensYet(st.tokens, login.session);
    StepCounts(st, login, login.session);
    TokensCountIssuings(Exec(st, login), ops, login.session);
    if forall i :: 0 <= i < |ops| ==> ops[i].a.tokenInserted { IssuingsAreSuccesses(Exec(st, login), ops, login.session); }
  }

  lemma {:induction false} NoTokensYet(tokens: seq<Token>, s: SessionId)
    requires forall i :: 0 <= i < |tokens| ==> tokens[i].session != s
    ensures Issued(tokens, s) == 0
  {
    if tokens != [] { NoTokensYet(tokens[..|tokens| - 1], s); }
  }

  // ----- the service -----

  class AuthService {
    var sessions: map<SessionId, Session>
    var tokens: seq<Token>

    constructor ()
      ensures State() == EMPTY
    {
      sessions, tokens := map[], [];
    }

    function State(): AuthState
      reads this
    {
      AuthState(sessions, tokens)
    }

    /** The part of login that follows a correct password; without its session it cannot go on. */
    method Login(user: string, tenant: Option<string>, session: SessionId, hash: string, now: nat, a: Answers) returns (ok: bool)
      requires Possible(State(), Op.Login(user, tenant, session, hash, now, a))
      modifies this
      ensures State() == Exec(old(State()), Op.Login(user, tenant, session, hash, now, a))
      ensures ok == a.sessionInserted
      ensures ok ==> sessions == old(sessions)[session := Session(user, tenant, false)]
                     && tokens == old(tokens) + if a.tokenInserted then [Token(hash, session, user, false, now + 604800)] else []
    {
      if !a.sessionInserted { return false; }
      sessions := sessions[session := Session(user, tenant, false)];
      if a.tokenInserted { tokens := tokens + [Token(hash, session, user, false, now + WEEK)]; }
      ok := true;
    }

    method Refresh(hash: string, newHash: string, now: nat, a: Answers) returns (result: RefreshResult)
      requires Possible(State(), Op.Refresh(hash, newHash, now, a))
      modifies this
      ensures (State(), result) == RefreshStep(old(State()), hash, newHash, now, a)
    {
      hide Find;
      var found := if a.tokenRead then Find(tokens, hash) else None;
      if found.None? { return InvalidToken; }
      var record := tokens[found.value];
      if record.used {
        if a.revoked { sessions := Revoked(sessions, {record.session}); }
        return ReuseDetected;
      }
      if record.expiresAt < now { return Expired; }
      if !a.sessionRead || record.session !in sessions || sessions[record.session].revoked { return SessionRevoked; }
      if !a.userFound { return UserNotFound; }
      if a.marked { tokens := tokens[found.value := record.(used := true)]; }
      if a.tokenInserted { tokens := tokens + [Token(newHash, record.session, record.user, false, now + WEEK)]; }
      result := Refreshed(newHash);
    }

    method Logout(session: SessionId, a: Answers)
      modifies this
      ensures State() == Exec(old(State()), Op.Logout(session, a))
      ensures session in old(sessions) && a.revoked ==> session in sessions && sessions[session].revoked
      ensures forall s :: s in old(sessions) && s != session ==> s in sessions && sessions[s] == old(sessions)[s]
      ensures |tokens| == |old(tokens)| && forall i :: 0 <= i < |tokens| ==>
                tokens[i] == if a.marked && old(tokens)[i].session == session then old(tokens)[i].(used := true) else old(tokens)[i]
    {
      if a.marked { tokens := Used(tokens, {session}); }
      if a.revoked { sessions := Revoked(sessions, {session}); }
    }

    method RevokeSession(session: SessionId, actor: string, isSuperadmin: bool, tenant: Option<string>, a: Answers) returns (ok: bool)
      modifies this
      ensures ok == (a.sessionRead && MayRevoke(old(State()), session, actor, isSuperadmin, tenant))
      ensures State() == Exec(old(State()), Op.Revoke(session, actor, isSuperadmin, tenant, a))
      ensures ok <==> a.sessionRead && session in old(sessions)
                      && (isSuperadmin || (old(sessions)[session].user == actor && (tenant.None? || old(sessions)[session].tenant == tenant)))
      ensures ok && a.revoked ==> session in sessions && sessions[session].revoked
      ensures ok && a.marked ==> forall i :: 0 <= i < |tokens| && tokens[i].session == session ==> tokens[i].used
      ensures forall s :: s in old(sessions) && s != session ==> s in sessions && sessions[s] == old(sessions)[s]
      ensures |tokens| == |old(tokens)| && forall i :: 0 <= i < |tokens| && old(tokens)[i].session != session ==> tokens[i] == old(tokens)[i]
      ensures !ok ==> sessions == old(sessions) && tokens == old(tokens)
    {
      if !a.sessionRead || session !in sessions || (!isSuperadmin && tenant.Some? && sessions[session].tenant != tenant) { return false; }
      if !isSuperadmin && sessions[session].user != actor { return false; }
      if a.revoked { sessions := Revoked(sessions, {session}); }
      if a.marked { tokens := Used(tokens, {session}); }
      ok := true;
    }

    method RevokeAllSessionsForUser(user: string, tenant: Option<string>, a: Answers)
      modifies this
      ensures State() == Exec(old(State()), Op.RevokeAll(user, tenant, a))
      ensures sessions.Keys == old(sessions).Keys && forall s :: s in sessions ==>
                sessions[s] == if a.sessionRead && a.revoked && old(sessions)[s].user == user && old(sessions)[s].tenant == tenant
                               then old(sessions)[s].(revoked := true) else old(sessions)[s]
    {
      if !a.sessionRead { return; }
      var ids := set s | s in sessions && sessions[s].user == user && sessions[s].tenant == tenant && !sessions[s].revoked;
      assert ids == SessionsOf(State(), user, tenant);
      if ids == {} {
        assert Revoked(sessions, {}) == sessions && Used(tokens, {}) == tokens;
        return;
      }
      if a.revoked { sessions := Revoked(sessions, ids); }
      if a.marked { tokens := Used(tokens, ids); }
    }
  }
}
