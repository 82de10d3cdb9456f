/**
 * Rotation against revocation, at the granularity of row locks. Refresh and Logout are transactions
 * that lock rows one at a time: the presented token's row (SELECT … FOR UPDATE OF rt), then the
 * session row, and in a revocation every session and token row of the family, one after the other
 * and in any order. A step that needs a row somebody else has locked waits; any transaction may be
 * aborted at any point (a crash, a deadlock victim, a failed statement).
 */
module AuthConcurrency {
  import opened Basics
  import opened AuthModel

  datatype Call = RefreshCall(tok: nat, expiresAt: int) | LogoutCall(tok: nat, allSessions: bool)

  /** The last statement completed. Live … Marked belong to rotation, BurningSessions … Burnt to revocation. */
  datatype Pc = Begun | Live | SessionChecked | Inserted | Marked | BurningSessions | BurningTokens | Burnt

  datatype Txn = Txn(
    call: Call, pc: Pc, now: int, targets: set<nat>,
    lockedTokens: set<nat>, lockedSessions: set<nat>, revokedSessions: set<nat>, revokedTokens: set<nat>)

  /** What the calls did, in the order in which they took effect. */
  datatype Entry =
    | LoggedIn(session: nat, token: nat, until: int)
    | DidRotate(tok: nat, newToken: nat, until: int)
    | DidBurn(tok: nat, sessions: set<nat>)
    | DidLogout(tok: nat, sessions: set<nat>)
    | DidRevokeSession(session: nat)
    | ReuseReportedOnly(tok: nat)
    | Rejected(tok: nat)

  datatype Sys = Sys(db: Db, txns: map<nat, Txn>, log: seq<Entry>)

  datatype Step =
    | Login(user: string, expiresAt: int)
    | UserRevokes(user: string, sid: nat)
    | Open(tid: nat, call: Call)
    | Lookup(tid: nat, now: int)
    | CheckSession(tid: nat)
    | InsertToken(tid: nat)
    | MarkUsed(tid: nat)
    | BurnSession(tid: nat, sid: nat)
    | SessionsDone(tid: nat)
    | BurnToken(tid: nat, tok: nat)
    | TokensDone(tid: nat)
    | Commit(tid: nat)
    | Abort(tid: nat)

  const BOOT := Sys(EMPTY, map[], [])

  function Start(call: Call): Txn { Txn(call, Begun, 0, {}, {}, {}, {}, {}) }

  ghost predicate TokenFree(s: Sys, tid: nat, tok: nat) {
    forall u :: u in s.txns && u != tid ==> tok !in s.txns[u].lockedTokens
  }

  ghost predicate SessionFree(s: Sys, tid: nat, sid: nat) {
    forall u :: u in s.txns && u != tid ==> sid !in s.txns[u].lockedSessions
  }

  ghost predicate At(s: Sys, tid: nat, pc: Pc) { tid in s.txns && s.txns[tid].pc == pc }

  ghost predicate Enabled(s: Sys, step: Step) {
    match step
    case Login(_, _) => true
    case UserRevokes(_, sid) => forall u :: u in s.txns ==> sid !in s.txns[u].lockedSessions
    case Open(tid, _) => tid !in s.txns
    case Lookup(tid, _) => At(s, tid, Begun) && TokenFree(s, tid, s.txns[tid].call.tok)
    case CheckSession(tid) =>
      && At(s, tid, Live) && s.txns[tid].call.tok < |s.db.tokens|
      && SessionFree(s, tid, s.db.tokens[s.txns[tid].call.tok].session)
    case InsertToken(tid) => At(s, tid, SessionChecked)
    case MarkUsed(tid) => At(s, tid, Inserted)
    case BurnSession(tid, sid) =>
      && At(s, tid, BurningSessions) && sid in s.txns[tid].targets
      && sid < |s.db.sessions| && !s.db.sessions[sid].revoked && SessionFree(s, tid, sid)
    case SessionsDone(tid) =>
      && At(s, tid, BurningSessions)
      && forall sid :: sid in s.txns[tid].targets && sid < |s.db.sessions| ==>
           s.db.sessions[sid].revoked || sid in s.txns[tid].revokedSessions
    case BurnToken(tid, tok) =>
      && At(s, tid, BurningTokens) && tok < |s.db.tokens| && s.db.tokens[tok].session in s.txns[tid].targets
      && !s.db.tokens[tok].revoked && TokenFree(s, tid, tok)
    case TokensDone(tid) =>
      && At(s, tid, BurningTokens)
      && forall tok :: tok in TokensOfSessions(s.db, s.txns[tid].targets) ==>
           s.db.tokens[tok].revoked || tok in s.txns[tid].revokedTokens
    case Commit(tid) =>
      && (At(s, tid, Marked) || At(s, tid, Burnt))
      && s.txns[tid].call.tok < |s.db.tokens|
    case Abort(tid) => tid in s.txns
  }

  /** The lookup decides which way the call goes. */
  function AfterLookup(s: Sys, tid: nat, now: int): Sys
    requires tid in s.txns
  {
    var t := s.txns[tid];
    var tok := t.call.tok;
    if tok >= |s.db.tokens| || s.db.tokens[tok].session >= |s.db.sessions| then
      s.(txns := s.txns - {tid}, log := s.log + [Rejected(tok)])
    else
      var row := s.db.tokens[tok];
      if t.call.LogoutCall? then
        s.(txns := s.txns[tid := t.(pc := BurningSessions, now := now, lockedTokens := {tok},
             targets := LogoutTargets(s.db, tok, t.call.allSessions))])
      else if row.revoked || row.expiresAt < now then
        s.(txns := s.txns - {tid}, log := s.log + [Rejected(tok)])
      else if row.used then
        s.(txns := s.txns[tid := t.(pc := BurningSessions, now := now, lockedTokens := {tok},
             targets := Family(s.db, s.db.sessions[row.session].family))])
      else
        s.(txns := s.txns[tid := t.(pc := Live, now := now, lockedTokens := {tok})])
  }

  function EntryOf(t: Txn): Entry {
    if t.call.RefreshCall? then DidBurn(t.call.tok, t.targets) else DidLogout(t.call.tok, t.targets)
  }

  function Next(s: Sys, step: Step): Sys
    requires Enabled(s, step)
  {
    match step
    case Login(user, expiresAt) =>
      s.(db := Issue(s.db, user, expiresAt), log := s.log + [LoggedIn(|s.db.sessions|, |s.db.tokens|, expiresAt)])
    case UserRevokes(user, sid) =>
      var (db, ok) := RevokeSession(s.db, user, sid);
      s.(db := db, log := s.log + if ok then [DidRevokeSession(sid)] else [])
    case Open(tid, call) => s.(txns := s.txns[tid := Start(call)])
    case Lookup(tid, now) => AfterLookup(s, tid, now)
    case CheckSession(tid) =>
      var t := s.txns[tid];
      var sid := s.db.tokens[t.call.tok].session;
      if sid >= |s.db.sessions| || s.db.sessions[sid].revoked then
        s.(txns := s.txns - {tid}, log := s.log + [Rejected(t.call.tok)])
      else
        s.(txns := s.txns[tid := t.(pc := SessionChecked, lockedSessions := {sid})])
    case InsertToken(tid) => s.(txns := s.txns[tid := s.txns[tid].(pc := Inserted)])
    case MarkUsed(tid) => s.(txns := s.txns[tid := s.txns[tid].(pc := Marked)])
    case BurnSession(tid, sid) =>
      var t := s.txns[tid];
      s.(txns := s.txns[tid :=
        t.(lockedSessions := t.lockedSessions + {sid}, revokedSessions := t.revokedSessions + {sid})])
    case SessionsDone(tid) => s.(txns := s.txns[tid := s.txns[tid].(pc := BurningTokens)])
    case BurnToken(tid, tok) =>
      var t := s.txns[tid];
      s.(txns := s.txns[tid := t.(lockedTokens := t.lockedTokens + {tok}, revokedTokens := t.revokedTokens + {tok})])
    case TokensDone(tid) => s.(txns := s.txns[tid := s.txns[tid].(pc := Burnt)])
    case Commit(tid) =>
      var t := s.txns[tid];
      if t.pc == Marked then
        var until := if t.call.RefreshCall? then t.call.expiresAt else 0;
        Sys(Rotate(s.db, t.call.tok, until), s.txns - {tid}, s.log + [DidRotate(t.call.tok, |s.db.tokens|, until)])
      else
        Sys(Revoke(s.db, t.revokedSessions, t.revokedTokens), s.txns - {tid},
            s.log + [EntryOf(t)])
    case Abort(tid) =>
      var t := s.txns[tid];
      // A reuse that was detected is reported even when its revocation does not commit.
      var reported := t.call.RefreshCall? && t.pc in {BurningSessions, BurningTokens, Burnt};
      s.(txns := s.txns - {tid}, log := s.log + if reported then [ReuseReportedOnly(t.call.tok)] else [])
  }

  // ---------------------------------------------------------------------------------------------
  // What each open transaction relies on
  // ---------------------------------------------------------------------------------------------

  ghost predicate Rotating(db: Db, t: Txn) {
    && t.call.RefreshCall? && t.revokedSessions == {} && t.revokedTokens == {}
    && t.call.tok < |db.tokens| && t.lockedTokens == {t.call.tok}
    && (var row := db.tokens[t.call.tok];
        && row.session < |db.sessions|
        && !row.used && !row.revoked && row.expiresAt >= t.now
        && (t.pc == Live ==> t.lockedSessions == {})
        && (t.pc != Live ==> t.lockedSessions == {row.session} && !db.sessions[row.session].revoked))
  }

  ghost predicate Burning(db: Db, t: Txn) {
    && t.call.tok < |db.tokens| && db.tokens[t.call.tok].session < |db.sessions|
    && t.call.tok in t.lockedTokens
    && t.revokedTokens <= t.lockedTokens && t.revokedSessions == t.lockedSessions
    && t.targets == (if t.call.LogoutCall? then LogoutTargets(db, t.call.tok, t.call.allSessions)
                     else Family(db, db.sessions[db.tokens[t.call.tok].session].family))
    && (t.call.RefreshCall? ==>
          && db.tokens[t.call.tok].used && !db.tokens[t.call.tok].revoked
          && db.tokens[t.call.tok].expiresAt >= t.now)
    && t.revokedSessions <= t.targets
    && t.revokedTokens <= TokensOfSessions(db, t.targets)
    && (t.pc != BurningSessions ==> forall sid :: sid in t.targets ==>
          sid < |db.sessions| && (db.sessions[sid].revoked || sid in t.revokedSessions))
    && (t.pc == Burnt ==> forall tok :: tok in TokensOfSessions(db, t.targets) ==>
          db.tokens[tok].revoked || tok in t.revokedTokens)
  }

  ghost predicate Relies(db: Db, t: Txn) {
    match t.pc
    case Begun => t == Start(t.call)
    case Live => Rotating(db, t)
    case SessionChecked => Rotating(db, t)
    case Inserted => Rotating(db, t)
    case Marked => Rotating(db, t)
    case _ => Burning(db, t)
  }

  /** No row is locked twice. */
  ghost predicate Exclusive(txns: map<nat, Txn>) {
    forall t, u :: t in txns && u in txns && t != u ==>
      txns[t].lockedTokens !! txns[u].lockedTokens && txns[t].lockedSessions !! txns[u].lockedSessions
  }

  /** These sessions and all their tokens carry revoked_at. */
  ghost predicate Dead(db: Db, sessions: set<nat>) {
    && (forall sid :: sid in sessions ==> sid < |db.sessions| && db.sessions[sid].revoked)
    && (forall k :: k in TokensOfSessions(db, sessions) ==> db.tokens[k].revoked)
  }

  /** What the log says is still true of the tables. */
  ghost predicate Remembers(db: Db, e: Entry) {
    match e
    case LoggedIn(sid, token, until) =>
      token < |db.tokens| && db.tokens[token].session == sid && db.tokens[token].expiresAt == until
    case DidRotate(tok, newToken, until) =>
      && tok < |db.tokens| && db.tokens[tok].used && db.tokens[tok].replacedBy == Some(newToken)
      && newToken < |db.tokens| && db.tokens[newToken].session == db.tokens[tok].session
      && db.tokens[newToken].expiresAt == until
    case DidBurn(tok, sessions) =>
      && tok < |db.tokens| && db.tokens[tok].session < |db.sessions|
      && sessions == Family(db, db.sessions[db.tokens[tok].session].family)
      && Dead(db, sessions)
    case DidLogout(tok, sessions) =>
      && tok < |db.tokens| && db.tokens[tok].session in sessions
      && Dead(db, sessions)
    case DidRevokeSession(sid) => sid < |db.sessions| && db.sessions[sid].revoked
    case _ => true
  }

  ghost predicate Stopped(db: Db, e: Entry, sid: nat) {
    match e
    case DidBurn(_, sessions) => sid in sessions
    case DidLogout(_, sessions) => sid in sessions
    case DidRevokeSession(session) => sid == session
    case _ => false
  }

  /** Each token rotates once, and never after its session was stopped. */
  ghost predicate Ordered(db: Db, log: seq<Entry>) {
    forall i, j :: 0 <= i < j < |log| && log[j].DidRotate? ==>
      && (log[i].DidRotate? ==> log[i].tok != log[j].tok)
      && (log[j].tok < |db.tokens| ==> !Stopped(db, log[i], db.tokens[log[j].tok].session))
  }

  ghost predicate SysInv(s: Sys) {
    && Inv(s.db)
    && (forall tid :: tid in s.txns ==> Relies(s.db, s.txns[tid]))
    && Exclusive(s.txns)
    && (forall i :: 0 <= i < |s.log| ==> Remembers(s.db, s.log[i]))
    && Ordered(s.db, s.log)
  }

  // ---------------------------------------------------------------------------------------------
  // How the tables may change under everybody's feet
  // ---------------------------------------------------------------------------------------------

  /** Rows are never removed, never change owner, and never lose a mark. */
  ghost predicate Grows(a: Db, b: Db) {
    && |a.sessions| <= |b.sessions| && |a.tokens| <= |b.tokens|
    && (forall i :: 0 <= i < |a.sessions| ==>
          && b.sessions[i].user == a.sessions[i].user && b.sessions[i].family == a.sessions[i].family
          && (a.sessions[i].revoked ==> b.sessions[i].revoked))
    && (forall k :: 0 <= k < |a.tokens| ==>
          && b.tokens[k].session == a.tokens[k].session && b.tokens[k].expiresAt == a.tokens[k].expiresAt
          && (a.tokens[k].used ==> b.tokens[k].used && b.tokens[k].replacedBy == a.tokens[k].replacedBy)
          && (a.tokens[k].revoked ==> b.tokens[k].revoked))
  }

  /** New sessions start new families. */
  ghost predicate NewFamilies(a: Db, b: Db)
    requires |a.sessions| <= |b.sessions|
  {
    forall i, j :: 0 <= i < |a.sessions| <= j < |b.sessions| ==> b.sessions[j].family != a.sessions[i].family
  }

  /** New tokens go only into sessions that are new, or alive. */
  ghost predicate NewTokensAlive(a: Db, b: Db) {
    forall k :: |a.tokens| <= k < |b.tokens| ==>
      b.tokens[k].session >= |a.sessions| || !a.sessions[b.tokens[k].session].revoked
  }

  ghost predicate Evolves(a: Db, b: Db) { Grows(a, b) && NewFamilies(a, b) && NewTokensAlive(a, b) }

  lemma FamilyIsFixed(a: Db, b: Db, sid: nat)
    requires Evolves(a, b) && sid < |a.sessions|
    ensures Family(b, b.sessions[sid].family) == Family(a, a.sessions[sid].family)
  {
  }

  /** The log stays true. */
  lemma RemembersStays(a: Db, b: Db, e: Entry)
    requires Evolves(a, b) && Remembers(a, e)
    ensures Remembers(b, e)
  {
    if e.DidBurn? {
      FamilyIsFixed(a, b, a.tokens[e.tok].session);
    }
  }

  /** No other transaction touches the rows a transaction has locked. */
  ghost predicate LockedRowsKept(a: Db, b: Db, u: Txn) {
    && (forall k :: k in u.lockedTokens && k < |a.tokens| && k < |b.tokens| ==> b.tokens[k] == a.tokens[k])
    && (forall i :: i in u.lockedSessions && i < |a.sessions| && i < |b.sessions| ==> b.sessions[i] == a.sessions[i])
  }

  /** Nobody adds a token to a session that somebody has locked. */
  ghost predicate NoTokenSneaksIn(a: Db, b: Db, u: Txn) {
    forall k :: |a.tokens| <= k < |b.tokens| ==> b.tokens[k].session !in u.lockedSessions
  }

  lemma BurningStays(a: Db, b: Db, u: Txn)
    requires Inv(a) && Evolves(a, b) && LockedRowsKept(a, b, u) && NoTokenSneaksIn(a, b, u)
    requires Burning(a, u)
    ensures Burning(b, u)
  {
    var sid := a.tokens[u.call.tok].session;
    FamilyIsFixed(a, b, sid);
    assert b.tokens[u.call.tok] == a.tokens[u.call.tok];
    forall k | k in u.revokedTokens
      ensures k in TokensOfSessions(b, u.targets)
    {
      assert k in TokensOfSessions(a, u.targets);
    }
    if u.pc == Burnt {
      forall k | k in TokensOfSessions(b, u.targets)
        ensures b.tokens[k].revoked || k in u.revokedTokens
      {
        assert b.tokens[k].session in u.targets;
        assert k < |a.tokens| ==> k in TokensOfSessions(a, u.targets);
      }
    }
  }

  lemma ReliesStays(a: Db, b: Db, u: Txn)
    requires Inv(a) && Evolves(a, b) && LockedRowsKept(a, b, u) && NoTokenSneaksIn(a, b, u)
    requires Relies(a, u)
    ensures Relies(b, u)
  {
    if u.pc in {BurningSessions, BurningTokens, Burnt} {
      BurningStays(a, b, u);
    }
  }

  // ---------------------------------------------------------------------------------------------
  // Each step keeps the invariant
  // ---------------------------------------------------------------------------------------------

  lemma RotateEvolves(db: Db, tok: nat, expiresAt: int)
    requires Inv(db) && tok < |db.tokens| && !db.tokens[tok].used && !db.sessions[db.tokens[tok].session].revoked
    ensures Evolves(db, Rotate(db, tok, expiresAt))
  {
  }

  /** A change of the tables that leaves everybody's locked rows alone, together with its log entry. */
  lemma ChangeKeepsSysInv(s: Sys, db: Db, txns: map<nat, Txn>, entry: Entry)
    requires SysInv(s) && Inv(db) && Evolves(s.db, db)
    requires txns.Keys <= s.txns.Keys && forall u :: u in txns ==> txns[u] == s.txns[u]
    requires forall u :: u in txns ==> LockedRowsKept(s.db, db, txns[u]) && NoTokenSneaksIn(s.db, db, txns[u])
    requires Remembers(db, entry)
    requires entry.DidRotate? ==>
      && entry.tok < |s.db.tokens| && !s.db.tokens[entry.tok].used
      && s.db.tokens[entry.tok].session < |s.db.sessions| && !s.db.sessions[s.db.tokens[entry.tok].session].revoked
    ensures SysInv(Sys(db, txns, s.log + [entry]))
  {
    forall u | u in txns
      ensures Relies(db, txns[u])
    {
      ReliesStays(s.db, db, txns[u]);
    }
    forall i | 0 <= i < |s.log|
      ensures Remembers(db, s.log[i])
    {
      RemembersStays(s.db, db, s.log[i]);
    }
    var log := s.log + [entry];
    forall i, j | 0 <= i < j < |log| && log[j].DidRotate?
      ensures log[i].DidRotate? ==> log[i].tok != log[j].tok
      ensures log[j].tok < |db.tokens| ==> !Stopped(db, log[i], db.tokens[log[j].tok].session)
    {
      assert Remembers(s.db, log[i]);
      if j < |s.log| {
        assert Remembers(s.db, log[j]);
      }
    }
  }

  lemma LocksInRange(db: Db, t: Txn)
    requires Relies(db, t)
    ensures forall sid :: sid in t.lockedSessions ==> sid < |db.sessions|
  {
  }

  /** A transaction that moves on, taking only rows nobody else has locked. */
  lemma AdvanceKeepsSysInv(s: Sys, tid: nat, t: Txn)
    requires SysInv(s) && Relies(s.db, t)
    requires forall u :: u in s.txns && u != tid ==>
      t.lockedTokens !! s.txns[u].lockedTokens && t.lockedSessions !! s.txns[u].lockedSessions
    ensures SysInv(s.(txns := s.txns[tid := t]))
  {
  }

  /** A call that ends without touching the tables. */
  lemma LeaveKeepsSysInv(s: Sys, tid: nat, entry: Entry)
    requires SysInv(s) && tid in s.txns
    requires entry.Rejected? || entry.ReuseReportedOnly?
    ensures SysInv(s.(txns := s.txns - {tid}, log := s.log + [entry]))
  {
    ChangeKeepsSysInv(s, s.db, s.txns - {tid}, entry);
  }

  lemma LoginKeepsSysInv(s: Sys, user: string, expiresAt: int)
    requires SysInv(s)
    ensures SysInv(Next(s, Login(user, expiresAt)))
  {
    var db := Issue(s.db, user, expiresAt);
    IssueKeepsInv(s.db, user, expiresAt);
    forall u | u in s.txns
      ensures NoTokenSneaksIn(s.db, db, s.txns[u])
    {
      LocksInRange(s.db, s.txns[u]);
    }
    ChangeKeepsSysInv(s, db, s.txns, LoggedIn(|s.db.sessions|, |s.db.tokens|, expiresAt));
  }

  lemma UserRevokesKeepsSysInv(s: Sys, user: string, sid: nat)
    requires SysInv(s) && Enabled(s, UserRevokes(user, sid))
    ensures SysInv(Next(s, UserRevokes(user, sid)))
  {
    var (db, ok) := RevokeSession(s.db, user, sid);
    if ok {
      assert db == Revoke(s.db, {sid}, {});
      RevokeKeepsInv(s.db, {sid}, {});
      ChangeKeepsSysInv(s, db, s.txns, DidRevokeSession(sid));
    } else {
      assert s.log + [] == s.log;
    }
  }

  lemma LookupKeepsSysInv(s: Sys, tid: nat, now: int)
    requires SysInv(s) && Enabled(s, Lookup(tid, now))
    ensures SysInv(Next(s, Lookup(tid, now)))
  {
    var after := AfterLookup(s, tid, now);
    if tid in after.txns {
      AdvanceKeepsSysInv(s, tid, after.txns[tid]);
    } else {
      LeaveKeepsSysInv(s, tid, Rejected(s.txns[tid].call.tok));
    }
  }

  lemma CheckSessionKeepsSysInv(s: Sys, tid: nat)
    requires SysInv(s) && Enabled(s, CheckSession(tid))
    ensures SysInv(Next(s, CheckSession(tid)))
  {
    var after := Next(s, CheckSession(tid));
    if tid in after.txns {
      AdvanceKeepsSysInv(s, tid, after.txns[tid]);
    } else {
      LeaveKeepsSysInv(s, tid, Rejected(s.txns[tid].call.tok));
    }
  }

  lemma BurnStepsKeepSysInv(s: Sys, step: Step)
    requires SysInv(s) && Enabled(s, step)
    requires step.BurnSession? || step.SessionsDone? || step.BurnToken? || step.TokensDone?
    ensures SysInv(Next(s, step))
  {
    AdvanceKeepsSysInv(s, step.tid, Next(s, step).txns[step.tid]);
  }

  lemma CommitRotationKeepsSysInv(s: Sys, tid: nat)
    requires SysInv(s) && Enabled(s, Commit(tid)) && At(s, tid, Marked)
    ensures SysInv(Next(s, Commit(tid)))
  {
    var t := s.txns[tid];
    RotateKeepsInv(s.db, t.call.tok, t.call.expiresAt);
    RotateEvolves(s.db, t.call.tok, t.call.expiresAt);
    ChangeKeepsSysInv(s, Rotate(s.db, t.call.tok, t.call.expiresAt), s.txns - {tid},
      DidRotate(t.call.tok, |s.db.tokens|, t.call.expiresAt));
  }

  /** A revocation that commits leaves every session of the family, and every token of it, revoked. */
  lemma BurntIsDead(db: Db, t: Txn)
    requires Burning(db, t) && t.pc == Burnt
    ensures Dead(Revoke(db, t.revokedSessions, t.revokedTokens), t.targets)
    ensures Revoke(db, t.revokedSessions, t.revokedTokens) == Burn(db, t.targets)
  {
    var after := Revoke(db, t.revokedSessions, t.revokedTokens);
    forall k | k in TokensOfSessions(after, t.targets)
      ensures after.tokens[k].revoked
    {
      assert k in TokensOfSessions(db, t.targets);
    }
    var all := Burn(db, t.targets);
    forall k | 0 <= k < |db.tokens| ensures after.tokens[k] == all.tokens[k] {
      assert k in TokensOfSessions(db, t.targets) <==> db.tokens[k].session in t.targets;
    }
    assert after.sessions == all.sessions;
    assert after.tokens == all.tokens;
  }

  lemma RevocationKeepsInv(db: Db, t: Txn)
    requires Inv(db) && Burning(db, t) && t.pc == Burnt
    ensures var after := Revoke(db, t.revokedSessions, t.revokedTokens);
      Inv(after) && Evolves(db, after)
  {
    forall k | k in t.revokedTokens && k < |db.tokens|
      ensures db.tokens[k].session in t.revokedSessions || db.sessions[db.tokens[k].session].revoked
    {
      assert k in TokensOfSessions(db, t.targets);
    }
    RevokeKeepsInv(db, t.revokedSessions, t.revokedTokens);
  }

  lemma RevocationIsRemembered(db: Db, t: Txn)
    requires Inv(db) && Burning(db, t) && t.pc == Burnt
    ensures Remembers(Revoke(db, t.revokedSessions, t.revokedTokens), EntryOf(t))
  {
    RevocationKeepsInv(db, t);
    BurntIsDead(db, t);
    FamilyIsFixed(db, Revoke(db, t.revokedSessions, t.revokedTokens), db.tokens[t.call.tok].session);
  }

  lemma OthersKeepTheirRows(s: Sys, tid: nat)
    requires SysInv(s) && At(s, tid, Burnt)
    ensures var db := Revoke(s.db, s.txns[tid].revokedSessions, s.txns[tid].revokedTokens);
      forall u :: u in s.txns && u != tid ==>
        LockedRowsKept(s.db, db, s.txns[u]) && NoTokenSneaksIn(s.db, db, s.txns[u])
  {
    assert Burning(s.db, s.txns[tid]);
    var t := s.txns[tid];
    assert t.revokedTokens <= t.lockedTokens && t.revokedSessions == t.lockedSessions;
    hide Inv, Relies, Burning, Remembers, Ordered;
  }

  lemma CommittedRevocation(s: Sys, tid: nat)
    requires Enabled(s, Commit(tid)) && At(s, tid, Burnt)
    ensures var t := s.txns[tid];
      Next(s, Commit(tid))
        == Sys(Revoke(s.db, t.revokedSessions, t.revokedTokens), s.txns - {tid}, s.log + [EntryOf(t)])
  {
  }

  lemma CommitRevocationKeepsSysInv(s: Sys, tid: nat)
    requires SysInv(s) && Enabled(s, Commit(tid)) && At(s, tid, Burnt)
    ensures SysInv(Next(s, Commit(tid)))
  {
    var t := s.txns[tid];
    var db := Revoke(s.db, t.revokedSessions, t.revokedTokens);
    assert Burning(s.db, t);
    RevocationKeepsInv(s.db, t);
    RevocationIsRemembered(s.db, t);
    OthersKeepTheirRows(s, tid);
    hide *;
    ChangeKeepsSysInv(s, db, s.txns - {tid}, EntryOf(t));
    CommittedRevocation(s, tid);
  }

  lemma AbortKeepsSysInv(s: Sys, tid: nat)
    requires SysInv(s) && Enabled(s, Abort(tid))
    ensures SysInv(Next(s, Abort(tid)))
  {
    LeaveKeepsSysInv(s, tid, ReuseReportedOnly(s.txns[tid].call.tok));
    assert s.log + [] == s.log;
  }

  lemma {:induction false} StepKeepsSysInv(s: Sys, step: Step)
    requires SysInv(s) && Enabled(s, step)
    ensures SysInv(Next(s, step))
  {
    match step
    case Login(user, expiresAt) => LoginKeepsSysInv(s, user, expiresAt);
    case UserRevokes(user, sid) => UserRevokesKeepsSysInv(s, user, sid);
    case Open(tid, call) => AdvanceKeepsSysInv(s, tid, Start(call));
    case Lookup(tid, now) => LookupKeepsSysInv(s, tid, now);
    case CheckSession(tid) => CheckSessionKeepsSysInv(s, tid);
    case InsertToken(tid) => AdvanceKeepsSysInv(s, tid, Next(s, step).txns[tid]);
    case MarkUsed(tid) => AdvanceKeepsSysInv(s, tid, Next(s, step).txns[tid]);
    case Commit(tid) =>
      if At(s, tid, Marked) {
        CommitRotationKeepsSysInv(s, tid);
      } else {
        CommitRevocationKeepsSysInv(s, tid);
      }
    case Abort(tid) => AbortKeepsSysInv(s, tid);
    case _ => BurnStepsKeepSysInv(s, step);
  }

  // ---------------------------------------------------------------------------------------------
  // Runs
  // ---------------------------------------------------------------------------------------------

  /** s is reached from the empty tables by these steps, each enabled when it is taken. */
  ghost predicate Reaches(s: Sys, steps: seq<Step>)
    decreases |steps|
  {
    if steps == [] then s == BOOT
    else
      var last := steps[|steps| - 1];
      exists before :: Reaches(before, steps[..|steps| - 1]) && Enabled(before, last) && s == Next(before, last)
  }

  lemma {:induction false} ReachableKeepsSysInv(s: Sys, steps: seq<Step>)
    requires Reaches(s, steps)
    ensures SysInv(s)
    decreases |steps|
  {
    if steps != [] {
      var init, last := steps[..|steps| - 1], steps[|steps| - 1];
      var before :| Reaches(before, init) && Enabled(before, last) && s == Next(before, last);
      ReachableKeepsSysInv(before, init);
      StepKeepsSysInv(before, last);
    }
  }

  /** Every refresh token is exchanged at most once, whatever is interleaved. */
  lemma {:induction false} TokensRotateOnce(s: Sys, steps: seq<Step>, i: nat, j: nat)
    requires Reaches(s, steps)
    requires i < |s.log| && j < |s.log| && s.log[i].DidRotate? && s.log[j].DidRotate? && s.log[i].tok == s.log[j].tok
    ensures i == j
  {
    ReachableKeepsSysInv(s, steps);
  }

  /** Once a reuse has burnt a family, no token of that family is exchanged ever again. */
  lemma {:induction false} BurntFamiliesStayBurnt(s: Sys, steps: seq<Step>, i: nat, j: nat)
    requires Reaches(s, steps)
    requires i < j < |s.log| && s.log[i].DidBurn? && s.log[j].DidRotate?
    ensures s.log[i].tok < |s.db.tokens| && s.db.tokens[s.log[i].tok].session < |s.db.sessions|
    ensures s.log[j].tok < |s.db.tokens| && s.db.tokens[s.log[j].tok].session < |s.db.sessions|
    ensures s.db.sessions[s.db.tokens[s.log[i].tok].session].family
         != s.db.sessions[s.db.tokens[s.log[j].tok].session].family
  {
    ReachableKeepsSysInv(s, steps);
    assert Remembers(s.db, s.log[i]);
    assert Remembers(s.db, s.log[j]);
    assert !Stopped(s.db, s.log[i], s.db.tokens[s.log[j].tok].session);
  }

  /** No rotation commits into a session whose revocation, by whatever path, committed before. */
  lemma {:induction false} NoTokenAfterRevocation(s: Sys, steps: seq<Step>, i: nat, j: nat)
    requires Reaches(s, steps)
    requires i < j < |s.log| && s.log[j].DidRotate?
    ensures s.log[j].newToken < |s.db.tokens| ==> !Stopped(s.db, s.log[i], s.db.tokens[s.log[j].newToken].session)
  {
    ReachableKeepsSysInv(s, steps);
    assert Remembers(s.db, s.log[j]);
    var tok := s.log[j].tok;
    ReplacementSharesSession(s.db, tok);
    assert !Stopped(s.db, s.log[i], s.db.tokens[tok].session);
  }

  /** The replacement of a token is the next token of the same session. */
  lemma ReplacementSharesSession(db: Db, tok: nat)
    requires Inv(db) && tok < |db.tokens| && db.tokens[tok].used
    ensures db.tokens[tok].replacedBy.Some?
    ensures var next := db.tokens[tok].replacedBy.value;
      tok < next < |db.tokens| && db.tokens[next].session == db.tokens[tok].session
  {
    var c := ChainOf(db.tokens, db.tokens[tok].session);
    ChainIsComplete(db.tokens, db.tokens[tok].session);
    var i :| 0 <= i < |c| && c[i] == tok;
    assert Linked(db.tokens, c);
    assert LinkHolds(db.tokens, c, i);
    assert c[i + 1] > c[i];
  }

  lemma UnusedIffLast(db: Db, tok: nat)
    requires Inv(db) && tok < |db.tokens|
    ensures var c := ChainOf(db.tokens, db.tokens[tok].session);
      && Linked(db.tokens, c)
      && tok in c
      && (!db.tokens[tok].used <==> tok == c[|c| - 1])
  {
    var c := ChainOf(db.tokens, db.tokens[tok].session);
    assert Linked(db.tokens, c);
    ChainIsComplete(db.tokens, db.tokens[tok].session);
    LastOfChain(db, db.tokens[tok].session);
    hide Inv, LinkHolds;
    if !db.tokens[tok].used {
      UnusedIsLast(db, tok);
    }
  }

  /** In every committed state each session's tokens form one chain whose last token is the only unused one. */
  lemma {:induction false} SessionsAreChains(s: Sys, steps: seq<Step>, sid: nat, tok: nat)
    requires Reaches(s, steps) && sid < |s.db.sessions|
    requires tok < |s.db.tokens| && s.db.tokens[tok].session == sid
    ensures var c := ChainOf(s.db.tokens, sid);
      && Linked(s.db.tokens, c)
      && tok in c
      && (!s.db.tokens[tok].used <==> tok == c[|c| - 1])
  {
    hide Reaches, Linked;
    ReachableKeepsSysInv(s, steps);
    UnusedIffLast(s.db, tok);
  }

  /** Every commit does what the call does when it runs alone on the tables as they are at the commit. */
  lemma {:induction false} CommitIsAtomic(s: Sys, steps: seq<Step>, tid: nat)
    requires Reaches(s, steps) && Enabled(s, Commit(tid))
    ensures var t := s.txns[tid];
      Next(s, Commit(tid)).db ==
        match t.call
        case RefreshCall(tok, expiresAt) => Refresh(s.db, tok, t.now, expiresAt).0
        case LogoutCall(tok, allSessions) => Logout(s.db, tok, allSessions)
  {
    ReachableKeepsSysInv(s, steps);
    var t := s.txns[tid];
    if t.pc == Burnt {
      BurntIsDead(s.db, t);
    }
  }

  /** A session's newest token can be exchanged exactly as long as the session is not revoked and it has not expired. */
  lemma {:induction false} NewestTokenWorksIffSessionLives(s: Sys, steps: seq<Step>, sid: nat, now: int, expiresAt: int)
    requires Reaches(s, steps) && sid < |s.db.sessions|
    ensures var c := ChainOf(s.db.tokens, sid);
      && c != []
      && (Refresh(s.db, c[|c| - 1], now, expiresAt).1.Rotated? <==>
            !s.db.sessions[sid].revoked && now <= s.db.tokens[c[|c| - 1]].expiresAt)
  {
    hide Inv, Reaches, Refresh;
    ReachableKeepsSysInv(s, steps);
    NewestToken(s.db, sid, now, expiresAt);
  }

  /** In every reachable state a logout of all sessions is a logout of one, and ends exactly that session. */
  lemma LogoutReachesOneSession(s: Sys, steps: seq<Step>, tok: nat, allSessions: bool, other: nat, now: int,
                                expiresAt: int)
    requires Reaches(s, steps) && tok < |s.db.tokens| && other < |s.db.tokens|
    ensures Logout(s.db, tok, true) == Logout(s.db, tok, false)
    ensures s.db.tokens[other].session == s.db.tokens[tok].session ==>
      !Refresh(Logout(s.db, tok, allSessions), other, now, expiresAt).1.Rotated?
    ensures s.db.tokens[other].session != s.db.tokens[tok].session ==>
      Refresh(Logout(s.db, tok, allSessions), other, now, expiresAt).1 == Refresh(s.db, other, now, expiresAt).1
  {
    hide Reaches, Inv, Logout, Refresh;
    ReachableKeepsSysInv(s, steps);
    LogoutOfAllIsLogoutOfOne(s.db, tok);
    LogoutEndsOneSession(s.db, tok, allSessions, other, now, expiresAt);
  }

  lemma Extend(s: Sys, steps: seq<Step>, step: Step)
    requires Reaches(s, steps) && Enabled(s, step)
    ensures Reaches(Next(s, step), steps + [step])
  {
    var all := steps + [step];
    assert all[..|all| - 1] == steps;
    assert Reaches(s, all[..|all| - 1]) && Enabled(s, all[|all| - 1]);
  }

  /**
   * A reported reuse by itself does not stop the family. Refresh ignores the errors of its revocation
   * and of that commit, so when they fail (say the transaction is a deadlock victim) the caller is
   * told of the reuse and the stolen chain goes on: here token 0 is replayed, its revocation aborts,
   * and token 1 is exchanged afterwards. BurntFamiliesStayBurnt says that a committed revocation does stop it.
   */
  lemma ReportWithoutCommitStopsNothing() returns (s: Sys, steps: seq<Step>)
    ensures Reaches(s, steps)
    ensures s.log == [LoggedIn(0, 0, 9), DidRotate(0, 1, 9), ReuseReportedOnly(0), DidRotate(1, 2, 9)]
    ensures |s.db.tokens| == 3 && forall k :: 0 <= k < 3 ==> s.db.tokens[k].session == 0
  {
    hide Reaches;
    s, steps := AfterOneRotation();
    s, steps := ReplayAborts(s, steps);
    assert Exchangeable(s.db, 1);
    s, steps := RotateAlone(s, steps, 1);
  }

  lemma Take(s: Sys, steps: seq<Step>, step: Step) returns (s': Sys, steps': seq<Step>)
    requires Reaches(s, steps) && Enabled(s, step)
    ensures s' == Next(s, step) && Reaches(s', steps')
  {
    Extend(s, steps, step);
    return Next(s, step), steps + [step];
  }

  lemma FirstLogin() returns (s: Sys, steps: seq<Step>)
    ensures Reaches(s, steps)
    ensures s == Sys(Db([Session("ann", 0, false)], [Token(0, false, None, false, 9)]), map[], [LoggedIn(0, 0, 9)])
  {
    assert Reaches(BOOT, []);
    s, steps := Take(BOOT, [], Login("ann", 9));
  }

  lemma AfterOneRotation() returns (s: Sys, steps: seq<Step>)
    ensures Reaches(s, steps) && s.txns == map[] && s.log == [LoggedIn(0, 0, 9), DidRotate(0, 1, 9)]
    ensures s.db.sessions == [Session("ann", 0, false)]
    ensures s.db.tokens == [Token(0, true, Some(1), false, 9), Token(0, false, None, false, 9)]
  {
    hide Reaches;
    s, steps := FirstLogin();
    s, steps := RotateAlone(s, steps, 0);
  }

  /** A used token is presented; its revocation never commits. */
  lemma ReplayAborts(s: Sys, steps: seq<Step>) returns (s': Sys, steps': seq<Step>)
    requires Reaches(s, steps) && s.txns == map[] && |s.db.tokens| > 0 && |s.db.sessions| > 0
    requires var t := s.db.tokens[0]; t.session == 0 && t.used && !t.revoked && t.expiresAt >= 0
    ensures Reaches(s', steps') && s' == s.(log := s.log + [ReuseReportedOnly(0)])
  {
    hide Reaches;
    s', steps' := Take(s, steps, Open(0, RefreshCall(0, 9)));
    assert s'.txns == map[0 := Start(RefreshCall(0, 9))];
    s', steps' := Take(s', steps', Lookup(0, 0));
    assert s'.txns.Keys == {0} && s'.txns[0].pc == BurningSessions && s'.txns[0].call == RefreshCall(0, 9);
    s', steps' := Take(s', steps', Abort(0));
    assert s'.txns == map[];
  }

  ghost predicate Exchangeable(db: Db, tok: nat) {
    && tok < |db.tokens|
    && (var t := db.tokens[tok];
        !t.used && !t.revoked && t.expiresAt >= 0 && t.session < |db.sessions| && !db.sessions[t.session].revoked)
  }

  function Checked(db: Db, tok: nat): Txn
    requires tok < |db.tokens|
  {
    Start(RefreshCall(tok, 9)).(pc := SessionChecked, lockedTokens := {tok}, lockedSessions := {db.tokens[tok].session})
  }

  lemma RotateUpToCheck(s: Sys, steps: seq<Step>, tok: nat) returns (s': Sys, steps': seq<Step>)
    requires Reaches(s, steps) && s.txns == map[] && Exchangeable(s.db, tok)
    ensures Reaches(s', steps') && s' == s.(txns := map[0 := Checked(s.db, tok)])
  {
    hide Reaches;
    s', steps' := Take(s, steps, Open(0, RefreshCall(tok, 9)));
    assert s' == s.(txns := map[0 := Start(RefreshCall(tok, 9))]);
    s', steps' := Take(s', steps', Lookup(0, 0));
    assert s' == s.(txns := map[0 := Start(RefreshCall(tok, 9)).(pc := Live, lockedTokens := {tok})]);
    s', steps' := Take(s', steps', CheckSession(0));
  }

  /** A refresh with a live token that meets nobody commits its rotation. */
  lemma RotateAlone(s: Sys, steps: seq<Step>, tok: nat) returns (s': Sys, steps': seq<Step>)
    requires Reaches(s, steps) && s.txns == map[] && Exchangeable(s.db, tok)
    ensures Reaches(s', steps')
    ensures s' == Sys(Rotate(s.db, tok, 9), map[], s.log + [DidRotate(tok, |s.db.tokens|, 9)])
  {
    hide Reaches;
    s', steps' := RotateUpToCheck(s, steps, tok);
    s', steps' := Take(s', steps', InsertToken(0));
    assert s' == s.(txns := map[0 := Checked(s.db, tok).(pc := Inserted)]);
    s', steps' := Take(s', steps', MarkUsed(0));
    assert s' == s.(txns := map[0 := Checked(s.db, tok).(pc := Marked)]);
    s', steps' := Take(s', steps', Commit(0));
    assert s'.txns == map[];
  }
}
