/**
 * What each call on sessions and tokens answers and does, in terms of the rows before it and its own arguments,
 * and until when an issued token can be used.
 */
module AuthLaws {
  import opened Basics
  import opened AuthModel
  import opened AuthConcurrency

  /** The token can be presented: it is known, not revoked and not past its expiry. */
  predicate Presentable(db: Db, tok: nat, now: int) {
    && tok < |db.tokens| && db.tokens[tok].session < |db.sessions|
    && !db.tokens[tok].revoked && now <= db.tokens[tok].expiresAt
  }

  /** A refresh issues, reports a reuse, or refuses, exactly as the token's and its session's row say. */
  lemma RefreshAnswers(db: Db, tok: nat, now: int, expiresAt: int)
    ensures var outcome := Refresh(db, tok, now, expiresAt).1;
      && (outcome == TokenReuse <==> Presentable(db, tok, now) && db.tokens[tok].used)
      && (outcome == Rotated(|db.tokens|) <==>
            Presentable(db, tok, now) && !db.tokens[tok].used && !db.sessions[db.tokens[tok].session].revoked)
      && (outcome == TokenExpired || outcome == TokenReuse || outcome == Rotated(|db.tokens|))
  {
  }

  /** A rotation uses the token up and issues one in the same session that expires when the call says. */
  lemma RotationIssues(db: Db, tok: nat, now: int, expiresAt: int)
    requires Refresh(db, tok, now, expiresAt).1.Rotated?
    ensures var (after, n) := (Refresh(db, tok, now, expiresAt).0, |db.tokens|);
      && after.sessions == db.sessions && |after.tokens| == n + 1
      && after.tokens[n] == Token(db.tokens[tok].session, false, None, false, expiresAt)
      && after.tokens[tok] == db.tokens[tok].(used := true, replacedBy := Some(n))
      && forall k :: 0 <= k < n && k != tok ==> after.tokens[k] == db.tokens[k]
  {
  }

  /** These sessions and their tokens carry the revocation, all other rows are as before. */
  ghost predicate Revokes(db: Db, after: Db, hit: nat -> bool) {
    && |after.sessions| == |db.sessions| && |after.tokens| == |db.tokens|
    && (forall i: nat :: i < |db.sessions| ==>
          after.sessions[i] == if hit(i) then db.sessions[i].(revoked := true) else db.sessions[i])
    && (forall k: nat :: k < |db.tokens| ==>
          after.tokens[k] == if hit(db.tokens[k].session) then db.tokens[k].(revoked := true) else db.tokens[k])
  }

  /** A reuse revokes the whole family of the token's session; a refusal changes nothing. */
  lemma ReuseRevokes(db: Db, tok: nat, now: int, expiresAt: int)
    requires !Refresh(db, tok, now, expiresAt).1.Rotated?
    requires forall k :: 0 <= k < |db.tokens| ==> db.tokens[k].session < |db.sessions|
    ensures var (after, outcome) := Refresh(db, tok, now, expiresAt);
      if outcome == TokenExpired then after == db
      else
        var family := db.sessions[db.tokens[tok].session].family;
        Revokes(db, after, (i: nat) => i < |db.sessions| && db.sessions[i].family == family)
  {
  }

  /** A logout revokes the session of a known token, or its whole family, and is a success without effect otherwise. */
  lemma LogoutRevokes(db: Db, tok: nat, allSessions: bool)
    requires forall k :: 0 <= k < |db.tokens| ==> db.tokens[k].session < |db.sessions|
    ensures var after := Logout(db, tok, allSessions);
      if tok >= |db.tokens| then after == db
      else
        var sid := db.tokens[tok].session;
        Revokes(db, after, (i: nat) =>
          i == sid || (allSessions && i < |db.sessions| && db.sessions[i].family == db.sessions[sid].family))
  {
  }

  /** A user can revoke exactly a session of their own that lives; only that session's row changes. */
  lemma UsersRevokeTheirOwn(db: Db, user: string, sid: nat)
    ensures var (after, found) := RevokeSession(db, user, sid);
      && (found <==> sid < |db.sessions| && db.sessions[sid].user == user && !db.sessions[sid].revoked)
      && after == if found then db.(sessions := db.sessions[sid := db.sessions[sid].(revoked := true)]) else db
  {
  }

  /** A login opens a live session of the user, in a family of its own, with one token until the given instant. */
  lemma LoginOpens(db: Db, user: string, expiresAt: int)
    requires Inv(db)
    ensures var after := Issue(db, user, expiresAt);
      var sid := |db.sessions|;
      && after.tokens == db.tokens + [Token(sid, false, None, false, expiresAt)]
      && |after.sessions| == sid + 1 && after.sessions[..sid] == db.sessions
      && after.sessions[sid].user == user && !after.sessions[sid].revoked
      && forall i :: 0 <= i < sid ==> after.sessions[i].family != after.sessions[sid].family
  {
  }

  /** A login is recorded with the token it issues and the expiry asked for. */
  lemma LoginRecordsExpiry(s: Sys, user: string, expiresAt: int)
    ensures Next(s, Login(user, expiresAt)).log == s.log + [LoggedIn(|s.db.sessions|, |s.db.tokens|, expiresAt)]
  {
  }

  /** A rotation that commits is recorded with the token it issues and the expiry its call asked for. */
  lemma {:induction false} CommitRecordsExpiry(s: Sys, steps: seq<Step>, tid: nat)
    requires Reaches(s, steps) && Enabled(s, Commit(tid)) && At(s, tid, Marked)
    ensures s.txns[tid].call.RefreshCall?
    ensures Next(s, Commit(tid)).log == s.log
      + [DidRotate(s.txns[tid].call.tok, |s.db.tokens|, s.txns[tid].call.expiresAt)]
  {
    ReachableKeepsSysInv(s, steps);
    hide Reaches, Inv, Rotate;
    assert Relies(s.db, s.txns[tid]);
  }

  /** The token that a login or a rotation has issued, and the expiry it was asked for. */
  predicate Issued(e: Entry, tok: nat, until: int) {
    (e.LoggedIn? && e.token == tok && e.until == until) || (e.DidRotate? && e.newToken == tok && e.until == until)
  }

  /**
   * In every reachable state a token expires when the call that issued it says; so, unused and in a live session,
   * it can be exchanged until that instant and not after it.
   */
  lemma {:induction false} TokensLastAsIssued(s: Sys, steps: seq<Step>, i: nat, tok: nat, until: int, now: int,
                                              expiresAt: int)
    requires Reaches(s, steps) && i < |s.log| && Issued(s.log[i], tok, until)
    ensures tok < |s.db.tokens| && s.db.tokens[tok].expiresAt == until
    ensures s.db.tokens[tok].session < |s.db.sessions|
    ensures !s.db.tokens[tok].used && !s.db.sessions[s.db.tokens[tok].session].revoked ==>
      (Refresh(s.db, tok, now, expiresAt).1.Rotated? <==> now <= until)
  {
    ReachableKeepsSysInv(s, steps);
    assert Remembers(s.db, s.log[i]);
    hide Reaches, AllLinked;
    RefreshAnswers(s.db, tok, now, expiresAt);
  }
}
