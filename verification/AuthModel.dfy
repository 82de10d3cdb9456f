/**
 * Refresh-token rotation with reuse detection: sessions and refresh tokens, and the calls on them
 * as atomic steps. Ids are positions in the tables, so a minted id is the next position.
 */
module AuthModel {
  import opened Basics

  datatype Session = Session(user: string, family: nat, revoked: bool)

  datatype Token = Token(session: nat, used: bool, replacedBy: Option<nat>, revoked: bool, expiresAt: int)

  datatype Db = Db(sessions: seq<Session>, tokens: seq<Token>)

  const EMPTY := Db([], [])

  datatype Outcome =
    | Rotated(newToken: nat)
    | TokenExpired
    | TokenReuse

  /** The sessions a family revocation covers. */
  function Family(db: Db, family: nat): set<nat> {
    set i | 0 <= i < |db.sessions| && db.sessions[i].family == family
  }

  /** Sets revoked_at on the given sessions and tokens. */
  function Revoke(db: Db, sessions: set<nat>, tokens: set<nat>): (r: Db)
    ensures |r.sessions| == |db.sessions| && |r.tokens| == |db.tokens|
    ensures forall i :: 0 <= i < |db.sessions| ==>
      r.sessions[i] == if i in sessions then db.sessions[i].(revoked := true) else db.sessions[i]
    ensures forall k :: 0 <= k < |db.tokens| ==>
      r.tokens[k] == if k in tokens then db.tokens[k].(revoked := true) else db.tokens[k]
  {
    Db(seq(|db.sessions|, i requires 0 <= i < |db.sessions| =>
             if i in sessions then db.sessions[i].(revoked := true) else db.sessions[i]),
       seq(|db.tokens|, k requires 0 <= k < |db.tokens| =>
             if k in tokens then db.tokens[k].(revoked := true) else db.tokens[k]))
  }

  function TokensOfSessions(db: Db, sessions: set<nat>): set<nat> {
    set k | 0 <= k < |db.tokens| && db.tokens[k].session in sessions
  }

  /** RevokeFamily, or RevokeSessionByID for a single session: the sessions, and all their tokens. */
  function Burn(db: Db, sessions: set<nat>): Db {
    Revoke(db, sessions, TokensOfSessions(db, sessions))
  }

  /** Rotation: the token is used up and points at a fresh one in its session. */
  function Rotate(db: Db, tok: nat, expiresAt: int): Db
    requires tok < |db.tokens|
  {
    var t := db.tokens[tok];
    db.(tokens := db.tokens[tok := t.(used := true, replacedBy := Some(|db.tokens|))]
          + [Token(t.session, false, None, false, expiresAt)])
  }

  /** Refresh run alone, with a revocation that commits. A token id that is not in the table is unknown. */
  function Refresh(db: Db, tok: nat, now: int, expiresAt: int): (Db, Outcome) {
    if tok >= |db.tokens| then (db, TokenExpired)
    else
      var t := db.tokens[tok];
      if t.session >= |db.sessions| || t.revoked || t.expiresAt < now then (db, TokenExpired)
      else if t.used then (Burn(db, Family(db, db.sessions[t.session].family)), TokenReuse)
      else if db.sessions[t.session].revoked then (db, TokenExpired)
      else (Rotate(db, tok, expiresAt), Rotated(|db.tokens|))
  }

  function LogoutTargets(db: Db, tok: nat, allSessions: bool): set<nat>
    requires tok < |db.tokens| && db.tokens[tok].session < |db.sessions|
  {
    if allSessions then Family(db, db.sessions[db.tokens[tok].session].family) else {db.tokens[tok].session}
  }

  /** Logout run alone; an unknown token is a no-op success. */
  function Logout(db: Db, tok: nat, allSessions: bool): Db {
    if tok >= |db.tokens| || db.tokens[tok].session >= |db.sessions| then db
    else Burn(db, LogoutTargets(db, tok, allSessions))
  }

  /** The user's own revocation of one session; it leaves the tokens' rows alone. */
  function RevokeSession(db: Db, user: string, sid: nat): (Db, bool) {
    if sid < |db.sessions| && db.sessions[sid].user == user && !db.sessions[sid].revoked
    then (db.(sessions := db.sessions[sid := db.sessions[sid].(revoked := true)]), true)
    else (db, false)
  }

  /** issueSession: a session with a family of its own and its first token. */
  function Issue(db: Db, user: string, expiresAt: int): Db {
    var sid := |db.sessions|;
    Db(db.sessions + [Session(user, sid, false)], db.tokens + [Token(sid, false, None, false, expiresAt)])
  }

  // ---------------------------------------------------------------------------------------------
  // The rotation chain
  // ---------------------------------------------------------------------------------------------

  /** The tokens of a session in the order they were issued. */
  function ChainOf(tokens: seq<Token>, sid: nat): (c: seq<nat>)
    ensures forall i :: 0 <= i < |c| ==> c[i] < |tokens| && tokens[c[i]].session == sid
  {
    if tokens == [] then []
    else
      var n := |tokens| - 1;
      ChainOf(tokens[..n], sid) + if tokens[n].session == sid then [n] else []
  }

  /** The chain is complete: it holds every token of the session, each once. */
  lemma {:induction false} ChainIsComplete(tokens: seq<Token>, sid: nat)
    ensures var c := ChainOf(tokens, sid);
      && (forall i, j :: 0 <= i < j < |c| ==> c[i] < c[j])
      && (forall k :: 0 <= k < |tokens| && tokens[k].session == sid ==> k in c)
  {
    if tokens != [] {
      var n := |tokens| - 1;
      ChainIsComplete(tokens[..n], sid);
      assert forall k :: 0 <= k < n ==> tokens[..n][k] == tokens[k];
    }
  }

  /** Token number i of the chain is used and points at its successor; the last is unused and points nowhere. */
  predicate LinkHolds(tokens: seq<Token>, c: seq<nat>, i: nat)
    requires i < |c| && c[i] < |tokens|
  {
    var t := tokens[c[i]];
    if i + 1 < |c| then t.used && t.replacedBy == Some(c[i + 1]) else !t.used && t.replacedBy.None?
  }

  ghost predicate Linked(tokens: seq<Token>, c: seq<nat>)
    requires forall i :: 0 <= i < |c| ==> c[i] < |tokens|
  {
    c != [] && forall i {:trigger LinkHolds(tokens, c, i)} :: 0 <= i < |c| ==> LinkHolds(tokens, c, i)
  }

  ghost predicate Inv(db: Db) {
    && (forall k :: 0 <= k < |db.tokens| ==> db.tokens[k].session < |db.sessions|)
    && AllLinked(db)
    && (forall k :: 0 <= k < |db.tokens| && db.tokens[k].revoked ==> db.sessions[db.tokens[k].session].revoked)
    && (forall i, j :: 0 <= i < j < |db.sessions| ==> db.sessions[i].family != db.sessions[j].family)
    && (forall i :: 0 <= i < |db.sessions| ==> db.sessions[i].family < |db.sessions|)
  }

  /** Only which session a token belongs to decides the chain. */
  lemma {:induction false} ChainDependsOnSessions(a: seq<Token>, b: seq<Token>, sid: nat)
    requires |a| == |b| && forall k :: 0 <= k < |a| ==> a[k].session == b[k].session
    ensures ChainOf(a, sid) == ChainOf(b, sid)
  {
    if a != [] {
      ChainDependsOnSessions(a[..|a| - 1], b[..|b| - 1], sid);
    }
  }

  lemma NoTokensNoChain(tokens: seq<Token>, sid: nat)
    requires forall k :: 0 <= k < |tokens| ==> tokens[k].session != sid
    ensures ChainOf(tokens, sid) == []
  {
  }

  lemma ChainSnoc(tokens: seq<Token>, t: Token, sid: nat)
    ensures ChainOf(tokens + [t], sid) == ChainOf(tokens, sid) + if t.session == sid then [|tokens|] else []
  {
    assert (tokens + [t])[..|tokens|] == tokens;
  }

  /** In a linked chain the one unused token is the last. */
  lemma UnusedIsLast(db: Db, tok: nat)
    requires Inv(db) && tok < |db.tokens| && !db.tokens[tok].used
    ensures var c := ChainOf(db.tokens, db.tokens[tok].session);
      c != [] && c[|c| - 1] == tok
  {
    var c := ChainOf(db.tokens, db.tokens[tok].session);
    ChainIsComplete(db.tokens, db.tokens[tok].session);
    assert Linked(db.tokens, c);
    var i :| 0 <= i < |c| && c[i] == tok;
    assert LinkHolds(db.tokens, c, i);
  }

  ghost predicate AllLinked(db: Db) {
    forall sid :: 0 <= sid < |db.sessions| ==> Linked(db.tokens, ChainOf(db.tokens, sid))
  }

  lemma RevokeKeepsLinks(db: Db, sessions: set<nat>, tokens: set<nat>)
    requires AllLinked(db)
    ensures AllLinked(Revoke(db, sessions, tokens))
  {
    var after := Revoke(db, sessions, tokens);
    forall sid | 0 <= sid < |after.sessions|
      ensures Linked(after.tokens, ChainOf(after.tokens, sid))
    {
      ChainDependsOnSessions(db.tokens, after.tokens, sid);
      var c := ChainOf(db.tokens, sid);
      assert Linked(db.tokens, c);
      forall i | 0 <= i < |c| ensures LinkHolds(after.tokens, c, i) { assert LinkHolds(db.tokens, c, i); }
    }
  }

  lemma RevokeKeepsInv(db: Db, sessions: set<nat>, tokens: set<nat>)
    requires Inv(db)
    requires forall k :: k in tokens && k < |db.tokens| ==>
      db.tokens[k].session in sessions || db.sessions[db.tokens[k].session].revoked
    ensures Inv(Revoke(db, sessions, tokens))
  {
    RevokeKeepsLinks(db, sessions, tokens);
  }

  /** Rotation appends to the chain of the token's own session and leaves the others as they are. */
  lemma RotateLinks(db: Db, tok: nat, expiresAt: int, sid: nat)
    requires Inv(db) && tok < |db.tokens| && !db.tokens[tok].used && sid < |db.sessions|
    ensures var after := Rotate(db, tok, expiresAt);
      && ChainOf(after.tokens, sid)
           == ChainOf(db.tokens, sid) + (if db.tokens[tok].session == sid then [|db.tokens|] else [])
      && Linked(after.tokens, ChainOf(after.tokens, sid))
  {
    var after := Rotate(db, tok, expiresAt);
    var marked := db.tokens[tok := after.tokens[tok]];
    assert after.tokens == marked + [after.tokens[|db.tokens|]];
    ChainDependsOnSessions(db.tokens, marked, sid);
    ChainSnoc(marked, after.tokens[|db.tokens|], sid);
    var c, c' := ChainOf(db.tokens, sid), ChainOf(after.tokens, sid);
    assert Linked(db.tokens, c);
    UnusedIsLast(db, tok);
    forall i | 0 <= i < |c'|
      ensures LinkHolds(after.tokens, c', i)
    {
      if i < |c| {
        assert LinkHolds(db.tokens, c, i);
        assert c'[i] == c[i];
      }
    }
  }

  lemma RotateKeepsInv(db: Db, tok: nat, expiresAt: int)
    requires Inv(db) && tok < |db.tokens| && !db.tokens[tok].used
    requires !db.sessions[db.tokens[tok].session].revoked
    ensures Inv(Rotate(db, tok, expiresAt))
  {
    var after := Rotate(db, tok, expiresAt);
    forall sid | 0 <= sid < |after.sessions|
      ensures Linked(after.tokens, ChainOf(after.tokens, sid))
    {
      RotateLinks(db, tok, expiresAt, sid);
    }
  }

  lemma IssueKeepsInv(db: Db, user: string, expiresAt: int)
    requires Inv(db)
    ensures Inv(Issue(db, user, expiresAt))
  {
    var after := Issue(db, user, expiresAt);
    var t := after.tokens[|db.tokens|];
    forall sid | 0 <= sid < |after.sessions|
      ensures Linked(after.tokens, ChainOf(after.tokens, sid))
    {
      ChainSnoc(db.tokens, t, sid);
      var c, c' := ChainOf(db.tokens, sid), ChainOf(after.tokens, sid);
      if sid < |db.sessions| {
        assert Linked(db.tokens, c);
        forall i | 0 <= i < |c'| ensures LinkHolds(after.tokens, c', i) { assert LinkHolds(db.tokens, c, i); }
      } else {
        NoTokensNoChain(db.tokens, sid);
        assert c' == [|db.tokens|];
        assert LinkHolds(after.tokens, c', 0);
      }
    }
  }

  /** The last token of a chain is unused, and it is revoked only together with its session. */
  lemma LastOfChain(db: Db, sid: nat)
    requires Inv(db) && sid < |db.sessions|
    ensures var c := ChainOf(db.tokens, sid);
      && c != []
      && (var last := db.tokens[c[|c| - 1]];
          last.session == sid && !last.used && (last.revoked ==> db.sessions[sid].revoked))
  {
    var c := ChainOf(db.tokens, sid);
    assert Linked(db.tokens, c);
    assert LinkHolds(db.tokens, c, |c| - 1);
  }

  lemma NewestToken(db: Db, sid: nat, now: int, expiresAt: int)
    requires Inv(db) && sid < |db.sessions|
    ensures var c := ChainOf(db.tokens, sid);
      && c != []
      && (Refresh(db, c[|c| - 1], now, expiresAt).1.Rotated? <==>
            !db.sessions[sid].revoked && now <= db.tokens[c[|c| - 1]].expiresAt)
  {
    hide Inv, Rotate, Burn, Family;
    LastOfChain(db, sid);
  }

  /** issueSession never reuses a family, so a family is one session. */
  lemma FamilyIsOneSession(db: Db, sid: nat)
    requires Inv(db) && sid < |db.sessions|
    ensures Family(db, db.sessions[sid].family) == {sid}
  {
    hide AllLinked;
    forall i | i in Family(db, db.sessions[sid].family) ensures i == sid {
      assert i < sid || i == sid || sid < i;
    }
  }

  /** Logging out of all sessions therefore does what logging out of one does. */
  lemma LogoutOfAllIsLogoutOfOne(db: Db, tok: nat)
    requires Inv(db)
    ensures Logout(db, tok, true) == Logout(db, tok, false)
  {
    if tok < |db.tokens| {
      FamilyIsOneSession(db, db.tokens[tok].session);
      hide Family, Burn, Inv;
    }
  }

  /** A logout ends the presented token's session, and nobody else's. */
  lemma LogoutEndsOneSession(db: Db, tok: nat, allSessions: bool, other: nat, now: int, expiresAt: int)
    requires Inv(db) && tok < |db.tokens| && other < |db.tokens|
    ensures var after := Logout(db, tok, allSessions);
      if db.tokens[other].session == db.tokens[tok].session then !Refresh(after, other, now, expiresAt).1.Rotated?
      else Refresh(after, other, now, expiresAt).1 == Refresh(db, other, now, expiresAt).1
  {
    LogoutOfAllIsLogoutOfOne(db, tok);
    var sid := db.tokens[tok].session;
    var after := Logout(db, tok, false);
    assert after == Burn(db, {sid});
    assert other in TokensOfSessions(db, {sid}) <==> db.tokens[other].session == sid;
    hide Inv, Family, Logout, LogoutTargets;
  }
}
