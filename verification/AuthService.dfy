/**
 * The auth service's session calls as they are written, on mutable tables: each method runs its
 * statements in order and returns early where the source does, and is proved to do what the atomic
 * call of AuthModel does.
 */
module AuthService {
  import opened Basics
  import opened AuthModel

  class Service {
    var sessions: seq<Session>
    var tokens: seq<Token>

    ghost function Contents(): Db
      reads this
    {
      Db(sessions, tokens)
    }

    constructor ()
      ensures Contents() == EMPTY
    {
      sessions, tokens := [], [];
    }

    // ── store ──────────────────────────────────────────────────────────────────

    method CreateSession(user: string) returns (sid: nat)
      modifies this`sessions
      ensures sid == |old(sessions)| && sessions == old(sessions) + [Session(user, sid, false)]
    {
      sid := |sessions|;
      sessions := sessions + [Session(user, sid, false)];
    }

    method InsertRefreshToken(session: nat, expiresAt: int) returns (id: nat)
      modifies this`tokens
      ensures id == |old(tokens)| && tokens == old(tokens) + [Token(session, false, None, false, expiresAt)]
    {
      id := |tokens|;
      tokens := tokens + [Token(session, false, None, false, expiresAt)];
    }

    method MarkTokenUsed(id: nat, replacedBy: nat)
      requires id < |tokens|
      modifies this`tokens
      ensures tokens == old(tokens)[id := old(tokens)[id].(used := true, replacedBy := Some(replacedBy))]
    {
      tokens := tokens[id := tokens[id].(used := true, replacedBy := Some(replacedBy))];
    }

    /** UPDATE sessions, then UPDATE refresh_tokens, for the given sessions. */
    method RevokeAll(targets: set<nat>)
      modifies this
      ensures Contents() == Burn(old(Contents()), targets)
    {
      for i := 0 to |sessions|
        invariant |sessions| == |old(sessions)| && tokens == old(tokens)
        invariant forall k :: 0 <= k < |sessions| ==>
          sessions[k] == if k < i && k in targets then old(sessions)[k].(revoked := true) else old(sessions)[k]
      {
        if i in targets && !sessions[i].revoked {
          sessions := sessions[i := sessions[i].(revoked := true)];
        }
      }
      for i := 0 to |tokens|
        invariant |tokens| == |old(tokens)|
        invariant sessions == Burn(old(Contents()), targets).sessions
        invariant forall k :: 0 <= k < |tokens| ==>
          tokens[k] == if k < i && old(tokens)[k].session in targets
            then old(tokens)[k].(revoked := true) else old(tokens)[k]
      {
        if tokens[i].session in targets && !tokens[i].revoked {
          tokens := tokens[i := tokens[i].(revoked := true)];
        }
      }
      assert tokens == Burn(old(Contents()), targets).tokens;
    }

    // ── service ────────────────────────────────────────────────────────────────

    method IssueSession(user: string, expiresAt: int) returns (token: nat)
      modifies this
      ensures Contents() == Issue(old(Contents()), user, expiresAt) && token == |old(tokens)|
    {
      var sid := CreateSession(user);
      token := InsertRefreshToken(sid, expiresAt);
    }

    method Refresh(tok: nat, now: int, expiresAt: int) returns (outcome: Outcome)
      modifies this
      ensures (Contents(), outcome) == AuthModel.Refresh(old(Contents()), tok, now, expiresAt)
    {
      if tok >= |tokens| || tokens[tok].session >= |sessions| {
        return TokenExpired;
      }
      var rt := tokens[tok];
      if rt.revoked || rt.expiresAt < now {
        return TokenExpired;
      }
      if rt.used {
        RevokeAll(Family(Db(sessions, tokens), sessions[rt.session].family));
        return TokenReuse;
      }
      if sessions[rt.session].revoked {
        return TokenExpired;
      }
      var newId := InsertRefreshToken(rt.session, expiresAt);
      MarkTokenUsed(tok, newId);
      assert tokens == Rotate(old(Contents()), tok, expiresAt).tokens;
      return Rotated(newId);
    }

    method Logout(tok: nat, allSessions: bool)
      modifies this
      ensures Contents() == AuthModel.Logout(old(Contents()), tok, allSessions)
    {
      if tok >= |tokens| || tokens[tok].session >= |sessions| {
        return;
      }
      if allSessions {
        RevokeAll(Family(Db(sessions, tokens), sessions[tokens[tok].session].family));
      } else {
        RevokeAll({tokens[tok].session});
      }
    }

    method RevokeSession(user: string, sid: nat) returns (found: bool)
      modifies this`sessions
      ensures (Contents(), found) == AuthModel.RevokeSession(old(Contents()), user, sid)
    {
      found := sid < |sessions| && sessions[sid].user == user && !sessions[sid].revoked;
      if found {
        sessions := sessions[sid := sessions[sid].(revoked := true)];
      }
    }
  }
}
