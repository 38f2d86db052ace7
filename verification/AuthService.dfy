/** The auth service over its token table and the Redis blacklist, proved to follow the functions of module Sessions. */
module AuthService {
  import opened Basics
  import opened Sessions
  import opened SessionTheory

  class AuthService {
    const cfg: Config
    var now: int
    var tokens: map<TokenId, TokenRow>
    var blacklist: map<Jti, int>
    /** History: the access tokens issued, and the chain of each row. */
    ghost var issued: map<Jti, Access>
    ghost var chain: map<TokenId, TokenId>

    ghost function State(): Auth
      reads this
    {
      Auth(now, tokens, blacklist, issued, chain)
    }

    ghost predicate Valid()
      reads this
    {
      Sound(cfg, State())
    }

    constructor (cfg: Config, now: int)
      ensures Valid() && this.cfg == cfg && State() == Empty(now)
    {
      this.cfg, this.now := cfg, now;
      tokens, blacklist, issued, chain := map[], map[], map[], map[];
    }

    /** The ids are drawn fresh; the row is created `lag` milliseconds after the signing. */
    method IssueTokens(user: UserId, ids: Ids, lag: nat, ghost root: Option<TokenId>) returns (reply: Reply)
      requires FreshIds(State(), ids)
      modifies this
      ensures (State(), reply) == Sessions.IssueTokens(cfg, old(State()), user, ids, lag, root)
    {
      var access := Sign(user, ids.access, now, cfg.accessTtl);
      var refresh := Sign(user, ids.refresh, now, cfg.refreshTtl);
      var expiresAt := now + cfg.refreshTtl * 1000;
      now := now + lag;
      tokens := tokens[ids.refresh := TokenRow(ids.access, expiresAt, now, true, user)];
      issued := issued[ids.access := Access(access.exp, ids.refresh)];
      chain := chain[ids.refresh := if root.Some? then root.value else ids.refresh];
      return Issued(access, refresh);
    }

    /** Update of one row, then the blacklist entry if any whole second is left. */
    method Revoke(id: TokenId)
      requires id in tokens
      modifies this`tokens, this`blacklist
      ensures State() == Sessions.Revoke(cfg, old(State()), id)
    {
      var stored := tokens[id];
      tokens := tokens[id := stored.(isActive := false)];
      var ttl := RemainingTtl(cfg, stored.createdAt, now);
      if ttl > 0 {
        blacklist := blacklist[stored.accessTokenJti := now + 1000 * ttl];
      }
    }

    method SignIn(user: UserId, login: Login, ids: Ids, lag: nat) returns (reply: Reply)
      requires Valid() && FreshIds(State(), ids)
      modifies this
      ensures Valid()
      ensures (State(), reply) == Sessions.SignIn(cfg, old(State()), user, login, ids, lag)
    {
      StepKeeps(cfg, State(), CallSignIn(user, login, ids, lag));
      if login == UnknownNickname {
        return Refused(UserNotFound);
      }
      if login == WrongPassword {
        return Refused(BadCredentials);
      }
      reply := IssueTokens(user, ids, lag, None);
    }

    method LogOut(token: Jwt) returns (reply: Reply)
      requires Valid()
      modifies this
      ensures Valid()
      ensures (State(), reply) == Sessions.LogOut(cfg, old(State()), token)
    {
      StepKeeps(cfg, State(), CallLogOut(token));
      if !Verifies(token, now) {
        return Refused(InvalidToken);
      }
      if token.jti !in tokens {
        return Refused(TokenNotFound);
      }
      if !tokens[token.jti].isActive {
        return Refused(AlreadyRevoked);
      }
      Revoke(token.jti);
      return Done;
    }

    method Refresh(token: Jwt, ids: Ids, lag: nat) returns (reply: Reply)
      requires Valid() && FreshIds(State(), ids)
      modifies this
      ensures Valid()
      ensures (State(), reply) == Sessions.Refresh(cfg, old(State()), token, ids, lag)
    {
      RefreshKeeps(cfg, State(), token, ids, lag);
      if !Verifies(token, now) {
        return Refused(InvalidToken);
      }
      if token.jti !in tokens {
        return Refused(TokenNotFound);
      }
      var stored := tokens[token.jti];
      if !stored.isActive {
        return Refused(AlreadyRevoked);
      }
      ghost var root := Some(RootOf(State(), token.jti));
      Revoke(token.jti);
      reply := IssueTokens(stored.userId, ids, lag, root);
    }

    method RevokeSession(session: TokenId, user: UserId) returns (reply: Reply)
      requires Valid()
      modifies this
      ensures Valid()
      ensures (State(), reply) == Sessions.RevokeSession(cfg, old(State()), session, user)
    {
      StepKeeps(cfg, State(), CallRevoke(session, user));
      if session !in tokens || tokens[session].userId != user {
        return Refused(SessionNotFound);
      }
      Revoke(session);
      return Done;
    }

    /** Selects the sessions, deactivates them in one update, then blacklists their access tokens. */
    method RevokeAllSessions(user: UserId, except: Option<TokenId>)
      requires Valid()
      modifies this`tokens, this`blacklist
      ensures State() == RevokeAll(cfg, old(State()), user, except)
      ensures Valid()
    {
      ghost var before := State();
      var found := FindSessions(user, except);
      AllWritten(cfg, before, user, except, found.Keys);
      RevokeAllKeeps(cfg, before, user, except);
      DeactivateSessions(found.Keys);
      assert tokens == RevokeAll(cfg, before, user, except).tokens;
      BlacklistSessions(found, before, user, except);
    }

    /** findMany of the rows to revoke. */
    method FindSessions(user: UserId, except: Option<TokenId>) returns (found: map<TokenId, TokenRow>)
      ensures forall id :: id in found <==> Selected(State(), user, except, id)
      ensures forall id | id in found :: id in tokens && found[id] == tokens[id]
    {
      return map id | id in tokens && tokens[id].userId == user && tokens[id].isActive
                      && (except.Some? && except.value != "" ==> id != except.value) :: tokens[id];
    }

    /** updateMany of isActive. */
    method DeactivateSessions(sessions: set<TokenId>)
      modifies this`tokens
      ensures tokens == map id | id in old(tokens) ::
                          if id in sessions then old(tokens)[id].(isActive := false) else old(tokens)[id]
    {
      tokens := map id | id in tokens :: if id in sessions then tokens[id].(isActive := false) else tokens[id];
    }

    /** The pipeline: one entry after the other, in any order, for each session with a whole second left. */
    method BlacklistSessions(found: map<TokenId, TokenRow>, ghost a: Auth, ghost user: UserId,
                             ghost except: Option<TokenId>)
      requires Sound(cfg, a) && a.now == now && a.blacklist == blacklist
      requires forall id | id in found :: Selected(a, user, except, id) && found[id] == a.tokens[id]
      requires blacklist == PartlyBlacklisted(cfg, a, user, except, found.Keys)
      modifies this`blacklist
      ensures blacklist == PartlyBlacklisted(cfg, a, user, except, {})
    {
      var left := found.Keys;
      while left != {}
        invariant left <= found.Keys
        invariant blacklist == PartlyBlacklisted(cfg, a, user, except, left)
        decreases left
      {
        var id :| id in left;
        var ttl := RemainingTtl(cfg, found[id].createdAt, now);
        BlacklistOneMore(cfg, a, user, except, left, id);
        if ttl > 0 {
          blacklist := blacklist[found[id].accessTokenJti := now + 1000 * ttl];
        }
        left := left - {id};
      }
    }

    /** A new password invalidates every session, then opens one. */
    method ChangePassword(user: UserId, login: Login, ids: Ids, lag: nat) returns (reply: Reply)
      requires Valid() && FreshIds(State(), ids)
      modifies this
      ensures Valid()
      ensures (State(), reply) == Sessions.ChangePassword(cfg, old(State()), user, login, ids, lag)
    {
      StepKeeps(cfg, State(), CallChangePassword(user, login, ids, lag));
      if login == UnknownNickname {
        return Refused(UserNotFound);
      }
      if login == WrongPassword {
        return Refused(BadCredentials);
      }
      RevokeAllSessions(user, None);
      reply := IssueTokens(user, ids, lag, None);
    }
  }

  /** The blacklist of a bulk revocation while the sessions in `left` are still to be written. */
  ghost function PartlyBlacklisted(cfg: Config, a: Auth, user: UserId, except: Option<TokenId>, left: set<TokenId>)
    : map<Jti, int>
  {
    map j | j in a.blacklist.Keys + a.issued.Keys
            && (j in a.blacklist || (Blacklists(cfg, a, user, except, j) && a.issued[j].session !in left)) ::
      if Blacklists(cfg, a, user, except, j) && a.issued[j].session !in left
      then a.now + 1000 * RemainingTtl(cfg, a.tokens[a.issued[j].session].createdAt, a.now)
      else a.blacklist[j]
  }

  /** With every selected session still left nothing is written, and with none left everything is. */
  lemma {:induction false} AllWritten(cfg: Config, a: Auth, user: UserId, except: Option<TokenId>, left: set<TokenId>)
    requires Sound(cfg, a) && forall id | Selected(a, user, except, id) :: id in left
    ensures PartlyBlacklisted(cfg, a, user, except, left) == a.blacklist
    ensures PartlyBlacklisted(cfg, a, user, except, {}) == RevokeAll(cfg, a, user, except).blacklist
  {
  }

  /** Writing one selected session's entry moves it out of what is left; ids of access tokens never coincide. */
  lemma {:induction false} BlacklistOneMore(cfg: Config, a: Auth, user: UserId, except: Option<TokenId>,
                                            left: set<TokenId>, id: TokenId)
    requires Sound(cfg, a) && id in left && Selected(a, user, except, id)
    ensures PartlyBlacklisted(cfg, a, user, except, left - {id}) ==
            Blacklisted(cfg, PartlyBlacklisted(cfg, a, user, except, left), a.tokens[id], a.now)
  {
    assert RowSound(cfg, a, id);
    var jti := a.tokens[id].accessTokenJti;
    forall j | j in a.issued && a.issued[j].session == id
      ensures j == jti
    {
      assert AccessSound(a, j);
    }
  }
}
