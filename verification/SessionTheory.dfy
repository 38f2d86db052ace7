/** What revocation covers, and how sessions chain, over every run. */
module SessionTheory {
  import opened Basics
  import opened Sessions

  // ---------- The invariant ----------

  /**
   The end of the access token's life as counted from the row's creation, and how much of it a floored TTL can miss.
   */
  function LifeEnd(cfg: Config, row: TokenRow): int {
    row.createdAt + 1000 * cfg.accessTtl
  }

  /** The blacklist covers the token up to within a second of that end, or that last second has begun. */
  ghost predicate Covered(cfg: Config, row: TokenRow, blacklist: map<Jti, int>, now: int) {
    if row.accessTokenJti in blacklist then
      LifeEnd(cfg, row) - 1000 < blacklist[row.accessTokenJti] <= LifeEnd(cfg, row)
    else
      now > LifeEnd(cfg, row) - 1000
  }

  ghost predicate RowSound(cfg: Config, a: Auth, id: TokenId)
    requires id in a.tokens
  {
    var row := a.tokens[id];
    && row.createdAt <= a.now
    && row.accessTokenJti in a.issued
    && a.issued[row.accessTokenJti].session == id
    && 1000 * a.issued[row.accessTokenJti].exp <= LifeEnd(cfg, row)
    && (if row.isActive then row.accessTokenJti !in a.blacklist else Covered(cfg, row, a.blacklist, a.now))
  }

  /** The row the history names for an access token is the row that names the token. */
  ghost predicate AccessSound(a: Auth, j: Jti)
    requires j in a.issued
  {
    a.issued[j].session in a.tokens && a.tokens[a.issued[j].session].accessTokenJti == j
  }

  /** A row and the root of its chain belong to the same user. */
  ghost predicate RootSound(a: Auth, id: TokenId)
    requires id in a.tokens
  {
    id in a.chain && a.chain[id] in a.tokens && a.tokens[a.chain[id]].userId == a.tokens[id].userId
  }

  ghost predicate Active(a: Auth, id: TokenId) {
    id in a.tokens && a.tokens[id].isActive
  }

  ghost predicate RowsSound(cfg: Config, a: Auth) {
    forall id {:trigger RowSound(cfg, a, id)} | id in a.tokens :: RowSound(cfg, a, id)
  }

  ghost predicate IssuedSound(a: Auth) {
    && a.blacklist.Keys <= a.issued.Keys
    && forall j {:trigger AccessSound(a, j)} | j in a.issued :: AccessSound(a, j)
  }

  /** Only one row of a chain is active. */
  ghost predicate ChainsSound(a: Auth) {
    && (forall id {:trigger RootSound(a, id)} | id in a.tokens :: RootSound(a, id))
    && (forall id, id' | Active(a, id) && Active(a, id') && RootOf(a, id) == RootOf(a, id') :: id == id')
  }

  ghost predicate Sound(cfg: Config, a: Auth) {
    RowsSound(cfg, a) && IssuedSound(a) && ChainsSound(a)
  }

  /** The floored TTL lands in the last second of the token's life, or rounds to nothing inside that second. */
  lemma {:induction false} TtlWindow(cfg: Config, createdAt: int, now: int)
    ensures var ttl, end := RemainingTtl(cfg, createdAt, now), createdAt + 1000 * cfg.accessTtl;
            if ttl > 0 then end - 1000 < now + 1000 * ttl <= end else now > end - 1000
  {
  }

  lemma {:induction false} RevokeKeeps(cfg: Config, a: Auth, id: TokenId)
    requires Sound(cfg, a) && id in a.tokens
    ensures Sound(cfg, Revoke(cfg, a, id))
  {
    RevokeKeepsRows(cfg, a, id);
    RevokeKeepsLinks(cfg, a, id);
  }

  lemma {:induction false} RevokeKeepsRows(cfg: Config, a: Auth, id: TokenId)
    requires Sound(cfg, a) && id in a.tokens
    ensures RowsSound(cfg, Revoke(cfg, a, id))
  {
    var row, a' := a.tokens[id], Revoke(cfg, a, id);
    assert RowSound(cfg, a, id);
    TtlWindow(cfg, row.createdAt, a.now);
    forall h | h in a'.tokens
      ensures RowSound(cfg, a', h)
    {
      assert RowSound(cfg, a, h);
    }
  }

  lemma {:induction false} RevokeKeepsLinks(cfg: Config, a: Auth, id: TokenId)
    requires Sound(cfg, a) && id in a.tokens
    ensures IssuedSound(Revoke(cfg, a, id)) && ChainsSound(Revoke(cfg, a, id))
  {
    RevokeKeepsIssued(cfg, a, id);
    var a' := Revoke(cfg, a, id);
    forall h | h in a'.tokens ensures RootSound(a', h) {
      assert RootSound(a, h);
    }
    FewerActive(a, a');
  }

  lemma {:induction false} RevokeKeepsIssued(cfg: Config, a: Auth, id: TokenId)
    requires Sound(cfg, a) && id in a.tokens
    ensures IssuedSound(Revoke(cfg, a, id))
  {
    var a' := Revoke(cfg, a, id);
    assert RowSound(cfg, a, id);
    forall j | j in a'.issued ensures AccessSound(a', j) {
      assert AccessSound(a, j);
    }
  }

  /** With the same chains, having no new active rows keeps one active row per chain. */
  lemma {:induction false} FewerActive(a: Auth, a': Auth)
    requires ChainsSound(a) && a'.chain == a.chain
    requires forall id | Active(a', id) :: Active(a, id)
    ensures forall id, id' | Active(a', id) && Active(a', id') && RootOf(a', id) == RootOf(a', id') :: id == id'
  {
  }

  lemma {:induction false} RevokeAllKeeps(cfg: Config, a: Auth, user: UserId, except: Option<TokenId>)
    requires Sound(cfg, a)
    ensures Sound(cfg, RevokeAll(cfg, a, user, except))
  {
    RevokeAllKeepsRows(cfg, a, user, except);
    var a' := RevokeAll(cfg, a, user, except);
    forall j | j in a'.issued ensures AccessSound(a', j) {
      assert AccessSound(a, j);
    }
    forall h | h in a'.tokens ensures RootSound(a', h) {
      assert RootSound(a, h);
    }
    FewerActive(a, a');
  }

  lemma {:induction false} RevokeAllKeepsRows(cfg: Config, a: Auth, user: UserId, except: Option<TokenId>)
    requires Sound(cfg, a)
    ensures RowsSound(cfg, RevokeAll(cfg, a, user, except))
  {
    var a' := RevokeAll(cfg, a, user, except);
    forall h | h in a'.tokens
      ensures RowSound(cfg, a', h)
    {
      assert RowSound(cfg, a, h);
      TtlWindow(cfg, a.tokens[h].createdAt, a.now);
    }
  }

  /** A new pair may join a chain of its user that has no active row left, or start one. */
  lemma {:induction false} IssueKeeps(cfg: Config, a: Auth, user: UserId, ids: Ids, lag: nat, root: Option<TokenId>)
    requires Sound(cfg, a) && FreshIds(a, ids)
    requires root.Some? ==> root.value in a.tokens && a.tokens[root.value].userId == user
    requires root.Some? ==> forall id | Active(a, id) :: RootOf(a, id) != root.value
    ensures Sound(cfg, IssueTokens(cfg, a, user, ids, lag, root).0)
  {
    IssueKeepsRows(cfg, a, user, ids, lag, root);
    IssueKeepsLinks(cfg, a, user, ids, lag, root);
  }

  lemma {:induction false} IssueKeepsRows(cfg: Config, a: Auth, user: UserId, ids: Ids, lag: nat, root: Option<TokenId>)
    requires Sound(cfg, a) && FreshIds(a, ids)
    ensures RowsSound(cfg, IssueTokens(cfg, a, user, ids, lag, root).0)
  {
    var a' := IssueTokens(cfg, a, user, ids, lag, root).0;
    forall h | h in a'.tokens
      ensures RowSound(cfg, a', h)
    {
      if h in a.tokens {
        assert RowSound(cfg, a, h);
      }
    }
  }

  lemma {:induction false} IssueKeepsLinks(cfg: Config, a: Auth, user: UserId, ids: Ids, lag: nat,
                                           root: Option<TokenId>)
    requires Sound(cfg, a) && FreshIds(a, ids)
    requires root.Some? ==> root.value in a.tokens && a.tokens[root.value].userId == user
    requires root.Some? ==> forall id | Active(a, id) :: RootOf(a, id) != root.value
    ensures IssuedSound(IssueTokens(cfg, a, user, ids, lag, root).0)
    ensures ChainsSound(IssueTokens(cfg, a, user, ids, lag, root).0)
  {
    var a' := IssueTokens(cfg, a, user, ids, lag, root).0;
    forall j | j in a'.issued ensures AccessSound(a', j) {
      if j in a.issued {
        assert AccessSound(a, j);
      }
    }
    forall h | h in a'.tokens ensures RootSound(a', h) {
      if h in a.tokens {
        assert RootSound(a, h);
      }
    }
    forall id, id' | Active(a', id) && Active(a', id') && RootOf(a', id) == RootOf(a', id')
      ensures id == id'
    {
      if id in a.tokens {
        assert Active(a, id) && RootSound(a, id) && RootOf(a', id) == RootOf(a, id);
      }
      if id' in a.tokens {
        assert Active(a, id') && RootSound(a, id') && RootOf(a', id') == RootOf(a, id');
      }
    }
  }

  lemma {:induction false} RefreshKeeps(cfg: Config, a: Auth, t: Jwt, ids: Ids, lag: nat)
    requires Sound(cfg, a) && FreshIds(a, ids)
    ensures Sound(cfg, Refresh(cfg, a, t, ids, lag).0)
  {
    if Rejection(a, t) == None {
      var a1, root := Revoke(cfg, a, t.jti), RootOf(a, t.jti);
      RevokeKeeps(cfg, a, t.jti);
      assert RootSound(a, t.jti);
      forall id | Active(a1, id) ensures RootOf(a1, id) != root {
        assert Active(a, id) && Active(a, t.jti);
      }
      IssueKeeps(cfg, a1, a.tokens[t.jti].userId, ids, lag, Some(root));
    }
  }

  lemma {:induction false} StepKeeps(cfg: Config, a: Auth, c: Call)
    requires Sound(cfg, a)
    ensures Sound(cfg, Step(cfg, a, c).0)
  {
    if (c.CallSignIn? || c.CallRefresh? || c.CallChangePassword?) && !FreshIds(a, c.ids) {
    } else {
      match c
      case CallSignIn(u, login, ids, lag) => IssueKeeps(cfg, a, u, ids, lag, None);
      case CallLogOut(t) =>
        if Rejection(a, t) == None {
          RevokeKeeps(cfg, a, t.jti);
        }
      case CallRefresh(t, ids, lag) => RefreshKeeps(cfg, a, t, ids, lag);
      case CallRevoke(s, u) =>
        if s in a.tokens {
          RevokeKeeps(cfg, a, s);
        }
      case CallRevokeAll(u, ex) => RevokeAllKeeps(cfg, a, u, ex);
      case CallChangePassword(u, login, ids, lag) =>
        RevokeAllKeeps(cfg, a, u, None);
        IssueKeeps(cfg, RevokeAll(cfg, a, u, None), u, ids, lag, None);
      case Tick(ms) => TickKeeps(cfg, a, ms);
    }
  }

  lemma {:induction false} TickKeeps(cfg: Config, a: Auth, ms: nat)
    requires Sound(cfg, a)
    ensures Sound(cfg, a.(now := a.now + ms))
  {
    var a' := a.(now := a.now + ms);
    forall id | id in a.tokens ensures RowSound(cfg, a', id) && RootSound(a', id) {
      assert RowSound(cfg, a, id) && RootSound(a, id);
    }
    forall j | j in a.issued ensures AccessSound(a', j) {
      assert AccessSound(a, j);
    }
    FewerActive(a, a');
  }

  lemma {:induction false} RunKeeps(cfg: Config, a: Auth, calls: seq<Call>)
    requires Sound(cfg, a)
    ensures Sound(cfg, Run(cfg, a, calls))
    decreases |calls|
  {
    if calls != [] {
      StepKeeps(cfg, a, calls[0]);
      RunKeeps(cfg, Step(cfg, a, calls[0]).0, calls[1..]);
    }
  }

  /** Nothing issued yet. */
  function Empty(now: int): Auth {
    Auth(now, map[], map[], map[], map[])
  }

  // ---------- Coverage ----------

  /** The access token issued with a session, as the client holds it. */
  function AccessOf(a: Auth, id: TokenId): Jwt
    requires id in a.tokens && a.tokens[id].accessTokenJti in a.issued
  {
    Jwt(a.tokens[id].userId, a.tokens[id].accessTokenJti, a.issued[a.tokens[id].accessTokenJti].exp)
  }

  /**
   In every run: every blacklist entry expires within the second before the end of its token's life; the guard accepts
   the access token of an active session exactly until it expires; and it accepts that of an inactive session, if at
   all, only in an interval of less than 1000 ms that ends with the token's expiry.
   */
  lemma {:induction false} RevocationCoverage(cfg: Config, start: int, calls: seq<Call>, id: TokenId)
    requires id in Run(cfg, Empty(start), calls).tokens
    ensures var a := Run(cfg, Empty(start), calls);
            var row := a.tokens[id];
            && row.accessTokenJti in a.issued
            && var t := AccessOf(a, id);
            && 1000 * t.exp <= LifeEnd(cfg, row)
            && (row.accessTokenJti in a.blacklist ==>
                  !row.isActive && LifeEnd(cfg, row) - 1000 < a.blacklist[row.accessTokenJti] <= LifeEnd(cfg, row))
            && (row.isActive ==> (Accepts(a.blacklist, t, a.now) <==> a.now < 1000 * t.exp))
            && (!row.isActive && Accepts(a.blacklist, t, a.now) ==>
                  LifeEnd(cfg, row) - 1000 < a.now < 1000 * t.exp <= LifeEnd(cfg, row))
  {
    RunKeeps(cfg, Empty(start), calls);
    assert RowSound(cfg, Run(cfg, Empty(start), calls), id);
  }

  // ---------- The refresh token as a bearer ----------

  /** The refresh token of a session, as the client holds it. */
  function RefreshOf(a: Auth, id: TokenId): Jwt
    requires id in a.tokens
  {
    Jwt(a.tokens[id].userId, id, a.tokens[id].expiresAt / 1000)
  }

  /**
   The guard knows revocations by access id only. So in every run it accepts a refresh token, presented as a bearer
   token, exactly until that token expires, whether or not its session has been revoked, unless its id is also that of
   an access token.
   */
  lemma {:induction false} RefreshTokenAsBearer(cfg: Config, start: int, calls: seq<Call>, id: TokenId)
    requires id in Run(cfg, Empty(start), calls).tokens
    requires id !in Run(cfg, Empty(start), calls).issued
    ensures var a := Run(cfg, Empty(start), calls);
            Accepts(a.blacklist, RefreshOf(a, id), a.now) <==> a.now < 1000 * RefreshOf(a, id).exp
  {
    RunKeeps(cfg, Empty(start), calls);
  }

  /** The tokens handed out are the ones the rows stand for. */
  lemma {:induction false} HandedOut(cfg: Config, a: Auth, user: UserId, ids: Ids, lag: nat, root: Option<TokenId>)
    ensures var (a', reply) := IssueTokens(cfg, a, user, ids, lag, root);
            && reply == Issued(AccessOf(a', ids.refresh), RefreshOf(a', ids.refresh))
            && a'.now == a.now + lag && a'.tokens[ids.refresh].createdAt == a.now + lag
  {
    assert (a.now + cfg.refreshTtl * 1000) / 1000 == a.now / 1000 + cfg.refreshTtl;
  }
}
