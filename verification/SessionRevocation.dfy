/** Exactly when revoking a session shuts its access token out for good, over every run. */
module SessionRevocation {
  import opened Basics
  import opened Sessions
  import opened SessionTheory

  // ---------- One revocation ----------

  /** The guard accepts the token at no instant from `from` on, as long as the blacklist stays as it is. */
  ghost predicate NeverAccepted(blacklist: map<Jti, int>, t: Jwt, from: int) {
    forall now | now >= from :: !Accepts(blacklist, t, now)
  }

  /**
   The revocation loses nothing to the floor: its instant falls short of the next whole second, if at all, counted from
   the row's creation, by no more than the creation lagged the whole second of the signing.
   */
  predicate OnTheSecond(cfg: Config, row: TokenRow, exp: int, revokedAt: int) {
    (row.createdAt - revokedAt) % 1000 <= row.createdAt - 1000 * (exp - cfg.accessTtl)
  }

  /** Where an entry written at some instant ends, and what that means for the token's expiry. */
  lemma {:induction false} EntryReachesExpiry(cfg: Config, row: TokenRow, exp: int, revokedAt: int)
    requires RemainingTtl(cfg, row.createdAt, revokedAt) > 0
    ensures revokedAt + 1000 * RemainingTtl(cfg, row.createdAt, revokedAt) >= 1000 * exp <==>
            OnTheSecond(cfg, row, exp, revokedAt)
  {
    var left := LifeEnd(cfg, row) - revokedAt;
    assert left % 1000 == (row.createdAt - revokedAt) % 1000;
    assert left == 1000 * (left / 1000) + left % 1000;
  }

  /**
   A revocation with a whole second left, of an active session or once more of an inactive one, writes an entry that
   shuts the token out for good exactly when the token has expired or the revocation is on the second. With no whole
   second left, what the blacklist has stays.
   */
  lemma {:induction false} RevocationShutsOut(cfg: Config, a: Auth, id: TokenId)
    requires id in a.tokens && RowSound(cfg, a, id)
    ensures var row, t := a.tokens[id], AccessOf(a, id);
            if RemainingTtl(cfg, row.createdAt, a.now) > 0 then
              NeverAccepted(Revoke(cfg, a, id).blacklist, t, a.now) <==>
                a.now >= 1000 * t.exp || OnTheSecond(cfg, row, t.exp, a.now)
            else
              Revoke(cfg, a, id).blacklist == a.blacklist
  {
    var row, t, blacklist := a.tokens[id], AccessOf(a, id), Revoke(cfg, a, id).blacklist;
    var ttl := RemainingTtl(cfg, row.createdAt, a.now);
    if ttl > 0 {
      EntryReachesExpiry(cfg, row, t.exp, a.now);
      FrozenBlacklist(blacklist, t, a.now);
    }
  }

  /** With the blacklist frozen, the token is never accepted exactly when it has expired or its entry outlives it. */
  lemma {:induction false} FrozenBlacklist(blacklist: map<Jti, int>, t: Jwt, from: int)
    ensures NeverAccepted(blacklist, t, from) <==>
            from >= 1000 * t.exp || (t.jti in blacklist && blacklist[t.jti] >= 1000 * t.exp)
  {
    var gap := if t.jti in blacklist && blacklist[t.jti] > from then blacklist[t.jti] else from;
    if gap < 1000 * t.exp {
      assert Accepts(blacklist, t, gap);
    }
  }

  // ---------- Who writes an entry ----------

  /** The step revokes this session. */
  ghost predicate Revokes(cfg: Config, a: Auth, c: Call, id: TokenId) {
    match c
    case CallLogOut(t) => t.jti == id && Step(cfg, a, c).1.Done?
    case CallRefresh(t, _, _) => t.jti == id && Step(cfg, a, c).1.Issued?
    case CallRevoke(s, _) => s == id && Step(cfg, a, c).1.Done?
    case CallRevokeAll(u, ex) => Selected(a, u, ex, id)
    case CallChangePassword(u, _, _, _) => Selected(a, u, None, id) && Step(cfg, a, c).1.Issued?
    case _ => false
  }

  /** The instant of the last revocation of the session that wrote an entry, if any. */
  ghost function LastWrite(cfg: Config, a: Auth, calls: seq<Call>, id: TokenId): Option<int>
    decreases |calls|
  {
    if calls == [] then None
    else
      var later := LastWrite(cfg, Step(cfg, a, calls[0]).0, calls[1..], id);
      if later.Some? then later
      else if id in a.tokens && Revokes(cfg, a, calls[0], id) && RemainingTtl(cfg, a.tokens[id].createdAt, a.now) > 0
      then Some(a.now)
      else None
  }

  function EntryOf(blacklist: map<Jti, int>, j: Jti): Option<int> {
    if j in blacklist then Some(blacklist[j]) else None
  }

  /**
   What a step does to a row and its entry: a revocation of this row deactivates and writes, anything else leaves
   both.
   */
  lemma {:induction false} EntryStep(cfg: Config, a: Auth, c: Call, id: TokenId)
    requires Sound(cfg, a) && id in a.tokens
    ensures var a', row := Step(cfg, a, c).0, a.tokens[id];
            && id in a'.tokens && a'.tokens[id] == row.(isActive := row.isActive && !Revokes(cfg, a, c, id))
            && row.accessTokenJti in a.issued && row.accessTokenJti in a'.issued
            && a'.issued[row.accessTokenJti] == a.issued[row.accessTokenJti]
            && EntryOf(a'.blacklist, row.accessTokenJti) ==
               if Revokes(cfg, a, c, id) && RemainingTtl(cfg, row.createdAt, a.now) > 0
               then Some(a.now + 1000 * RemainingTtl(cfg, row.createdAt, a.now))
               else EntryOf(a.blacklist, row.accessTokenJti)
  {
    RowStep(cfg, a, c, id);
    BlacklistStep(cfg, a, c, id);
  }

  lemma {:induction false} RowStep(cfg: Config, a: Auth, c: Call, id: TokenId)
    requires Sound(cfg, a) && id in a.tokens
    ensures var a', row := Step(cfg, a, c).0, a.tokens[id];
            && id in a'.tokens && a'.tokens[id] == row.(isActive := row.isActive && !Revokes(cfg, a, c, id))
            && row.accessTokenJti in a.issued && row.accessTokenJti in a'.issued
            && a'.issued[row.accessTokenJti] == a.issued[row.accessTokenJti]
  {
    assert RowSound(cfg, a, id);
  }

  lemma {:induction false} BlacklistStep(cfg: Config, a: Auth, c: Call, id: TokenId)
    requires Sound(cfg, a) && id in a.tokens
    ensures EntryOf(Step(cfg, a, c).0.blacklist, a.tokens[id].accessTokenJti) ==
            Written(cfg, a, id, Revokes(cfg, a, c, id))
  {
    match c
    case CallLogOut(t) =>
      if t.jti in a.tokens {
        EntryAfterRevoke(cfg, a, t.jti, id);
      }
    case CallRefresh(t, _, _) =>
      if t.jti in a.tokens {
        EntryAfterRevoke(cfg, a, t.jti, id);
      }
    case CallRevoke(s, _) =>
      if s in a.tokens {
        EntryAfterRevoke(cfg, a, s, id);
      }
    case CallRevokeAll(u, ex) => EntryAfterRevokeAll(cfg, a, u, ex, id);
    case CallChangePassword(u, _, _, _) => EntryAfterRevokeAll(cfg, a, u, None, id);
    case _ =>
  }

  /** The entry a revocation at this instant writes, if it writes one. */
  ghost function Written(cfg: Config, a: Auth, id: TokenId, revoked: bool): Option<int>
    requires id in a.tokens
  {
    var ttl := RemainingTtl(cfg, a.tokens[id].createdAt, a.now);
    if revoked && ttl > 0 then Some(a.now + 1000 * ttl) else EntryOf(a.blacklist, a.tokens[id].accessTokenJti)
  }

  lemma {:induction false} EntryAfterRevoke(cfg: Config, a: Auth, revoked: TokenId, id: TokenId)
    requires Sound(cfg, a) && id in a.tokens && revoked in a.tokens
    ensures EntryOf(Revoke(cfg, a, revoked).blacklist, a.tokens[id].accessTokenJti) ==
            Written(cfg, a, id, revoked == id)
  {
    assert RowSound(cfg, a, id) && RowSound(cfg, a, revoked);
  }

  lemma {:induction false} EntryAfterRevokeAll(cfg: Config, a: Auth, user: UserId, except: Option<TokenId>, id: TokenId)
    requires Sound(cfg, a) && id in a.tokens
    ensures EntryOf(RevokeAll(cfg, a, user, except).blacklist, a.tokens[id].accessTokenJti) ==
            Written(cfg, a, id, Selected(a, user, except, id))
  {
    assert RowSound(cfg, a, id);
  }

  /** What the blacklist has for a session. */
  ghost function EntryFor(a: Auth, id: TokenId): Option<int> {
    if id in a.tokens then EntryOf(a.blacklist, a.tokens[id].accessTokenJti) else None
  }

  /** A new session has no entry. */
  lemma {:induction false} NoEntryYet(cfg: Config, a: Auth, c: Call, id: TokenId)
    requires Sound(cfg, a) && id !in a.tokens
    ensures EntryFor(Step(cfg, a, c).0, id) == None
  {
    var a' := Step(cfg, a, c).0;
    StepKeeps(cfg, a, c);
    if id in a'.tokens {
      assert RowSound(cfg, a', id) && a'.tokens[id].isActive;
    }
  }

  /** After every run, a session has the entry of its last revocation that wrote one, or the one it had before. */
  lemma {:induction false} EntryIsLastWrite(cfg: Config, a: Auth, calls: seq<Call>, id: TokenId)
    requires Sound(cfg, a) && id in Run(cfg, a, calls).tokens
    ensures var a', last := Run(cfg, a, calls), LastWrite(cfg, a, calls, id);
            && EntryFor(a', id) ==
               (if last.Some? then Some(last.value + 1000 * RemainingTtl(cfg, a'.tokens[id].createdAt, last.value))
                else EntryFor(a, id))
            && (last.Some? ==> RemainingTtl(cfg, a'.tokens[id].createdAt, last.value) > 0)
            && (id in a.tokens ==> a'.tokens[id] == a.tokens[id].(isActive := a'.tokens[id].isActive))
    decreases |calls|
  {
    if calls != [] {
      var a1 := Step(cfg, a, calls[0]).0;
      StepKeeps(cfg, a, calls[0]);
      EntryIsLastWrite(cfg, a1, calls[1..], id);
      if id in a.tokens {
        EntryStep(cfg, a, calls[0], id);
      } else {
        NoEntryYet(cfg, a, calls[0], id);
      }
    }
  }

  /** Once a session is inactive, only revoking this very session again touches its entry. */
  lemma {:induction false} OnlyRevokedAgain(cfg: Config, a: Auth, calls: seq<Call>, id: TokenId)
    requires Sound(cfg, a) && id in a.tokens && !a.tokens[id].isActive
    requires forall i | 0 <= i < |calls| :: !(calls[i].CallRevoke? && calls[i].session == id)
    ensures id in Run(cfg, a, calls).tokens && EntryFor(Run(cfg, a, calls), id) == EntryFor(a, id)
    decreases |calls|
  {
    if calls != [] {
      StepKeeps(cfg, a, calls[0]);
      EntryStep(cfg, a, calls[0], id);
      assert forall i | 0 <= i < |calls[1..]| :: calls[1..][i] == calls[i + 1];
      OnlyRevokedAgain(cfg, Step(cfg, a, calls[0]).0, calls[1..], id);
    }
  }

  // ---------- Over runs ----------

  /** The guard accepts the token at some instant from one to another. */
  ghost predicate AcceptedBetween(blacklist: map<Jti, int>, t: Jwt, from: int, to: int) {
    exists now | from <= now <= to :: Accepts(blacklist, t, now)
  }

  /**
   The guard accepts the token at some instant of the run, or afterwards if nothing more is called. The blacklist a step
   leaves is in force from the instant of the step until the clock shows the next.
   */
  ghost predicate EverAccepted(cfg: Config, a: Auth, calls: seq<Call>, t: Jwt)
    decreases |calls|
  {
    if calls == [] then !NeverAccepted(a.blacklist, t, a.now)
    else
      var a1 := Step(cfg, a, calls[0]).0;
      || Accepts(a.blacklist, t, a.now)
      || AcceptedBetween(a1.blacklist, t, a.now, a1.now)
      || EverAccepted(cfg, a1, calls[1..], t)
  }

  /** The session's entry outlives its token. */
  ghost predicate Outlives(a: Auth, id: TokenId, t: Jwt) {
    EntryFor(a, id).Some? && EntryFor(a, id).value >= 1000 * t.exp
  }

  /** Time never runs backwards, and a row's access token stays as issued. */
  lemma {:induction false} InactiveStep(cfg: Config, a: Auth, c: Call, id: TokenId)
    requires Sound(cfg, a) && id in a.tokens && !a.tokens[id].isActive
    ensures var a' := Step(cfg, a, c).0;
            && Sound(cfg, a') && a.now <= a'.now
            && id in a'.tokens && a'.tokens[id] == a.tokens[id]
            && a.tokens[id].accessTokenJti in a.issued && a.tokens[id].accessTokenJti in a'.issued
            && AccessOf(a', id) == AccessOf(a, id)
            && (EntryFor(a', id) == EntryFor(a, id) || a.now <= LifeEnd(cfg, a.tokens[id]) - 1000)
  {
    StepKeeps(cfg, a, c);
    EntryStep(cfg, a, c, id);
    TtlWindow(cfg, a.tokens[id].createdAt, a.now);
  }

  /** In the last second of a token's life its session's entry is final. */
  lemma {:induction false} EntryFinal(cfg: Config, a: Auth, calls: seq<Call>, id: TokenId)
    requires Sound(cfg, a) && id in a.tokens && !a.tokens[id].isActive && a.now > LifeEnd(cfg, a.tokens[id]) - 1000
    ensures EntryFor(Run(cfg, a, calls), id) == EntryFor(a, id)
    decreases |calls|
  {
    if calls != [] {
      InactiveStep(cfg, a, calls[0], id);
      EntryFinal(cfg, Step(cfg, a, calls[0]).0, calls[1..], id);
    }
  }

  /** A session that has an entry keeps one, and it ends in the last second before the end of life. */
  lemma {:induction false} EntryLate(cfg: Config, a: Auth, calls: seq<Call>, id: TokenId)
    requires Sound(cfg, a) && id in a.tokens && EntryFor(a, id).Some?
    ensures EntryFor(Run(cfg, a, calls), id).Some?
    ensures EntryFor(Run(cfg, a, calls), id).value > LifeEnd(cfg, a.tokens[id]) - 1000
  {
    RunKeeps(cfg, a, calls);
    RowsRemain(cfg, a, calls, id);
    EntryIsLastWrite(cfg, a, calls, id);
    assert RowSound(cfg, Run(cfg, a, calls), id);
  }

  lemma {:induction false} RowsRemain(cfg: Config, a: Auth, calls: seq<Call>, id: TokenId)
    requires Sound(cfg, a) && id in a.tokens
    ensures id in Run(cfg, a, calls).tokens
    decreases |calls|
  {
    if calls != [] {
      StepKeeps(cfg, a, calls[0]);
      EntryStep(cfg, a, calls[0], id);
      RowsRemain(cfg, Step(cfg, a, calls[0]).0, calls[1..], id);
    }
  }

  /**
   Once a session is inactive, its token is never accepted exactly when it has expired or the last entry outlives it.
   */
  lemma {:induction false} ShutOutMeans(cfg: Config, a: Auth, calls: seq<Call>, id: TokenId)
    requires Sound(cfg, a) && id in a.tokens && !a.tokens[id].isActive
    ensures a.tokens[id].accessTokenJti in a.issued
    ensures var t := AccessOf(a, id);
            !EverAccepted(cfg, a, calls, t) <==> a.now >= 1000 * t.exp || Outlives(Run(cfg, a, calls), id, t)
    decreases |calls|
  {
    assert RowSound(cfg, a, id);
    var t := AccessOf(a, id);
    if calls == [] {
      FrozenBlacklist(a.blacklist, t, a.now);
    } else {
      var a1 := Step(cfg, a, calls[0]).0;
      InactiveStep(cfg, a, calls[0], id);
      ShutOutMeans(cfg, a1, calls[1..], id);
      FirstStep(cfg, a, calls, id);
    }
  }

  /** What the first step of a run adds to ShutOutMeans. */
  lemma {:induction false} FirstStep(cfg: Config, a: Auth, calls: seq<Call>, id: TokenId)
    requires Sound(cfg, a) && id in a.tokens && !a.tokens[id].isActive && a.tokens[id].accessTokenJti in a.issued
    requires calls != []
    ensures var a1, t, b := Step(cfg, a, calls[0]).0, AccessOf(a, id), Run(cfg, a, calls);
            && (a.now >= 1000 * t.exp || Outlives(b, id, t) ==>
                  !Accepts(a.blacklist, t, a.now) && !AcceptedBetween(a1.blacklist, t, a.now, a1.now))
            && (a.now < 1000 * t.exp <= a1.now && !Outlives(b, id, t) ==>
                  AcceptedBetween(a1.blacklist, t, a.now, a1.now))
  {
    var a1, t, end := Step(cfg, a, calls[0]).0, AccessOf(a, id), LifeEnd(cfg, a.tokens[id]);
    InactiveStep(cfg, a, calls[0], id);
    assert RowSound(cfg, a, id) && RowSound(cfg, a1, id);
    if a.now > end - 1000 {
      EntryFinal(cfg, a, calls, id);
    }
    if a1.now > end - 1000 {
      EntryFinal(cfg, a1, calls[1..], id);
    }
    if a.now < 1000 * t.exp <= end - 1000 {
      EntryLate(cfg, a, calls, id);
    }
    var gap := if EntryFor(a1, id).Some? && EntryFor(a1, id).value > a.now then EntryFor(a1, id).value else a.now;
    if a.now < 1000 * t.exp <= a1.now && !Outlives(Run(cfg, a, calls), id, t) {
      assert Accepts(a1.blacklist, t, gap);
    }
  }

  lemma {:induction false} RunAppend(cfg: Config, a: Auth, calls: seq<Call>, more: seq<Call>)
    ensures Run(cfg, a, calls + more) == Run(cfg, Run(cfg, a, calls), more)
    decreases |calls|
  {
    if calls == [] {
      assert calls + more == more;
    } else {
      assert (calls + more)[1..] == calls[1..] + more;
      RunAppend(cfg, Step(cfg, a, calls[0]).0, calls[1..], more);
    }
  }

  /**
   Over every run: from any point at which a session is inactive, however the run goes on, the guard never again accepts
   its access token exactly when the token has expired by then, or the last revocation of the session in the whole run
   that wrote an entry was on the second. A later revocation can undo what an earlier one achieved, and repair it.
   */
  lemma {:induction false} ShutsOutExactlyWhen(cfg: Config, start: int, calls: seq<Call>, more: seq<Call>, id: TokenId)
    requires var a := Run(cfg, Empty(start), calls); id in a.tokens && !a.tokens[id].isActive
    ensures var a := Run(cfg, Empty(start), calls);
            && a.tokens[id].accessTokenJti in a.issued
            && var t, last := AccessOf(a, id), LastWrite(cfg, Empty(start), calls + more, id);
               !EverAccepted(cfg, a, more, t) <==>
                 a.now >= 1000 * t.exp || (last.Some? && OnTheSecond(cfg, a.tokens[id], t.exp, last.value))
  {
    var a := Run(cfg, Empty(start), calls);
    RunKeeps(cfg, Empty(start), calls);
    RunAppend(cfg, Empty(start), calls, more);
    RowsRemain(cfg, a, more, id);
    EntryIsLastWrite(cfg, a, more, id);
    EntryIsLastWrite(cfg, Empty(start), calls + more, id);
    ShutOutMeans(cfg, a, more, id);
    var last := LastWrite(cfg, Empty(start), calls + more, id);
    if last.Some? {
      EntryReachesExpiry(cfg, a.tokens[id], AccessOf(a, id).exp, last.value);
    }
  }

  // ---------- Gaps ----------

  /** The bound is tight: whatever the token's life, a session revoked one millisecond in can leave a gap of 999 ms. */
  lemma {:induction false} GapCanBe999(cfg: Config, ids: Ids, user: UserId)
    requires cfg.accessTtl >= 1
    ensures var calls := [CallSignIn(user, Verified, ids, 0), Tick(1), CallRevoke(ids.refresh, user),
                          Tick(1000 * cfg.accessTtl - 1000)];
            var a := Run(cfg, Empty(0), calls);
            && ids.refresh in a.tokens && ids.access in a.issued
            && a.tokens[ids.refresh].accessTokenJti == ids.access && !a.tokens[ids.refresh].isActive
            && var t := AccessOf(a, ids.refresh);
               Accepts(a.blacklist, t, a.now) && 1000 * t.exp - a.now == 999
  {
    var calls := [CallSignIn(user, Verified, ids, 0), Tick(1), CallRevoke(ids.refresh, user),
                  Tick(1000 * cfg.accessTtl - 1000)];
    var a1 := Step(cfg, Empty(0), calls[0]).0;
    var a2 := Step(cfg, a1, calls[1]).0;
    var a3 := Step(cfg, a2, calls[2]).0;
    var a4 := Step(cfg, a3, calls[3]).0;
    assert Run(cfg, Empty(0), calls) == Run(cfg, a1, calls[1..]);
    assert Run(cfg, a1, calls[1..]) == Run(cfg, a2, calls[1..][1..]);
    assert Run(cfg, a2, calls[2..]) == Run(cfg, a3, calls[2..][1..]);
    assert Run(cfg, a3, calls[3..]) == Run(cfg, a4, calls[3..][1..]) == a4;
    assert calls[1..][1..] == calls[2..] && calls[2..][1..] == calls[3..];
    assert RemainingTtl(cfg, 0, 1) == cfg.accessTtl - 1;
  }

  /**
   Revoking twice can be worse than revoking once. The first revocation, at the instant of signing in, would have shut
   the token out for good; the second, a millisecond later, shortens the entry and leaves a gap of 999 ms.
   */
  lemma {:induction false} SecondRevocationReopens(cfg: Config, ids: Ids, user: UserId)
    requires cfg.accessTtl >= 2
    ensures var a := Run(cfg, Empty(0), [CallSignIn(user, Verified, ids, 0), CallRevoke(ids.refresh, user)]);
            var b := Run(cfg, a, [Tick(1), CallRevoke(ids.refresh, user), Tick(1000 * cfg.accessTtl - 1000)]);
            && ids.refresh in a.tokens && a.tokens[ids.refresh].accessTokenJti in a.issued
            && var t := AccessOf(a, ids.refresh);
               && NeverAccepted(a.blacklist, t, a.now)
               && Accepts(b.blacklist, t, b.now) && 1000 * t.exp - b.now == 999
  {
    var signIn, revoke := CallSignIn(user, Verified, ids, 0), CallRevoke(ids.refresh, user);
    RunTwo(cfg, Empty(0), signIn, revoke, []);
    assert [signIn, revoke] + [] == [signIn, revoke];
    var a := RevokedAtOnce(cfg, ids, user);
    RevokedAgain(cfg, ids, user, a);
  }

  /** A session revoked at the instant of signing in. */
  lemma {:induction false} RevokedAtOnce(cfg: Config, ids: Ids, user: UserId) returns (a: Auth)
    requires cfg.accessTtl >= 2
    ensures a == Step(cfg, Step(cfg, Empty(0), CallSignIn(user, Verified, ids, 0)).0, CallRevoke(ids.refresh, user)).0
    ensures ids.refresh in a.tokens && ids.access in a.issued && a.now == 0
    ensures a.tokens[ids.refresh] == TokenRow(ids.access, cfg.refreshTtl * 1000, 0, false, user)
    ensures AccessOf(a, ids.refresh) == Jwt(user, ids.access, cfg.accessTtl)
    ensures NeverAccepted(a.blacklist, AccessOf(a, ids.refresh), 0)
  {
    a := Step(cfg, Step(cfg, Empty(0), CallSignIn(user, Verified, ids, 0)).0, CallRevoke(ids.refresh, user)).0;
    assert RemainingTtl(cfg, 0, 0) == cfg.accessTtl;
    FrozenBlacklist(a.blacklist, AccessOf(a, ids.refresh), 0);
  }

  /** The same session revoked again a millisecond later. */
  lemma {:induction false} RevokedAgain(cfg: Config, ids: Ids, user: UserId, a: Auth)
    requires cfg.accessTtl >= 2 && a.now == 0 && ids.refresh in a.tokens
    requires a.tokens[ids.refresh] == TokenRow(ids.access, cfg.refreshTtl * 1000, 0, false, user)
    ensures var b := Run(cfg, a, [Tick(1), CallRevoke(ids.refresh, user), Tick(1000 * cfg.accessTtl - 1000)]);
            Accepts(b.blacklist, Jwt(user, ids.access, cfg.accessTtl), b.now) && b.now == 1000 * cfg.accessTtl - 999
  {
    var revoke, last := CallRevoke(ids.refresh, user), Tick(1000 * cfg.accessTtl - 1000);
    RunTwo(cfg, a, Tick(1), revoke, [last]);
    assert [Tick(1), revoke] + [last] == [Tick(1), revoke, last];
    var b2 := Step(cfg, Step(cfg, a, Tick(1)).0, revoke).0;
    assert Run(cfg, b2, [last]) == Step(cfg, b2, last).0;
    assert RemainingTtl(cfg, 0, 1) == cfg.accessTtl - 1;
  }

  lemma {:induction false} RunTwo(cfg: Config, a: Auth, c: Call, d: Call, rest: seq<Call>)
    ensures Run(cfg, a, [c, d] + rest) == Run(cfg, Step(cfg, Step(cfg, a, c).0, d).0, rest)
  {
    assert ([c, d] + rest)[1..] == [d] + rest;
    assert ([d] + rest)[1..] == rest;
  }
}
