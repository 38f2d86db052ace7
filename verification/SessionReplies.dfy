/** What clients of the auth service and of the guard are answered, in terms of rows, calls and the clock. */
module SessionReplies {
  import opened Basics
  import opened Sessions
  import opened SessionTheory
  import opened SessionRevocation

  // ---------- Signing in ----------

  /** A pair is issued, and anything changes at all, exactly for a verified login; the others are told apart. */
  lemma {:induction false} SignInAnswer(cfg: Config, a: Auth, user: UserId, login: Login, ids: Ids, lag: nat)
    requires FreshIds(a, ids)
    ensures var (a', reply) := SignIn(cfg, a, user, login, ids, lag);
            && (reply.Issued? <==> login == Verified)
            && (reply == Refused(UserNotFound) <==> login == UnknownNickname)
            && (reply == Refused(BadCredentials) <==> login == WrongPassword)
            && (a' == a <==> login != Verified)
    ensures var (a', reply) := ChangePassword(cfg, a, user, login, ids, lag);
            && (reply.Issued? <==> login == Verified)
            && (reply == Refused(UserNotFound) <==> login == UnknownNickname)
            && (reply == Refused(BadCredentials) <==> login == WrongPassword)
            && (a' == a <==> login != Verified)
  {
    assert ids.refresh in IssueTokens(cfg, a, user, ids, lag, None).0.tokens;
    assert ids.refresh in IssueTokens(cfg, RevokeAll(cfg, a, user, None), user, ids, lag, None).0.tokens;
  }

  // ---------- Presenting a refresh token ----------

  /** Why any presented refresh token is turned down: its expiry first, then its row, then whether that is active. */
  ghost predicate AnsweredFor(a: Auth, t: Jwt, a': Auth, reply: Reply) {
    if a.now >= 1000 * t.exp then reply == Refused(InvalidToken) && a' == a
    else if t.jti !in a.tokens then reply == Refused(TokenNotFound) && a' == a
    else if !a.tokens[t.jti].isActive then reply == Refused(AlreadyRevoked) && a' == a
    else !reply.Refused? && t.jti in a'.tokens && !a'.tokens[t.jti].isActive
  }

  /** Logging out and refreshing answer alike; what they do when they go through deactivates the presented session. */
  lemma {:induction false} PresentedAnswer(cfg: Config, a: Auth, t: Jwt, ids: Ids, lag: nat)
    requires FreshIds(a, ids)
    ensures var (a', reply) := LogOut(cfg, a, t); AnsweredFor(a, t, a', reply) && !reply.Issued?
    ensures var (a', reply) := Refresh(cfg, a, t, ids, lag); AnsweredFor(a, t, a', reply) && !reply.Done?
  {
  }

  /** The holder of a session's refresh token can log out or refresh exactly while the row is active and unexpired. */
  lemma {:induction false} HolderAnswer(cfg: Config, a: Auth, id: TokenId, ids: Ids, lag: nat)
    requires id in a.tokens && FreshIds(a, ids)
    ensures var good := a.tokens[id].isActive && a.now < 1000 * (a.tokens[id].expiresAt / 1000);
            && (Refresh(cfg, a, RefreshOf(a, id), ids, lag).1.Issued? <==> good)
            && (LogOut(cfg, a, RefreshOf(a, id)).1.Done? <==> good)
  {
    PresentedAnswer(cfg, a, RefreshOf(a, id), ids, lag);
  }

  /** Some call of the run revoked the session. */
  ghost predicate RevokedIn(cfg: Config, a: Auth, calls: seq<Call>, id: TokenId)
    decreases |calls|
  {
    calls != [] && (Revokes(cfg, a, calls[0], id) || RevokedIn(cfg, Step(cfg, a, calls[0]).0, calls[1..], id))
  }

  /** A row keeps everything but its activity, and that until some call revokes it. */
  lemma {:induction false} ActiveUntilRevoked(cfg: Config, a: Auth, calls: seq<Call>, id: TokenId)
    requires Sound(cfg, a) && id in a.tokens
    ensures var a' := Run(cfg, a, calls);
            && id in a'.tokens
            && a'.tokens[id] == a.tokens[id].(isActive := a.tokens[id].isActive && !RevokedIn(cfg, a, calls, id))
            && a.tokens[id].accessTokenJti in a.issued && a.tokens[id].accessTokenJti in a'.issued
            && a'.issued[a.tokens[id].accessTokenJti] == a.issued[a.tokens[id].accessTokenJti]
    decreases |calls|
  {
    RowStepOrNone(cfg, a, calls, id);
    if calls != [] {
      StepKeeps(cfg, a, calls[0]);
      ActiveUntilRevoked(cfg, Step(cfg, a, calls[0]).0, calls[1..], id);
    }
  }

  lemma {:induction false} RowStepOrNone(cfg: Config, a: Auth, calls: seq<Call>, id: TokenId)
    requires Sound(cfg, a) && id in a.tokens
    ensures a.tokens[id].accessTokenJti in a.issued
    ensures calls != [] ==>
              var a1 := Step(cfg, a, calls[0]).0;
              && id in a1.tokens
              && a1.tokens[id] == a.tokens[id].(isActive := a.tokens[id].isActive && !Revokes(cfg, a, calls[0], id))
              && a.tokens[id].accessTokenJti in a1.issued
              && a1.issued[a.tokens[id].accessTokenJti] == a.issued[a.tokens[id].accessTokenJti]
  {
    assert RowSound(cfg, a, id);
    if calls != [] {
      RowStep(cfg, a, calls[0], id);
    }
  }

  /**
   The life of a pair, told from the calls: handed out for a verified login, and until some call revokes the session,
   the access token passes the guard for accessTtl seconds, and the refresh token refreshes and logs out for refreshTtl
   seconds, both counted from the whole second of the signing. A revoked session never refreshes or logs out again.
   */
  lemma {:induction false} LifeOfAPair(cfg: Config, a: Auth, user: UserId, ids: Ids, lag: nat, calls: seq<Call>,
                                       next: Ids, nextLag: nat)
    requires Sound(cfg, a) && FreshIds(a, ids)
    requires FreshIds(Run(cfg, SignIn(cfg, a, user, Verified, ids, lag).0, calls), next)
    ensures var (a1, pair) := SignIn(cfg, a, user, Verified, ids, lag);
            var a2, revoked := Run(cfg, a1, calls), RevokedIn(cfg, a1, calls, ids.refresh);
            && pair.Issued? && pair.access.sub == pair.refresh.sub == user
            && (!revoked ==> (Accepts(a2.blacklist, pair.access, a2.now) <==>
                                a2.now < 1000 * (a.now / 1000 + cfg.accessTtl)))
            && (Refresh(cfg, a2, pair.refresh, next, nextLag).1.Issued? <==>
                  !revoked && a2.now < 1000 * (a.now / 1000 + cfg.refreshTtl))
            && (LogOut(cfg, a2, pair.refresh).1.Done? <==>
                  !revoked && a2.now < 1000 * (a.now / 1000 + cfg.refreshTtl))
  {
    var (a1, pair) := SignIn(cfg, a, user, Verified, ids, lag);
    var a2 := Run(cfg, a1, calls);
    IssueKeeps(cfg, a, user, ids, lag, None);
    ActiveUntilRevoked(cfg, a1, calls, ids.refresh);
    RunKeeps(cfg, a1, calls);
    assert RowSound(cfg, a2, ids.refresh);
    PresentedAnswer(cfg, a2, pair.refresh, next, nextLag);
  }

  // ---------- Single revocation ----------

  /** A user can revoke a session, active or not, exactly when the row is the user's; a refusal changes nothing. */
  lemma {:induction false} RevokeAnswer(cfg: Config, a: Auth, session: TokenId, user: UserId)
    ensures var (a', reply) := RevokeSession(cfg, a, session, user);
            if session in a.tokens && a.tokens[session].userId == user then
              reply == Done && a'.tokens == a.tokens[session := a.tokens[session].(isActive := false)]
            else reply == Refused(SessionNotFound) && a' == a
  {
  }

  // ---------- The guard ----------

  /**
   The guard lets a request through exactly on a public route, or with a bearer token that has not expired and has no
   live blacklist entry; a protected request then carries that very token's claims. Otherwise it says what was missing.
   */
  lemma {:induction false} GuardAnswer(blacklist: map<Jti, int>, now: int, isPublic: bool, h: Header)
    ensures var answer := CanActivate(blacklist, now, isPublic, h);
            var good := h.Bearer? && now < 1000 * h.token.exp
                        && !(h.token.jti in blacklist && now < blacklist[h.token.jti]);
            && (answer.Ok? <==> isPublic || good)
            && (answer.Ok? ==> answer.value == if isPublic then None else Some(h.token))
            && (answer == Err(NoToken) <==> !isPublic && h.NoHeader?)
            && (answer == Err(BadToken) <==>
                  !isPublic && (h.Garbled? || (h.Bearer? && now >= 1000 * h.token.exp)))
  {
  }
}
