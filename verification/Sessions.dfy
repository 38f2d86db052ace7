/**
 Sessions as a state machine: refresh-token rows that rotate and are revoked, and a blacklist of access-token ids with
 computed expiries, over a clock in milliseconds. Token times are whole seconds, as in sections 4.1.4 and 4.1.6 of
 RFC 7519: signing and verifying floor the clock.
 */
module Sessions {
  import opened Basics

  type UserId = string
  type TokenId = string
  type Jti = string

  /** Lifetimes in seconds. */
  datatype Config = Config(accessTtl: int, refreshTtl: int)

  /** The claims of a signed token; an authentic signature is taken for granted. */
  datatype Jwt = Jwt(sub: UserId, jti: string, exp: int)

  datatype TokenRow = TokenRow(
    accessTokenJti: Jti, expiresAt: int, createdAt: int, isActive: bool, userId: UserId)

  /** History of an access token: when it expires, and the session row it was issued with. */
  datatype Access = Access(exp: int, session: TokenId)

  /**
   `tokens` is the database table and `blacklist` the Redis keys with their expiry instants. `issued` and `chain` are
   history: all access tokens ever issued, and for each row the first row of the chain of refreshes it belongs to.
   */
  datatype Auth = Auth(
    now: int,
    tokens: map<TokenId, TokenRow>,
    blacklist: map<Jti, int>,
    issued: map<Jti, Access>,
    chain: map<TokenId, TokenId>)

  datatype AuthError =
    | UserNotFound | BadCredentials | InvalidToken | TokenNotFound | AlreadyRevoked | SessionNotFound | IdCollision

  datatype Reply = Issued(access: Jwt, refresh: Jwt) | Done | Refused(error: AuthError)

  /** What looking up a nickname and comparing the password come to; the lookup throws for an unknown nickname. */
  datatype Login = UnknownNickname | WrongPassword | Verified

  /** The two ids drawn for a new token pair. */
  datatype Ids = Ids(access: Jti, refresh: TokenId)

  function Sign(sub: UserId, jti: string, now: int, ttl: int): Jwt {
    Jwt(sub, jti, now / 1000 + ttl)
  }

  predicate Verifies(t: Jwt, now: int) {
    now / 1000 < t.exp
  }

  predicate FreshIds(a: Auth, ids: Ids) {
    ids.access !in a.issued && ids.refresh !in a.tokens
  }

  /** Seconds the access token of a session may still live, counted from the row's creation. */
  function RemainingTtl(cfg: Config, createdAt: int, now: int): nat {
    var left := (createdAt + cfg.accessTtl * 1000 - now) / 1000;
    if left > 0 then left else 0
  }

  /** SET blacklist:jti with EX ttl, only for a positive ttl. */
  function Blacklisted(cfg: Config, blacklist: map<Jti, int>, row: TokenRow, now: int): map<Jti, int> {
    var ttl := RemainingTtl(cfg, row.createdAt, now);
    if ttl > 0 then blacklist[row.accessTokenJti := now + 1000 * ttl] else blacklist
  }

  /**
   Signs the pair and stores the row; the row is created `lag` milliseconds after the signing. A refresh passes the
   chain on, anything else starts one.
   */
  function IssueTokens(cfg: Config, a: Auth, user: UserId, ids: Ids, lag: nat, root: Option<TokenId>): (Auth, Reply) {
    var access := Sign(user, ids.access, a.now, cfg.accessTtl);
    var refresh := Sign(user, ids.refresh, a.now, cfg.refreshTtl);
    var created := a.now + lag;
    (a.(now := created,
        tokens := a.tokens[ids.refresh := TokenRow(ids.access, a.now + cfg.refreshTtl * 1000, created, true, user)],
        issued := a.issued[ids.access := Access(access.exp, ids.refresh)],
        chain := a.chain[ids.refresh := if root.Some? then root.value else ids.refresh]),
     Issued(access, refresh))
  }

  /** Deactivates one row and blacklists its access token. */
  function Revoke(cfg: Config, a: Auth, id: TokenId): Auth
    requires id in a.tokens
  {
    var row := a.tokens[id];
    a.(tokens := a.tokens[id := row.(isActive := false)], blacklist := Blacklisted(cfg, a.blacklist, row, a.now))
  }

  /** Why a presented refresh token is turned down, if it is. */
  function Rejection(a: Auth, t: Jwt): Option<AuthError> {
    if !Verifies(t, a.now) then Some(InvalidToken)
    else if t.jti !in a.tokens then Some(TokenNotFound)
    else if !a.tokens[t.jti].isActive then Some(AlreadyRevoked)
    else None
  }

  function SignIn(cfg: Config, a: Auth, user: UserId, login: Login, ids: Ids, lag: nat): (Auth, Reply) {
    match login
    case UnknownNickname => (a, Refused(UserNotFound))
    case WrongPassword => (a, Refused(BadCredentials))
    case Verified => IssueTokens(cfg, a, user, ids, lag, None)
  }

  function LogOut(cfg: Config, a: Auth, t: Jwt): (Auth, Reply) {
    var no := Rejection(a, t);
    if no.Some? then (a, Refused(no.value)) else (Revoke(cfg, a, t.jti), Done)
  }

  /** The first row of the chain a row belongs to. */
  function RootOf(a: Auth, id: TokenId): TokenId {
    if id in a.chain then a.chain[id] else id
  }

  function Refresh(cfg: Config, a: Auth, t: Jwt, ids: Ids, lag: nat): (Auth, Reply) {
    var no := Rejection(a, t);
    if no.Some? then (a, Refused(no.value))
    else IssueTokens(cfg, Revoke(cfg, a, t.jti), a.tokens[t.jti].userId, ids, lag, Some(RootOf(a, t.jti)))
  }

  /** A session may be revoked again; it only has to belong to the user. */
  function RevokeSession(cfg: Config, a: Auth, session: TokenId, user: UserId): (Auth, Reply) {
    if session !in a.tokens || a.tokens[session].userId != user then (a, Refused(SessionNotFound))
    else (Revoke(cfg, a, session), Done)
  }

  /** The rows a bulk revocation selects; an empty `except` counts as none. */
  predicate Selected(a: Auth, user: UserId, except: Option<TokenId>, id: TokenId) {
    && id in a.tokens
    && a.tokens[id].userId == user
    && a.tokens[id].isActive
    && (except.Some? && except.value != "" ==> id != except.value)
  }

  /** The blacklist entries a bulk revocation writes. */
  predicate Blacklists(cfg: Config, a: Auth, user: UserId, except: Option<TokenId>, j: Jti) {
    && j in a.issued
    && Selected(a, user, except, a.issued[j].session)
    && a.tokens[a.issued[j].session].accessTokenJti == j
    && RemainingTtl(cfg, a.tokens[a.issued[j].session].createdAt, a.now) > 0
  }

  function RevokeAll(cfg: Config, a: Auth, user: UserId, except: Option<TokenId>): Auth {
    a.(tokens := map id | id in a.tokens ::
         if Selected(a, user, except, id) then a.tokens[id].(isActive := false) else a.tokens[id],
       blacklist := map j | j in a.blacklist.Keys + a.issued.Keys
                            && (j in a.blacklist || Blacklists(cfg, a, user, except, j)) ::
         if Blacklists(cfg, a, user, except, j)
         then a.now + 1000 * RemainingTtl(cfg, a.tokens[a.issued[j].session].createdAt, a.now)
         else a.blacklist[j])
  }

  function ChangePassword(cfg: Config, a: Auth, user: UserId, login: Login, ids: Ids, lag: nat): (Auth, Reply) {
    match login
    case UnknownNickname => (a, Refused(UserNotFound))
    case WrongPassword => (a, Refused(BadCredentials))
    case Verified => IssueTokens(cfg, RevokeAll(cfg, a, user, None), user, ids, lag, None)
  }

  // ---------- The guard ----------

  datatype Header = NoHeader | Garbled | Bearer(token: Jwt)

  datatype GuardError = NoToken | BadToken | Revoked

  /** A blacklist key answers until its expiry. */
  predicate OnBlacklist(blacklist: map<Jti, int>, j: Jti, now: int) {
    j in blacklist && now < blacklist[j]
  }

  /** canActivate: the payload put on the request, if any, or why the request is turned down. */
  function CanActivate(blacklist: map<Jti, int>, now: int, isPublic: bool, h: Header): Result<Option<Jwt>, GuardError> {
    if isPublic then Ok(None)
    else match h
         case NoHeader => Err(NoToken)
         case Garbled => Err(BadToken)
         case Bearer(t) =>
           if !Verifies(t, now) then Err(BadToken)
           else if OnBlacklist(blacklist, t.jti, now) then Err(Revoked)
           else Ok(Some(t))
  }

  /** The guard lets a protected request with this token through: it does not turn it down. */
  predicate Accepts(blacklist: map<Jti, int>, t: Jwt, now: int) {
    CanActivate(blacklist, now, false, Bearer(t)).Ok?
  }

  // ---------- Runs ----------

  datatype Call =
    | CallSignIn(user: UserId, login: Login, ids: Ids, lag: nat)
    | CallLogOut(token: Jwt)
    | CallRefresh(token: Jwt, ids: Ids, lag: nat)
    | CallRevoke(session: TokenId, user: UserId)
    | CallRevokeAll(user: UserId, except: Option<TokenId>)
    | CallChangePassword(user: UserId, login: Login, ids: Ids, lag: nat)
    | Tick(ms: nat)

  /**
   Drawn ids are taken to be fresh: a call whose ids are not is no step of a run. Sign-up and Google are sign-ins
   here.
   */
  function Step(cfg: Config, a: Auth, c: Call): (Auth, Reply) {
    if (c.CallSignIn? || c.CallRefresh? || c.CallChangePassword?) && !FreshIds(a, c.ids) then (a, Refused(IdCollision))
    else match c
         case CallSignIn(u, login, ids, lag) => SignIn(cfg, a, u, login, ids, lag)
         case CallLogOut(t) => LogOut(cfg, a, t)
         case CallRefresh(t, ids, lag) => Refresh(cfg, a, t, ids, lag)
         case CallRevoke(s, u) => RevokeSession(cfg, a, s, u)
         case CallRevokeAll(u, ex) => (RevokeAll(cfg, a, u, ex), Done)
         case CallChangePassword(u, login, ids, lag) => ChangePassword(cfg, a, u, login, ids, lag)
         case Tick(ms) => (a.(now := a.now + ms), Done)
  }

  function Run(cfg: Config, a: Auth, calls: seq<Call>): Auth
    decreases |calls|
  {
    if calls == [] then a else Run(cfg, Step(cfg, a, calls[0]).0, calls[1..])
  }
}
