/** Single use of refresh tokens, one active session per chain, and what bulk revocation leaves, over every run. */
module SessionChains {
  import opened Basics
  import opened Sessions
  import opened SessionTheory

  // ---------- Single use ----------

  /** The call successfully consumed the refresh token with this id. */
  ghost predicate Consumes(cfg: Config, a: Auth, c: Call, id: TokenId) {
    (c.CallLogOut? || c.CallRefresh?) && c.token.jti == id && !Step(cfg, a, c).1.Refused?
  }

  ghost function Uses(cfg: Config, a: Auth, calls: seq<Call>, id: TokenId): nat
    decreases |calls|
  {
    if calls == [] then 0
    else (if Consumes(cfg, a, calls[0], id) then 1 else 0) + Uses(cfg, Step(cfg, a, calls[0]).0, calls[1..], id)
  }

  ghost predicate Spent(a: Auth, id: TokenId) {
    id in a.tokens && !a.tokens[id].isActive
  }

  /** A spent token stays spent, and consuming a token spends it. */
  lemma {:induction false} SpentStep(cfg: Config, a: Auth, c: Call, id: TokenId)
    ensures Spent(a, id) ==> Spent(Step(cfg, a, c).0, id) && !Consumes(cfg, a, c, id)
    ensures Consumes(cfg, a, c, id) ==> Spent(Step(cfg, a, c).0, id)
  {
  }

  /**
   Over a whole run a refresh token is consumed by at most one successful refresh or log-out, and by none once it is
   inactive; and an inactive row never becomes active again.
   */
  lemma {:induction false} SingleUse(cfg: Config, a: Auth, calls: seq<Call>, id: TokenId)
    ensures Uses(cfg, a, calls, id) <= 1
    ensures Spent(a, id) ==> Uses(cfg, a, calls, id) == 0 && Spent(Run(cfg, a, calls), id)
    decreases |calls|
  {
    if calls != [] {
      SpentStep(cfg, a, calls[0], id);
      SingleUse(cfg, Step(cfg, a, calls[0]).0, calls[1..], id);
    }
  }

  // ---------- Chains ----------

  ghost function ActiveOf(a: Auth, user: UserId): set<TokenId> {
    set id | id in a.tokens && a.tokens[id].isActive && a.tokens[id].userId == user
  }

  /** The chains of a user, by their first rows. */
  ghost function ChainsOf(a: Auth, user: UserId): set<TokenId> {
    set id | id in a.tokens && a.tokens[id].userId == user :: RootOf(a, id)
  }

  ghost predicate Ended(a: Auth, root: TokenId) {
    forall id | Active(a, id) :: RootOf(a, id) != root
  }

  ghost function EndedOf(a: Auth, user: UserId): set<TokenId> {
    set k | k in ChainsOf(a, user) && Ended(a, k)
  }

  /** The chains the user's active sessions belong to. */
  ghost function RunningOf(a: Auth, user: UserId): set<TokenId> {
    set id | id in ActiveOf(a, user) :: RootOf(a, id)
  }

  lemma {:induction false} RunningCount(a: Auth, user: UserId)
    requires ChainsSound(a)
    ensures |RunningOf(a, user)| == |ActiveOf(a, user)|
  {
    var roots := map id | id in ActiveOf(a, user) :: RootOf(a, id);
    forall x, y | x in roots && y in roots && roots[x] == roots[y] ensures x == y {
      assert Active(a, x) && Active(a, y);
    }
    InjectiveSize(roots);
    assert roots.Keys == ActiveOf(a, user);
    forall k | k in RunningOf(a, user) ensures k in roots.Values {
      var id :| id in ActiveOf(a, user) && RootOf(a, id) == k;
      assert roots[id] == k;
    }
    assert roots.Values == RunningOf(a, user);
  }

  /** A user's chain runs or has ended, never both. */
  lemma {:induction false} RunningOrEnded(cfg: Config, a: Auth, user: UserId)
    requires Sound(cfg, a)
    ensures RunningOf(a, user) == ChainsOf(a, user) - EndedOf(a, user)
  {
    var chains, ended, running := ChainsOf(a, user), EndedOf(a, user), RunningOf(a, user);
    forall k | k in chains - ended ensures k in running {
      var id :| Active(a, id) && RootOf(a, id) == k;
      RootUser(cfg, a, user, id, k);
      assert id in ActiveOf(a, user);
    }
    forall k | k in running ensures k in chains - ended {
      var id :| id in ActiveOf(a, user) && RootOf(a, id) == k;
      assert Active(a, id);
    }
  }

  /** Active sessions and running chains are in step: a user has as many of one as of the other. */
  lemma {:induction false} ActiveCount(cfg: Config, a: Auth, user: UserId)
    requires Sound(cfg, a)
    ensures |ActiveOf(a, user)| == |ChainsOf(a, user)| - |EndedOf(a, user)|
  {
    RunningCount(a, user);
    RunningOrEnded(cfg, a, user);
    assert ChainsOf(a, user) == RunningOf(a, user) + EndedOf(a, user);
  }

  /** A row whose chain is one of the user's is the user's. */
  lemma {:induction false} RootUser(cfg: Config, a: Auth, user: UserId, id: TokenId, root: TokenId)
    requires Sound(cfg, a) && id in a.tokens && RootOf(a, id) == root && root in ChainsOf(a, user)
    ensures a.tokens[id].userId == user
  {
    var id' :| id' in a.tokens && a.tokens[id'].userId == user && RootOf(a, id') == root;
    assert RootSound(a, id) && RootSound(a, id');
  }

  /** The call started a session chain for the user: a sign-in, or a password change. */
  ghost predicate Opens(cfg: Config, a: Auth, c: Call, user: UserId) {
    (c.CallSignIn? || c.CallChangePassword?) && c.user == user && Step(cfg, a, c).1.Issued?
  }

  ghost function Opened(cfg: Config, a: Auth, calls: seq<Call>, user: UserId): nat
    decreases |calls|
  {
    if calls == [] then 0
    else (if Opens(cfg, a, calls[0], user) then 1 else 0) + Opened(cfg, Step(cfg, a, calls[0]).0, calls[1..], user)
  }

  /** Rows never go, and never change their user or their chain; the first row of a chain is a row. */
  lemma {:induction false} RowsStay(cfg: Config, a: Auth, c: Call)
    requires Sound(cfg, a)
    ensures var a' := Step(cfg, a, c).0;
            && a.tokens.Keys <= a'.tokens.Keys
            && forall h | h in a.tokens :: a'.tokens[h].userId == a.tokens[h].userId && RootOf(a', h) == RootOf(a, h)
    ensures forall h | h in a.tokens :: RootOf(a, h) in a.tokens
  {
    forall h | h in a.tokens ensures RootOf(a, h) in a.tokens && h in a.chain {
      assert RootSound(a, h);
    }
  }

  /** Chains of a user after some rows have been kept and at most one has been added. */
  lemma {:induction false} ChainsGrow(a: Auth, a': Auth, user: UserId, id: TokenId)
    requires a.tokens.Keys <= a'.tokens.Keys <= a.tokens.Keys + {id}
    requires forall h | h in a.tokens :: a'.tokens[h].userId == a.tokens[h].userId && RootOf(a', h) == RootOf(a, h)
    ensures ChainsOf(a', user) ==
            ChainsOf(a, user) + if id in a'.tokens && a'.tokens[id].userId == user then {RootOf(a', id)} else {}
  {
    var chains, chains' := ChainsOf(a, user), ChainsOf(a', user);
    forall k | k in chains ensures k in chains' {
      var h :| h in a.tokens && a.tokens[h].userId == user && RootOf(a, h) == k;
      assert h in a'.tokens && RootOf(a', h) == k;
    }
    if id in a'.tokens && a'.tokens[id].userId == user {
      assert RootOf(a', id) in chains';
    }
  }

  /**
   The chains of a user grow by exactly one with a call that opens one, and otherwise, refreshes included, not at
   all.
   */
  lemma {:induction false} ChainsStep(cfg: Config, a: Auth, c: Call, user: UserId)
    requires Sound(cfg, a)
    ensures var chains, chains' := ChainsOf(a, user), ChainsOf(Step(cfg, a, c).0, user);
            if Opens(cfg, a, c, user) then c.ids.refresh !in chains && chains' == chains + {c.ids.refresh}
            else chains' == chains
  {
    if Opens(cfg, a, c, user) {
      OpeningAdds(cfg, a, c, user);
    }
    if Step(cfg, a, c).0.tokens.Keys == a.tokens.Keys {
      RowsStay(cfg, a, c);
      ChainsGrow(a, Step(cfg, a, c).0, user, "");
    } else {
      ChainsNew(cfg, a, c, user);
      OpensNew(cfg, a, c, user);
    }
  }

  /** A new row continues the chain of a row of its user, if there is one given, or starts a chain. */
  lemma {:induction false} ChainsJoin(a: Auth, a': Auth, user: UserId, id: TokenId, previous: Option<TokenId>)
    requires id !in a.tokens && a'.tokens.Keys == a.tokens.Keys + {id}
    requires forall h | h in a.tokens :: a'.tokens[h].userId == a.tokens[h].userId && RootOf(a', h) == RootOf(a, h)
    requires match previous
             case None => RootOf(a', id) == id
             case Some(h) =>
               h in a.tokens && a'.tokens[id].userId == a.tokens[h].userId && RootOf(a', id) == RootOf(a, h)
    ensures ChainsOf(a', user) ==
            ChainsOf(a, user) + if previous == None && a'.tokens[id].userId == user then {id} else {}
  {
    ChainsGrow(a, a', user, id);
    if previous.Some? && a'.tokens[id].userId == user {
      assert RootOf(a, previous.value) in ChainsOf(a, user);
    }
  }

  /** A step that adds a row adds the drawn one; the user's chains grow unless the step is a refresh. */
  lemma {:induction false} ChainsNew(cfg: Config, a: Auth, c: Call, user: UserId)
    requires Sound(cfg, a) && Step(cfg, a, c).0.tokens.Keys != a.tokens.Keys
    ensures c.CallSignIn? || c.CallRefresh? || c.CallChangePassword?
    ensures ChainsOf(Step(cfg, a, c).0, user) ==
            ChainsOf(a, user) + if !c.CallRefresh? && c.user == user then {c.ids.refresh} else {}
  {
    NewRow(cfg, a, c, user);
    RowsStay(cfg, a, c);
    ChainsJoin(a, Step(cfg, a, c).0, user, c.ids.refresh, if c.CallRefresh? then Some(c.token.jti) else None);
  }

  /** The drawn row is the first of no chain so far, and opens one unless the call is a refresh. */
  lemma {:induction false} OpensNew(cfg: Config, a: Auth, c: Call, user: UserId)
    requires Sound(cfg, a) && Step(cfg, a, c).0.tokens.Keys != a.tokens.Keys
    ensures c.CallSignIn? || c.CallRefresh? || c.CallChangePassword?
    ensures c.ids.refresh !in ChainsOf(a, user)
    ensures Opens(cfg, a, c, user) <==> !c.CallRefresh? && c.user == user
  {
    NewRow(cfg, a, c, user);
    RowsStay(cfg, a, c);
  }

  lemma {:induction false} OpeningAdds(cfg: Config, a: Auth, c: Call, user: UserId)
    requires Opens(cfg, a, c, user)
    ensures Step(cfg, a, c).0.tokens.Keys != a.tokens.Keys
  {
    assert c.ids.refresh in Step(cfg, a, c).0.tokens;
  }

  /** A step that adds a row adds the drawn one, to a chain the user already has when it refreshes. */
  lemma {:induction false} NewRow(cfg: Config, a: Auth, c: Call, user: UserId)
    requires Sound(cfg, a) && Step(cfg, a, c).0.tokens.Keys != a.tokens.Keys
    ensures c.CallSignIn? || c.CallRefresh? || c.CallChangePassword?
    ensures var a', id := Step(cfg, a, c).0, c.ids.refresh;
            && id !in a.tokens && a'.tokens.Keys == a.tokens.Keys + {id}
            && (if c.CallRefresh? then
                  c.token.jti in a.tokens && a'.tokens[id].userId == a.tokens[c.token.jti].userId
                  && RootOf(a', id) == RootOf(a, c.token.jti)
                else Opens(cfg, a, c, c.user) && a'.tokens[id].userId == c.user && RootOf(a', id) == id)
  {
  }

  /** A chain that has ended stays ended. */
  lemma {:induction false} EndedForGood(cfg: Config, a: Auth, c: Call, root: TokenId)
    requires Sound(cfg, a) && root in a.tokens && Ended(a, root)
    ensures Ended(Step(cfg, a, c).0, root)
  {
    var a' := Step(cfg, a, c).0;
    forall id | Active(a', id)
      ensures RootOf(a', id) != root
    {
      if id in a.tokens {
        assert Active(a, id) by { SpentStep(cfg, a, c, id); }
        assert RootSound(a, id);
      } else {
        NewRow(cfg, a, c, a'.tokens[id].userId);
        if c.CallRefresh? {
          assert Active(a, c.token.jti);
        }
      }
    }
  }

  /** How many chains of the user the call ends: a log-out or single revocation of an active session, or a bulk one. */
  ghost function Closes(cfg: Config, a: Auth, c: Call, user: UserId): nat {
    match c
    case CallLogOut(t) => if Rejection(a, t) == None && a.tokens[t.jti].userId == user then 1 else 0
    case CallRevoke(s, u) => if u == user && s in ActiveOf(a, user) then 1 else 0
    case CallRevokeAll(u, ex) => if u == user then |SelectedOf(a, user, ex)| else 0
    case CallChangePassword(u, login, ids, _) =>
      if u == user && login == Verified && FreshIds(a, ids) then |ActiveOf(a, user)| else 0
    case _ => 0
  }

  ghost function SelectedOf(a: Auth, user: UserId, except: Option<TokenId>): set<TokenId> {
    set id | id in a.tokens && Selected(a, user, except, id)
  }

  ghost function Closed(cfg: Config, a: Auth, calls: seq<Call>, user: UserId): nat
    decreases |calls|
  {
    if calls == [] then 0 else Closes(cfg, a, calls[0], user) + Closed(cfg, Step(cfg, a, calls[0]).0, calls[1..], user)
  }

  lemma {:induction false} ActiveAfterIssue(cfg: Config, a: Auth, u: UserId, ids: Ids, lag: nat, root: Option<TokenId>,
                                            user: UserId)
    requires FreshIds(a, ids)
    ensures var a' := IssueTokens(cfg, a, u, ids, lag, root).0;
            |ActiveOf(a', user)| == |ActiveOf(a, user)| + if u == user then 1 else 0
  {
    var a' := IssueTokens(cfg, a, u, ids, lag, root).0;
    assert ActiveOf(a', user) == ActiveOf(a, user) + if u == user then {ids.refresh} else {};
  }

  lemma {:induction false} ActiveAfterRevoke(cfg: Config, a: Auth, id: TokenId, user: UserId)
    requires id in a.tokens
    ensures |ActiveOf(Revoke(cfg, a, id), user)| == |ActiveOf(a, user)| - if id in ActiveOf(a, user) then 1 else 0
  {
    assert ActiveOf(Revoke(cfg, a, id), user) == ActiveOf(a, user) - {id};
  }

  lemma {:induction false} ActiveAfterRevokeAll(cfg: Config, a: Auth, u: UserId, except: Option<TokenId>, user: UserId)
    ensures |ActiveOf(RevokeAll(cfg, a, u, except), user)| ==
            |ActiveOf(a, user)| - if u == user then |SelectedOf(a, user, except)| else 0
  {
    var before, after := ActiveOf(a, user), ActiveOf(RevokeAll(cfg, a, u, except), user);
    if u == user {
      assert before == after + SelectedOf(a, user, except);
    } else {
      assert before == after;
    }
  }

  /** One call changes the number of a user's active sessions by the chain it opens and the chains it closes. */
  lemma {:induction false} ActiveStep(cfg: Config, a: Auth, c: Call, user: UserId)
    ensures |ActiveOf(Step(cfg, a, c).0, user)| ==
            |ActiveOf(a, user)| + (if Opens(cfg, a, c, user) then 1 else 0) - Closes(cfg, a, c, user)
  {
    match c
    case CallSignIn(u, login, ids, lag) =>
      if login == Verified && FreshIds(a, ids) {
        ActiveAfterIssue(cfg, a, u, ids, lag, None, user);
      }
    case CallLogOut(t) =>
      if Rejection(a, t) == None {
        ActiveAfterRevoke(cfg, a, t.jti, user);
      }
    case CallRefresh(t, ids, lag) =>
      if FreshIds(a, ids) {
        ActiveRefresh(cfg, a, t, ids, lag, user);
      }
    case CallRevoke(s, u) =>
      if s in a.tokens {
        ActiveAfterRevoke(cfg, a, s, user);
      }
    case CallRevokeAll(u, ex) => ActiveAfterRevokeAll(cfg, a, u, ex, user);
    case CallChangePassword(u, login, ids, lag) =>
      if login == Verified && FreshIds(a, ids) {
        ActiveChange(cfg, a, u, ids, lag, user);
      }
    case Tick(ms) =>
      assert ActiveOf(Step(cfg, a, c).0, user) == ActiveOf(a, user);
  }

  /** A password change closes all chains of the user and opens one. */
  lemma {:induction false} ActiveChange(cfg: Config, a: Auth, u: UserId, ids: Ids, lag: nat, user: UserId)
    requires FreshIds(a, ids)
    ensures |ActiveOf(ChangePassword(cfg, a, u, Verified, ids, lag).0, user)| ==
            if u == user then 1 else |ActiveOf(a, user)|
  {
    ActiveAfterRevokeAll(cfg, a, u, None, user);
    ActiveAfterIssue(cfg, RevokeAll(cfg, a, u, None), u, ids, lag, None, user);
    assert u == user ==> SelectedOf(a, user, None) == ActiveOf(a, user);
  }

  /** A refresh neither opens nor closes. */
  lemma {:induction false} ActiveRefresh(cfg: Config, a: Auth, t: Jwt, ids: Ids, lag: nat, user: UserId)
    requires FreshIds(a, ids)
    ensures |ActiveOf(Refresh(cfg, a, t, ids, lag).0, user)| == |ActiveOf(a, user)|
  {
    if Rejection(a, t) == None {
      assert a.tokens[t.jti].userId == user <==> t.jti in ActiveOf(a, user);
      ActiveAfterRevoke(cfg, a, t.jti, user);
      ActiveAfterIssue(cfg, Revoke(cfg, a, t.jti), a.tokens[t.jti].userId, ids, lag, Some(RootOf(a, t.jti)), user);
    }
  }

  /**
   In every run a user's active sessions number those before, plus the chains opened by signing in, signing up, the
   Google callback or a password change, minus the chains closed by log-outs and revocations; refreshing does neither.
   */
  lemma {:induction false} SessionsConserved(cfg: Config, a: Auth, calls: seq<Call>, user: UserId)
    ensures |ActiveOf(Run(cfg, a, calls), user)| ==
            |ActiveOf(a, user)| + Opened(cfg, a, calls, user) - Closed(cfg, a, calls, user)
    decreases |calls|
  {
    if calls != [] {
      ActiveStep(cfg, a, calls[0], user);
      SessionsConserved(cfg, Step(cfg, a, calls[0]).0, calls[1..], user);
    }
  }

  /** So in every run the calls that close a chain are what ends chains: as many have ended as were closed. */
  lemma {:induction false} ChainsConserved(cfg: Config, a: Auth, calls: seq<Call>, user: UserId)
    requires Sound(cfg, a)
    ensures var a' := Run(cfg, a, calls);
            && |ChainsOf(a', user)| == |ChainsOf(a, user)| + Opened(cfg, a, calls, user)
            && |EndedOf(a', user)| == |EndedOf(a, user)| + Closed(cfg, a, calls, user)
    decreases |calls|
  {
    if calls != [] {
      var a1 := Step(cfg, a, calls[0]).0;
      StepKeeps(cfg, a, calls[0]);
      ChainsStep(cfg, a, calls[0], user);
      ActiveCount(cfg, a, user);
      ActiveCount(cfg, a1, user);
      ActiveStep(cfg, a, calls[0], user);
      ChainsConserved(cfg, a1, calls[1..], user);
    }
  }

  /** A successful refresh replaces the active session of a chain: the chain runs on, and no other session changes. */
  lemma {:induction false} RefreshRotates(cfg: Config, a: Auth, t: Jwt, ids: Ids, lag: nat)
    requires Sound(cfg, a) && FreshIds(a, ids) && Refresh(cfg, a, t, ids, lag).1.Issued?
    ensures var a' := Refresh(cfg, a, t, ids, lag).0;
            && t.jti in a.tokens
            && ActiveOf(a', a.tokens[t.jti].userId) == ActiveOf(a, a.tokens[t.jti].userId) - {t.jti} + {ids.refresh}
            && RootOf(a', ids.refresh) == RootOf(a, t.jti)
            && forall id | id in a.tokens && id != t.jti :: a'.tokens[id] == a.tokens[id]
  {
  }

  // ---------- Bulk revocation ----------

  /**
   Bulk revocation deactivates exactly the user's active sessions other than the excepted one, changes nothing else in
   any row, and writes exactly the blacklist entries of those sessions that still have whole seconds to live.
   */
  lemma {:induction false} BulkRevocation(cfg: Config, a: Auth, user: UserId, except: Option<TokenId>)
    requires Sound(cfg, a)
    ensures var a' := RevokeAll(cfg, a, user, except);
            && a'.tokens.Keys == a.tokens.Keys
            && (forall id | id in a.tokens ::
                  a'.tokens[id] == if id in ActiveOf(a, user)
                                      && (except == None || except.value == "" || id != except.value)
                                   then a.tokens[id].(isActive := false) else a.tokens[id])
            && (forall j :: j in a'.blacklist && (j !in a.blacklist || a'.blacklist[j] != a.blacklist[j]) ==>
                  exists id :: Selected(a, user, except, id) && a.tokens[id].accessTokenJti == j)
            && (forall j :: j in a.blacklist ==> j in a'.blacklist && a'.blacklist[j] == a.blacklist[j])
            && (forall id | Selected(a, user, except, id) ::
                  var row := a.tokens[id];
                  if RemainingTtl(cfg, row.createdAt, a.now) > 0 then
                    row.accessTokenJti in a'.blacklist
                    && a'.blacklist[row.accessTokenJti] == a.now + 1000 * RemainingTtl(cfg, row.createdAt, a.now)
                  else row.accessTokenJti !in a'.blacklist)
  {
    var a' := RevokeAll(cfg, a, user, except);
    forall j | j in a'.blacklist && (j !in a.blacklist || a'.blacklist[j] != a.blacklist[j])
      ensures exists id :: Selected(a, user, except, id) && a.tokens[id].accessTokenJti == j
    {
      assert Selected(a, user, except, a.issued[j].session);
    }
    forall j | j in a.blacklist
      ensures j in a'.blacklist && a'.blacklist[j] == a.blacklist[j]
    {
      assert AccessSound(a, j);
      assert RowSound(cfg, a, a.issued[j].session);
    }
    forall id | Selected(a, user, except, id)
      ensures a.tokens[id].accessTokenJti in a.issued && a.issued[a.tokens[id].accessTokenJti].session == id
      ensures a.tokens[id].accessTokenJti !in a.blacklist
    {
      assert RowSound(cfg, a, id);
    }
  }

  /** After a password change the user has exactly one active session, the new one; no other user's session changes. */
  lemma {:induction false} PasswordChangeLeavesOne(cfg: Config, a: Auth, user: UserId, ids: Ids, lag: nat)
    requires Sound(cfg, a) && FreshIds(a, ids)
    ensures var a' := ChangePassword(cfg, a, user, Verified, ids, lag).0;
            && ActiveOf(a', user) == {ids.refresh}
            && forall other | other != user :: ActiveOf(a', other) == ActiveOf(a, other)
  {
    var a' := ChangePassword(cfg, a, user, Verified, ids, lag).0;
    forall other | other != user
      ensures ActiveOf(a', other) == ActiveOf(a, other)
    {
    }
  }
}
