/** Rooms stay in step with membership, over every sequential run. */
module RoomTheory {
  import opened Basics
  import opened Rooms

  /** One or two players, playing exactly with two, owned by a player. */
  ghost predicate RoomSound(l: Lobby, r: RoomId)
    requires r in l.rooms
  {
    var players := Players(l, r);
    && 1 <= |players| <= MAX_PLAYERS
    && (l.rooms[r].status == Playing <==> |players| == MAX_PLAYERS)
    && l.rooms[r].ownerId in players
  }

  /** The user is in no room or in one that exists. */
  ghost predicate UserSound(l: Lobby, u: UserId)
    requires u in l.roomOf
  {
    l.roomOf[u].Some? ==> l.roomOf[u].value in l.rooms
  }

  ghost predicate Sound(l: Lobby) {
    && (forall u {:trigger UserSound(l, u)} | u in l.roomOf :: UserSound(l, u))
    && (forall r {:trigger RoomSound(l, r)} | r in l.rooms :: RoomSound(l, r))
  }

  // ---------- Sets of one and two players ----------

  lemma {:induction false} OnlyOne<T>(s: set<T>, x: T)
    requires x in s && |s| == 1
    ensures s == {x}
  {
    assert |s - {x}| == 0;
  }

  /** Taking one of at most two players out leaves nobody or exactly one other. */
  lemma {:induction false} WithoutOne(players: set<UserId>, user: UserId)
    requires user in players && |players| <= 2
    ensures |players - {user}| == |players| - 1
    ensures players - {user} == {} <==> players == {user}
    ensures players - {user} != {} ==> players - {user} == {AnyOf(players - {user})}
  {
    var rest := players - {user};
    assert players == rest + {user};
    if rest != {} {
      OnlyOne(rest, AnyOf(rest));
    }
  }

  // ---------- What the operations do ----------

  /** Reassigning one user's room moves that user between player sets and touches no other. */
  lemma {:induction false} PlayersAfterMove(l: Lobby, l': Lobby, user: UserId, to: Option<RoomId>, r: RoomId)
    requires user in l.roomOf && l'.roomOf == l.roomOf[user := to]
    ensures Players(l', r) == if to == Some(r) then Players(l, r) + {user} else Players(l, r) - {user}
  {
  }

  /**
   Leaving, from the player's own room: only that user's membership changes. The room goes exactly when the user was
   alone in it; otherwise it waits, owned by the player who stays.
   */
  lemma {:induction false} LeaveRoomEffect(l: Lobby, user: UserId, r: RoomId)
    requires Sound(l) && user in l.roomOf && l.roomOf[user] == Some(r)
    ensures var l', remaining := LeaveRoom(l, user, r), Players(l, r) - {user};
            && l'.roomOf == l.roomOf[user := None]
            && l'.events == l.events
            && (if Players(l, r) == {user} then l'.rooms == l.rooms - {r}
                else
                  && remaining == {AnyOf(remaining)}
                  && l'.rooms == l.rooms[r := l.rooms[r].(status := Waiting, ownerId := AnyOf(remaining))])
  {
    assert UserSound(l, user);
    assert RoomSound(l, r) && user in Players(l, r);
    WithoutOne(Players(l, r), user);
    forall u | Players(l, r) == {user} && u in l.roomOf && l.roomOf[u] == Some(r) ensures u == user {
      assert u in Players(l, r);
    }
    assert l.rooms[r].ownerId != user ==> l.rooms[r].ownerId in Players(l, r) - {user};
    assert LeaveRoom(l, user, r).roomOf == l.roomOf[user := None];
  }

  /** A room that does not exist has no players. */
  lemma {:induction false} NoRoomNoPlayers(l: Lobby, r: RoomId)
    requires Sound(l) && r !in l.rooms
    ensures Players(l, r) == {}
  {
    assert forall u | u in l.roomOf :: UserSound(l, u);
  }

  /** The room table once the user has left: deleted when alone, otherwise waiting and owned by the player who stays. */
  ghost function Vacated(l: Lobby, user: UserId): map<RoomId, Room>
    requires user in l.roomOf
  {
    match l.roomOf[user]
    case None => l.rooms
    case Some(o) =>
      var staying := Players(l, o) - {user};
      if staying == {} || o !in l.rooms then l.rooms - {o}
      else l.rooms[o := l.rooms[o].(status := Waiting, ownerId := AnyOf(staying))]
  }

  lemma {:induction false} LeaveRoomKeeps(l: Lobby, user: UserId, r: RoomId)
    requires Sound(l) && user in l.roomOf && l.roomOf[user] == Some(r)
    ensures Sound(LeaveRoom(l, user, r))
  {
    LeaveRoomEffect(l, user, r);
    var l' := LeaveRoom(l, user, r);
    forall s | s in l'.rooms
      ensures RoomSound(l', s)
    {
      RoomLeft(l, l', user, r, s);
    }
    forall u | u in l'.roomOf
      ensures UserSound(l', u)
    {
      assert UserSound(l, u);
      assert l.roomOf[u] == Some(r) ==> u in Players(l, r);
    }
  }

  /** A room after a user has left one: the room left has the player who stays, and the others are as they were. */
  lemma {:induction false} RoomLeft(l: Lobby, l': Lobby, user: UserId, r: RoomId, s: RoomId)
    requires Sound(l) && user in l.roomOf && l.roomOf[user] == Some(r)
    requires l'.roomOf == l.roomOf[user := None] && s in l.rooms && s in l'.rooms
    requires s != r ==> l'.rooms[s] == l.rooms[s]
    requires s == r ==>
               var remaining := Players(l, r) - {user};
               && remaining != {} && remaining == {AnyOf(remaining)}
               && l'.rooms[r].status == Waiting && l'.rooms[r].ownerId == AnyOf(remaining)
    ensures RoomSound(l', s)
  {
    assert RoomSound(l, s);
    PlayersAfterMove(l, l', user, None, s);
    if s != r {
      assert user !in Players(l, s);
      assert Players(l', s) == Players(l, s);
    }
  }

  /** A user without a room enters a room that has one player. */
  lemma {:induction false} EnterKeeps(l: Lobby, user: UserId, r: RoomId)
    requires Sound(l) && user in l.roomOf && l.roomOf[user] == None
    requires r in l.rooms && |Players(l, r)| == 1
    ensures Sound(l.(rooms := l.rooms[r := l.rooms[r].(status := Playing)], roomOf := l.roomOf[user := Some(r)]))
  {
    var l' := l.(rooms := l.rooms[r := l.rooms[r].(status := Playing)], roomOf := l.roomOf[user := Some(r)]);
    forall s | s in l'.rooms
      ensures RoomSound(l', s)
    {
      assert RoomSound(l, s);
      PlayersAfterMove(l, l', user, Some(r), s);
      assert user !in Players(l, s);
    }
    forall u | u in l'.roomOf ensures UserSound(l', u) {
      assert UserSound(l, u);
    }
  }

  /** Halfway through a join: the user has left, and one player waits in the room to be joined. */
  lemma {:induction false} JoinHalfway(l: Lobby, user: UserId, r: RoomId) returns (l1: Lobby)
    requires Sound(l) && Join(l, user, r).Ok?
    ensures l1 == if l.roomOf[user].Some? then LeaveRoom(l, user, l.roomOf[user].value) else l
    ensures Sound(l1) && l1.roomOf == l.roomOf[user := None]
    ensures l1.events == l.events && l1.rooms == Vacated(l, user)
    ensures r in l.rooms && r in l1.rooms && l1.rooms[r] == l.rooms[r]
    ensures Players(l1, r) == Players(l, r) && |Players(l, r)| == 1
  {
    assert RoomSound(l, r);
    l1 := l;
    if l.roomOf[user].Some? {
      var o := l.roomOf[user].value;
      LeaveRoomEffect(l, user, o);
      LeaveRoomKeeps(l, user, o);
      l1 := LeaveRoom(l, user, o);
      assert UserSound(l, user);
      PlayersAfterMove(l, l1, user, None, r);
    }
  }

  /**
   Joining is moving one user. The target room starts playing; the room the user was in is deleted exactly when the
   user was alone in it, and otherwise waits again, owned by the player who stays; all other rooms, users and events are
   as they were.
   */
  lemma {:induction false} JoinMovesOneUser(l: Lobby, user: UserId, r: RoomId)
    requires Sound(l) && Join(l, user, r).Ok?
    ensures var l' := Join(l, user, r).value;
            && Sound(l')
            && l'.roomOf == l.roomOf[user := Some(r)]
            && l'.events == l.events
            && r in l.rooms && l'.rooms == Vacated(l, user)[r := l.rooms[r].(status := Playing)]
  {
    var l1 := JoinHalfway(l, user, r);
    EnterKeeps(l1, user, r);
  }

  lemma {:induction false} CreateKeeps(l: Lobby, user: UserId, name: Option<string>, id: RoomId)
    requires Sound(l) && Create(l, user, name, id).Ok?
    ensures Sound(Create(l, user, name, id).value)
  {
    var l' := Create(l, user, name, id).value;
    forall s | s in l'.rooms
      ensures RoomSound(l', s)
    {
      PlayersAfterMove(l, l', user, Some(id), s);
      if s == id {
        NoRoomNoPlayers(l, id);
        assert Players(l', id) == {user};
      } else {
        assert RoomSound(l, s);
        assert user !in Players(l, s);
      }
    }
    forall u | u in l'.roomOf ensures UserSound(l', u) {
      assert u in l.roomOf && UserSound(l, u);
    }
  }

  lemma {:induction false} SamePlayersKeep(l: Lobby, l': Lobby)
    requires Sound(l) && l'.rooms.Keys == l.rooms.Keys
    requires forall u :: u in l.roomOf && l.roomOf[u].Some? <==> u in l'.roomOf && l'.roomOf[u].Some?
    requires forall u | u in l.roomOf && l.roomOf[u].Some? :: l'.roomOf[u] == l.roomOf[u]
    requires forall r | r in l.rooms ::
               (l'.rooms[r].status, l'.rooms[r].ownerId) == (l.rooms[r].status, l.rooms[r].ownerId)
    ensures Sound(l')
  {
    forall r | r in l'.rooms
      ensures RoomSound(l', r)
    {
      assert RoomSound(l, r);
      assert Players(l', r) == Players(l, r);
    }
    forall u | u in l'.roomOf ensures UserSound(l', u) {
      assert u in l.roomOf ==> UserSound(l, u);
    }
  }

  /** Every call keeps every room in step with its players. */
  lemma {:induction false} StepKeeps(l: Lobby, c: Call)
    requires Sound(l)
    ensures Sound(Step(l, c))
  {
    if Answer(l, c).Ok? {
      match c
      case CallCreate(u, n, id) => CreateKeeps(l, u, n, id);
      case CallJoin(u, r) => JoinMovesOneUser(l, u, r);
      case CallLeave(u) =>
        LeaveRoomKeeps(l, u, l.roomOf[u].value);
        SamePlayersKeep(LeaveRoom(l, u, l.roomOf[u].value), Step(l, c));
      case _ => SamePlayersKeep(l, Step(l, c));
    }
  }

  /**
   In every sequential run from an empty lobby, every user's room exists, every room has one or two players, it is
   playing exactly with two, and its owner is one of them.
   */
  lemma {:induction false} RoomsStaySound(l: Lobby, calls: seq<Call>)
    requires Sound(l)
    ensures Sound(Run(l, calls))
    decreases |calls|
  {
    if calls != [] {
      StepKeeps(l, calls[0]);
      RoomsStaySound(Step(l, calls[0]), calls[1..]);
    }
  }

  // ---------- Membership alone decides ----------

  type Membership = map<UserId, Option<RoomId>>

  ghost function Members(m: Membership, r: RoomId): set<UserId> {
    set u | u in m && m[u] == Some(r)
  }

  /** Which calls go through, told from membership alone. */
  ghost predicate Allowed(m: Membership, c: Call) {
    match c
    case CallCreate(u, _, id) => u in m && m[u] == None && Members(m, id) == {}
    case CallJoin(u, r) => u in m && u !in Members(m, r) && |Members(m, r)| == 1
    case CallLeave(u) => u in m && m[u].Some?
    case NewUser(u) => u !in m
    case _ => false
  }

  ghost function MemberStep(m: Membership, c: Call): Membership {
    if !Allowed(m, c) then m
    else match c
         case CallCreate(u, _, id) => m[u := Some(id)]
         case CallJoin(u, r) => m[u := Some(r)]
         case CallLeave(u) => m[u := None]
         case NewUser(u) => m[u := None]
         case _ => m
  }

  ghost function MemberRun(m: Membership, calls: seq<Call>): Membership
    decreases |calls|
  {
    if calls == [] then m else MemberRun(MemberStep(m, calls[0]), calls[1..])
  }

  /** Refusals and moves of users are those of the membership map; a refused call changes nothing at all. */
  lemma {:induction false} StepRefines(l: Lobby, c: Call)
    requires Sound(l)
    ensures !c.CallUpdate? && !c.SetGame? ==> (Answer(l, c).Ok? <==> Allowed(l.roomOf, c))
    ensures Step(l, c).roomOf == MemberStep(l.roomOf, c)
    ensures Answer(l, c).Err? ==> Step(l, c) == l
  {
    match c
    case CallCreate(u, _, id) =>
      assert Members(l.roomOf, id) == Players(l, id);
      if id in l.rooms {
        assert RoomSound(l, id);
      } else {
        NoRoomNoPlayers(l, id);
      }
    case CallJoin(u, r) => JoinRefines(l, u, r);
    case CallLeave(u) =>
      if u in l.roomOf && l.roomOf[u].Some? {
        LeaveRoomEffect(l, u, l.roomOf[u].value);
      }
    case _ =>
  }

  lemma {:induction false} JoinRefines(l: Lobby, user: UserId, r: RoomId)
    requires Sound(l)
    ensures Join(l, user, r).Ok? <==> Allowed(l.roomOf, CallJoin(user, r))
    ensures Step(l, CallJoin(user, r)).roomOf == MemberStep(l.roomOf, CallJoin(user, r))
  {
    assert Members(l.roomOf, r) == Players(l, r);
    if r in l.rooms {
      assert RoomSound(l, r);
    } else {
      NoRoomNoPlayers(l, r);
    }
    if user in l.roomOf && l.roomOf[user].Some? {
      LeaveRoomEffect(l, user, l.roomOf[user].value);
    }
    if Join(l, user, r).Ok? {
      JoinMovesOneUser(l, user, r);
    }
  }

  /**
   Over every run, the rooms add nothing to membership: who is where, and hence which rooms exist and their status, is
   what a map from users to rooms alone would give.
   */
  lemma {:induction false} RoomsRefineMembership(l: Lobby, calls: seq<Call>)
    requires Sound(l)
    ensures var l', m := Run(l, calls), MemberRun(l.roomOf, calls);
            && l'.roomOf == m
            && (forall r :: r in l'.rooms <==> Members(m, r) != {})
            && (forall r | r in l'.rooms ::
                  l'.rooms[r].status == if |Members(m, r)| == MAX_PLAYERS then Playing else Waiting)
    decreases |calls|
  {
    if calls == [] {
      forall r
        ensures r in l.rooms <==> Members(l.roomOf, r) != {}
        ensures r in l.rooms ==> (l.rooms[r].status == Playing <==> |Members(l.roomOf, r)| == MAX_PLAYERS)
      {
        assert Members(l.roomOf, r) == Players(l, r);
        if r in l.rooms {
          assert RoomSound(l, r);
        } else {
          NoRoomNoPlayers(l, r);
        }
      }
    } else {
      StepKeeps(l, calls[0]);
      StepRefines(l, calls[0]);
      RoomsRefineMembership(Step(l, calls[0]), calls[1..]);
    }
  }

  /** A deletion is announced exactly when a leave empties the room; a join that empties one says nothing. */
  lemma {:induction false} AnnouncedExactlyWhen(l: Lobby, c: Call)
    requires Sound(l)
    ensures var l' := Step(l, c);
            if c.CallLeave? && c.user in l.roomOf && l.roomOf[c.user].Some?
               && Players(l, l.roomOf[c.user].value) == {c.user}
            then var r := l.roomOf[c.user].value;
                 r in l.rooms && l'.events == l.events + [RoomDeleted(r, l.rooms[r].currentGameId)]
            else l'.events == l.events
  {
    if c.CallLeave? && c.user in l.roomOf && l.roomOf[c.user].Some? {
      LeaveRoomEffect(l, c.user, l.roomOf[c.user].value);
    }
    if c.CallJoin? && Join(l, c.user, c.room).Ok? {
      JoinMovesOneUser(l, c.user, c.room);
    }
  }

  // ---------- Answers ----------

  /** Why a call is turned down, told from membership alone; None for a call that goes through. */
  ghost function Refusal(m: Membership, c: Call): Option<RoomError> {
    match c
    case CallCreate(u, _, id) =>
      if u in m && m[u].Some? then Some(AlreadyInARoom)
      else if u !in m || Members(m, id) != {} then Some(DatabaseError)
      else None
    case CallJoin(u, r) =>
      if Members(m, r) == {} then Some(RoomNotFound)
      else if u in Members(m, r) then Some(AlreadyInThisRoom)
      else if |Members(m, r)| == 2 then Some(RoomFull)
      else if u !in m then Some(DatabaseError)
      else None
    case CallLeave(u) => if u !in m || m[u] == None then Some(NotInARoom) else None
    case _ => None
  }

  /** The answers to create, join and leave follow from who is where. */
  lemma {:induction false} RefusedBecause(l: Lobby, c: Call)
    requires Sound(l) && (c.CallCreate? || c.CallJoin? || c.CallLeave?)
    ensures match Refusal(l.roomOf, c)
            case None => Answer(l, c).Ok?
            case Some(e) => Answer(l, c) == Err(e)
  {
    StepRefines(l, c);
    if !c.CallLeave? {
      var r := if c.CallCreate? then c.id else c.room;
      assert Members(l.roomOf, r) == Players(l, r);
      if r in l.rooms {
        assert RoomSound(l, r);
      } else {
        NoRoomNoPlayers(l, r);
      }
    }
  }

  /**
   A room keeps its name and its game through every call, except that the owner can rename it and the game service sets
   its game; a new room has the name it was created with and no game.
   */
  lemma {:induction false} NameAndGameKept(l: Lobby, c: Call, r: RoomId)
    requires Sound(l) && r in Step(l, c).rooms
    ensures var room' := Step(l, c).rooms[r];
            if r !in l.rooms then c.CallCreate? && c.id == r && room'.name == c.name && room'.currentGameId == None
            else
              && room'.name == (if c.CallUpdate? && c.room == r && c.user == l.rooms[r].ownerId && c.change.Some?
                                then c.change.value else l.rooms[r].name)
              && room'.currentGameId == (if c.SetGame? && c.room == r then c.game else l.rooms[r].currentGameId)
  {
    if c.CallLeave? && Answer(l, c).Ok? {
      LeaveRoomEffect(l, c.user, l.roomOf[c.user].value);
    }
    if c.CallJoin? && Answer(l, c).Ok? {
      JoinMovesOneUser(l, c.user, c.room);
    }
  }

  /** A rename goes through exactly for the owner of a room that is there, and then changes nothing but the name. */
  lemma {:induction false} RenameAnswer(l: Lobby, user: UserId, r: RoomId, change: Option<Option<string>>)
    requires Sound(l)
    ensures var answer := Update(l, user, r, change);
            && (answer.Ok? <==> r in l.rooms && l.rooms[r].ownerId == user)
            && (answer == Err(RoomNotFound) <==> Members(l.roomOf, r) == {})
            && (answer == Err(NotOwner) <==> r in l.rooms && l.rooms[r].ownerId != user)
            && (answer.Ok? ==>
                  && user in Members(l.roomOf, r)
                  && (answer.value.roomOf, answer.value.events) == (l.roomOf, l.events)
                  && answer.value.rooms.Keys == l.rooms.Keys
                  && (forall s | s in l.rooms && s != r :: answer.value.rooms[s] == l.rooms[s])
                  && (answer.value.rooms[r].status, answer.value.rooms[r].ownerId, answer.value.rooms[r].currentGameId)
                     == (l.rooms[r].status, l.rooms[r].ownerId, l.rooms[r].currentGameId))
  {
    assert Members(l.roomOf, r) == Players(l, r);
    if r in l.rooms {
      assert RoomSound(l, r);
    } else {
      NoRoomNoPlayers(l, r);
    }
  }

  /** The membership test lets exactly the players of a room through, and tells an empty room from a foreign one. */
  lemma {:induction false} InRoomAnswer(l: Lobby, user: UserId, r: RoomId)
    requires Sound(l)
    ensures InRoom(l, user, r) ==
            if user in l.roomOf && l.roomOf[user] == Some(r) then None
            else if Members(l.roomOf, r) == {} then Some(RoomNotFound)
            else Some(NotInARoom)
  {
    assert Members(l.roomOf, r) == Players(l, r);
    assert user in Players(l, r) <==> user in l.roomOf && l.roomOf[user] == Some(r);
    if r in l.rooms {
      assert RoomSound(l, r);
    } else {
      NoRoomNoPlayers(l, r);
    }
  }

  /**
   What a join hands out: the room joined, playing, with its earlier player and the new one; and the room left, waiting,
   with the player who stays, exactly when somebody stays.
   */
  lemma {:induction false} JoinAnswer(l: Lobby, user: UserId, r: RoomId)
    requires Sound(l) && Join(l, user, r).Ok?
    ensures var l' := Join(l, user, r).value;
            && r in l'.rooms
            && View(l', r).players == Players(l, r) + {user} && |View(l', r).players| == 2
            && View(l', r).room.status == Playing
    ensures user in l.roomOf
    ensures l.roomOf[user].Some? ==>
              var l', o := Join(l, user, r).value, l.roomOf[user].value;
              var left := ViewIfThere(l', o);
              && (left.Some? <==> Players(l, o) != {user})
              && (left.Some? ==> left.value.players == Players(l, o) - {user} && left.value.room.status == Waiting)
  {
    JoinMovesOneUser(l, user, r);
    var l' := Join(l, user, r).value;
    PlayersAfterMove(l, l', user, Some(r), r);
    assert RoomSound(l', r);
    assert user in Players(l', r);
    if l.roomOf[user].Some? {
      var o := l.roomOf[user].value;
      assert UserSound(l, user) && RoomSound(l, o) && user in Players(l, o);
      PlayersAfterMove(l, l', user, Some(r), o);
      WithoutOne(Players(l, o), user);
    }
    JoinedCount(l, user, r);
  }

  lemma {:induction false} JoinedCount(l: Lobby, user: UserId, r: RoomId)
    requires Sound(l) && Join(l, user, r).Ok?
    ensures |Players(l, r) + {user}| == 2
  {
    assert RoomSound(l, r);
  }
}
