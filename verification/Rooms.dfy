/**
 Room membership as a state machine. Which user is in which room is the truth; a room's status, owner and very
 existence are kept in step with it by hand.
 */
module Rooms {
  import opened Basics

  type UserId = string
  type RoomId = string
  type GameId = string

  const MAX_PLAYERS := 2

  datatype RoomStatus = Waiting | Playing

  datatype Room = Room(name: Option<string>, status: RoomStatus, ownerId: UserId, currentGameId: Option<GameId>)

  datatype RoomDeleted = RoomDeleted(roomId: RoomId, currentGameId: Option<GameId>)

  /** The roomId column of the user table, the room table, and the events emitted so far. */
  datatype Lobby = Lobby(roomOf: map<UserId, Option<RoomId>>, rooms: map<RoomId, Room>, events: seq<RoomDeleted>)

  datatype RoomError =
    | AlreadyInARoom | RoomNotFound | AlreadyInThisRoom | RoomFull | NotInARoom | NotOwner | DatabaseError

  function Players(l: Lobby, r: RoomId): set<UserId> {
    set u | u in l.roomOf && l.roomOf[u] == Some(r)
  }

  /** A room as it is handed out: its row with the players it has. */
  datatype RoomView = RoomView(id: RoomId, room: Room, players: set<UserId>)

  function View(l: Lobby, r: RoomId): RoomView
    requires r in l.rooms
  {
    RoomView(r, l.rooms[r], Players(l, r))
  }

  /** A room that may be gone. */
  function ViewIfThere(l: Lobby, r: RoomId): Option<RoomView> {
    if r in l.rooms then Some(View(l, r)) else None
  }

  /** One of the remaining players; the query that lists them has no order. */
  ghost function AnyOf(players: set<UserId>): UserId
    requires players != {}
    ensures AnyOf(players) in players
  {
    var u :| u in players; u
  }

  /** roomRepository.create: a fresh id, and a user row to connect. */
  function Create(l: Lobby, user: UserId, name: Option<string>, id: RoomId): Result<Lobby, RoomError> {
    if user in l.roomOf && l.roomOf[user].Some? then Err(AlreadyInARoom)
    else if user !in l.roomOf || id in l.rooms then Err(DatabaseError)
    else Ok(l.(rooms := l.rooms[id := Room(name, Waiting, user, None)], roomOf := l.roomOf[user := Some(id)]))
  }

  /** Deleting a room sets the roomId of its users to null. */
  function DeleteRoom(l: Lobby, r: RoomId): Lobby {
    l.(rooms := l.rooms - {r},
       roomOf := map u | u in l.roomOf :: if l.roomOf[u] == Some(r) then None else l.roomOf[u])
  }

  /** The last player out deletes the room; otherwise it waits again, with a new owner if the owner left. */
  ghost function LeaveRoom(l: Lobby, user: UserId, r: RoomId): Lobby
    requires user in l.roomOf
  {
    if r !in l.rooms then l
    else
      var remaining := Players(l, r) - {user};
      if remaining == {} then DeleteRoom(l, r)
      else
        var room := l.rooms[r];
        l.(rooms := l.rooms[r := room.(status := Waiting,
                                       ownerId := if room.ownerId == user then AnyOf(remaining) else room.ownerId)],
           roomOf := l.roomOf[user := if l.roomOf[user] == Some(r) then None else l.roomOf[user]])
  }

  ghost function Join(l: Lobby, user: UserId, r: RoomId): Result<Lobby, RoomError> {
    if r !in l.rooms then Err(RoomNotFound)
    else if user in Players(l, r) then Err(AlreadyInThisRoom)
    else if l.rooms[r].status == Playing then Err(RoomFull)
    else if user !in l.roomOf then Err(DatabaseError)
    else
      var l1 := if l.roomOf[user].Some? then LeaveRoom(l, user, l.roomOf[user].value) else l;
      if r !in l1.rooms then Err(DatabaseError)
      else
        var status := if |Players(l, r)| + 1 >= MAX_PLAYERS then Playing else l1.rooms[r].status;
        Ok(l1.(rooms := l1.rooms[r := l1.rooms[r].(status := status)], roomOf := l1.roomOf[user := Some(r)]))
  }

  /** A room that is gone after the last player left is announced, with the game it had. */
  ghost function Leave(l: Lobby, user: UserId): Result<Lobby, RoomError> {
    if user !in l.roomOf || l.roomOf[user] == None then Err(NotInARoom)
    else
      var r := l.roomOf[user].value;
      var l1 := LeaveRoom(l, user, r);
      Ok(if r in l1.rooms then l1
         else l1.(events := l.events + [RoomDeleted(r, if r in l.rooms then l.rooms[r].currentGameId else None)]))
  }

  /** An absent name is kept; a null one clears it. */
  function Update(l: Lobby, user: UserId, r: RoomId, name: Option<Option<string>>): Result<Lobby, RoomError> {
    if r !in l.rooms then Err(RoomNotFound)
    else if l.rooms[r].ownerId != user then Err(NotOwner)
    else if name.None? then Ok(l)
    else Ok(l.(rooms := l.rooms[r := l.rooms[r].(name := name.value)]))
  }

  /** inRoom, the membership test other services rely on. */
  function InRoom(l: Lobby, user: UserId, r: RoomId): Option<RoomError> {
    if r !in l.rooms then Some(RoomNotFound)
    else if user !in Players(l, r) then Some(NotInARoom)
    else None
  }

  // ---------- Runs ----------

  /** A call, or something another service does: a new user, or a room's current game changing. */
  datatype Call =
    | CallCreate(user: UserId, name: Option<string>, id: RoomId)
    | CallJoin(user: UserId, room: RoomId)
    | CallLeave(user: UserId)
    | CallUpdate(user: UserId, room: RoomId, change: Option<Option<string>>)
    | NewUser(user: UserId)
    | SetGame(room: RoomId, game: Option<GameId>)

  ghost function Answer(l: Lobby, c: Call): Result<Lobby, RoomError> {
    match c
    case CallCreate(u, n, id) => Create(l, u, n, id)
    case CallJoin(u, r) => Join(l, u, r)
    case CallLeave(u) => Leave(l, u)
    case CallUpdate(u, r, n) => Update(l, u, r, n)
    case NewUser(u) => if u in l.roomOf then Err(DatabaseError) else Ok(l.(roomOf := l.roomOf[u := None]))
    case SetGame(r, g) => if r !in l.rooms then Err(RoomNotFound)
                          else Ok(l.(rooms := l.rooms[r := l.rooms[r].(currentGameId := g)]))
  }

  /** A refused call changes nothing: its transaction is rolled back, or was never begun. */
  ghost function Step(l: Lobby, c: Call): Lobby {
    match Answer(l, c)
    case Ok(l') => l'
    case Err(_) => l
  }

  ghost function Run(l: Lobby, calls: seq<Call>): Lobby
    decreases |calls|
  {
    if calls == [] then l else Run(Step(l, calls[0]), calls[1..])
  }
}
