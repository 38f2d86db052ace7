/** The rooms service over the user and room tables, proved to follow the functions of module Rooms. */
module RoomsService {
  import opened Basics
  import opened Rooms
  import opened RoomTheory

  class RoomsService {
    /** The roomId column of the user table. */
    var roomOf: map<UserId, Option<RoomId>>
    var rooms: map<RoomId, Room>
    /** ROOM_DELETED events emitted so far. */
    var events: seq<RoomDeleted>

    ghost function State(): Lobby
      reads this
    {
      Lobby(roomOf, rooms, events)
    }

    ghost predicate Valid()
      reads this
    {
      Sound(State())
    }

    constructor (users: set<UserId>)
      ensures Valid() && State() == Lobby(map u | u in users :: None, map[], [])
    {
      roomOf, rooms, events := map u | u in users :: None, map[], [];
    }

    /** The players of a room, as the query with `include` returns them. */
    function FindPlayers(r: RoomId): (players: set<UserId>)
      reads this
      ensures players == Players(State(), r)
    {
      set u | u in roomOf && roomOf[u] == Some(r)
    }

    /** A room with its players. */
    function Read(r: RoomId): (view: RoomView)
      requires r in rooms
      reads this
      ensures view == View(State(), r)
    {
      RoomView(r, rooms[r], FindPlayers(r))
    }

    method Create(user: UserId, name: Option<string>, id: RoomId) returns (reply: Result<RoomView, RoomError>)
      requires Valid()
      modifies this
      ensures Valid()
      ensures match Rooms.Create(old(State()), user, name, id)
              case Ok(l) => State() == l && id in rooms && reply == Ok(View(State(), id))
              case Err(e) => reply == Err(e) && State() == old(State())
    {
      StepKeeps(State(), CallCreate(user, name, id));
      if user in roomOf && roomOf[user].Some? {
        return Err(AlreadyInARoom);
      }
      if user !in roomOf || id in rooms {
        return Err(DatabaseError);
      }
      rooms := rooms[id := Room(name, Waiting, user, None)];
      roomOf := roomOf[user := Some(id)];
      return Ok(Read(id));
    }

    /** Answers with the room joined, and with the room left if it is still there. */
    method Join(user: UserId, r: RoomId) returns (reply: Result<(RoomView, Option<RoomView>), RoomError>)
      requires Valid()
      modifies this
      ensures Valid()
      ensures match Rooms.Join(old(State()), user, r)
              case Ok(l) =>
                && State() == l && r in rooms && user in old(roomOf)
                && reply == Ok((View(State(), r),
                                match old(roomOf[user]) case Some(o) => ViewIfThere(State(), o) case None => None))
              case Err(e) => reply == Err(e) && State() == old(State())
    {
      ghost var before := State();
      StepKeeps(before, CallJoin(user, r));
      if r !in rooms {
        return Err(RoomNotFound);
      }
      var players := FindPlayers(r);
      if user in players {
        return Err(AlreadyInThisRoom);
      }
      if rooms[r].status == Playing {
        return Err(RoomFull);
      }
      if user !in roomOf {
        return Err(DatabaseError);
      }
      // The transaction: leave the old room first, then connect to the new one.
      var left: Option<RoomView> := None;
      if roomOf[user].Some? {
        LeaveRoomEffect(State(), user, roomOf[user].value);
        left := LeaveRoom(user, roomOf[user].value);
      }
      ghost var between := State();
      roomOf := roomOf[user := Some(r)];
      if |players| + 1 >= MAX_PLAYERS {
        rooms := rooms[r := rooms[r].(status := Playing)];
      }
      assert Step(before, CallJoin(user, r)) == State();
      if before.roomOf[user].Some? {
        var o := before.roomOf[user].value;
        assert user in Players(before, o) && o != r;
        PlayersAfterMove(between, State(), user, Some(r), o);
        assert Players(State(), o) == Players(between, o);
        assert ViewIfThere(State(), o) == ViewIfThere(between, o);
      }
      return Ok((Read(r), left));
    }

    /** The shared part of leave and join, for the room the user is in. */
    method LeaveRoom(user: UserId, r: RoomId) returns (left: Option<RoomView>)
      requires Valid() && user in roomOf && roomOf[user] == Some(r)
      modifies this`rooms, this`roomOf
      ensures State() == Rooms.LeaveRoom(old(State()), user, r)
      ensures left == ViewIfThere(State(), r)
    {
      LeaveRoomEffect(State(), user, r);
      var remaining := FindPlayers(r) - {user};
      if remaining == {} {
        rooms := rooms - {r};
        roomOf := map u | u in roomOf :: if roomOf[u] == Some(r) then None else roomOf[u];
        return None;
      } else {
        var heir :| heir in remaining;
        var room := rooms[r];
        roomOf := roomOf[user := None];
        rooms := rooms[r := room.(status := Waiting, ownerId := if room.ownerId == user then heir else room.ownerId)];
        return Some(Read(r));
      }
    }

    /** Answers with the room left if it is still there. */
    method Leave(user: UserId) returns (reply: Result<Option<RoomView>, RoomError>)
      requires Valid()
      modifies this
      ensures Valid()
      ensures match Rooms.Leave(old(State()), user)
              case Ok(l) =>
                && State() == l && user in old(roomOf) && old(roomOf[user]).Some?
                && reply == Ok(ViewIfThere(State(), old(roomOf[user]).value))
              case Err(e) => reply == Err(e) && State() == old(State())
    {
      StepKeeps(State(), CallLeave(user));
      if user !in roomOf || roomOf[user].None? {
        return Err(NotInARoom);
      }
      var r := roomOf[user].value;
      var currentGameId := if r in rooms then rooms[r].currentGameId else None;
      var left := LeaveRoom(user, r);
      if left.None? {
        events := events + [RoomDeleted(r, currentGameId)];
      }
      return Ok(left);
    }

    method Update(user: UserId, r: RoomId, name: Option<Option<string>>)
      returns (reply: Result<RoomView, RoomError>)
      requires Valid()
      modifies this
      ensures Valid()
      ensures match Rooms.Update(old(State()), user, r, name)
              case Ok(l) => State() == l && r in rooms && reply == Ok(View(State(), r))
              case Err(e) => reply == Err(e) && State() == old(State())
    {
      StepKeeps(State(), CallUpdate(user, r, name));
      if r !in rooms {
        return Err(RoomNotFound);
      }
      if rooms[r].ownerId != user {
        return Err(NotOwner);
      }
      if name.Some? {
        rooms := rooms[r := rooms[r].(name := name.value)];
      }
      return Ok(Read(r));
    }

    method InRoom(user: UserId, r: RoomId) returns (refusal: Option<RoomError>)
      ensures refusal == Rooms.InRoom(State(), user, r)
    {
      if r !in rooms {
        return Some(RoomNotFound);
      }
      var players := FindPlayers(r);
      return if user in players then None else Some(NotInARoom);
    }
  }
}
