/** The chat service over one Redis keyspace for all rooms; only members of a room read or write its list. */
module ChatService {
  import opened Basics
  import opened Chat
  import Rooms
  import RoomsService

  type RoomId = Rooms.RoomId

  function Key(r: RoomId): string { "chat:" + r }

  lemma {:induction false} KeyInjective(r: RoomId, s: RoomId)
    requires Key(r) == Key(s)
    ensures r == s
  {
    assert Key(r)[5..] == r && Key(s)[5..] == s;
  }

  class ChatService<M> {
    const roomsService: RoomsService.RoomsService
    var now: int
    var redis: map<string, ListKey<M>>

    constructor (roomsService: RoomsService.RoomsService, now: int)
      ensures this.roomsService == roomsService && this.now == now && redis == map[]
    {
      this.roomsService, this.now, this.redis := roomsService, now, map[];
    }

    /** What Redis has under the room's key now: nothing once the expiry has come. */
    function Fetch(r: RoomId): ListKey<M>
      reads this
    {
      FetchAt(r, now)
    }

    /** What Redis will have under the room's key at an instant, if nothing more is called. */
    function FetchAt(r: RoomId, at: int): ListKey<M>
      reads this
    {
      if Key(r) in redis then Aged(redis[Key(r)], at) else NoKey()
    }

    /** Pushes, trims to the newest hundred and renews; the windows of other rooms are not touched. */
    method AddMessage(user: Rooms.UserId, r: RoomId, m: M) returns (reply: Result<M, Rooms.RoomError>)
      modifies this`redis
      ensures match Rooms.InRoom(roomsService.State(), user, r)
              case Some(e) => reply == Err(e) && redis == old(redis)
              case None =>
                && reply == Ok(m) && Fetch(r) == Chat.AddMessage(old(Fetch(r)), m, now)
                && forall at | at >= now ::
                     FetchAt(r, at).items ==
                       if at < now + 1000 * 60 * 60 then LastN(old(Fetch(r)).items + [m], 100) else []
      ensures forall s, at | s != r :: FetchAt(s, at) == old(FetchAt(s, at))
      ensures user !in Rooms.Players(roomsService.State(), r) ==> reply.Err? && redis == old(redis)
    {
      var refusal := roomsService.InRoom(user, r);
      if refusal.Some? {
        return Err(refusal.value);
      }
      var key := Key(r);
      redis := redis[key := RPush(Fetch(r), m)];
      redis := redis[key := LTrim(redis[key])];
      redis := redis[key := Renew(redis[key], now)];
      forall s | s != r ensures Key(s) != key {
        if Key(s) == key {
          KeyInjective(s, r);
        }
      }
      forall at | at >= now
        ensures FetchAt(r, at).items == if at < now + 1000 * 60 * 60 then LastN(old(Fetch(r)).items + [m], 100) else []
      {
        StaysAnHour(old(Fetch(r)), m, now, at);
      }
      return Ok(m);
    }

    method GetMessages(user: Rooms.UserId, r: RoomId) returns (reply: Result<seq<M>, Rooms.RoomError>)
      ensures match Rooms.InRoom(roomsService.State(), user, r)
              case Some(e) => reply == Err(e)
              case None => reply == Ok(Fetch(r).items)
      ensures user !in Rooms.Players(roomsService.State(), r) ==> reply.Err?
    {
      var refusal := roomsService.InRoom(user, r);
      return if refusal.Some? then Err(refusal.value) else Ok(Fetch(r).items);
    }

    /** Also what the handler of ROOM_DELETED does. */
    method DeleteMessages(r: RoomId)
      modifies this`redis
      ensures forall at :: FetchAt(r, at) == NoKey()
      ensures forall s, at | s != r :: FetchAt(s, at) == old(FetchAt(s, at))
    {
      forall s | s != r ensures Key(s) != Key(r) {
        if Key(s) == Key(r) {
          KeyInjective(s, r);
        }
      }
      redis := redis - {Key(r)};
    }
  }
}
