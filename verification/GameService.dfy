/**
 The game service over its stores: one flat Redis keyspace shared by all games, a game table, a move table and the
 room table. Its methods perform the writes one by one and are proved to follow the functions of module Games.
 */
module GameService {
  import opened Basics
  import opened GameEngine
  import opened Games

  // ---------- The keyspace ----------

  function StateKey(g: GameId): string { "game:" + g + ":state" }

  function MovesKey(g: GameId): string { "game:" + g + ":moves" }

  function MetaKey(g: GameId): string { "game:" + g + ":meta" }

  datatype Entry<S, A> =
    | StateEntry(state: Timed<S>)
    | MetaEntry(meta: Timed<Meta>)
    | ListEntry(items: seq<StoredMove<A>>)

  type Redis<S, A> = map<string, Entry<S, A>>

  /** Keys of different kinds never meet, whatever the ids are: they end in different letters. */
  lemma {:induction false} KindsDisjoint(g: GameId, h: GameId)
    ensures StateKey(g) != MovesKey(h) && StateKey(g) != MetaKey(h) && MovesKey(g) != MetaKey(h)
  {
    var s, m, t := StateKey(g), MovesKey(h), MetaKey(h);
    assert s[|s| - 1] == 'e' && m[|m| - 1] == 's' && t[|t| - 1] == 'a';
    var n := MovesKey(g);
    assert n[|n| - 1] == 's';
  }

  /** An id can be read back from each of its keys. */
  lemma {:induction false} KeysInjective(g: GameId, h: GameId)
    ensures StateKey(g) == StateKey(h) || MovesKey(g) == MovesKey(h) || MetaKey(g) == MetaKey(h) ==> g == h
  {
    assert StateKey(g)[5..|StateKey(g)| - 6] == g && StateKey(h)[5..|StateKey(h)| - 6] == h;
    assert MovesKey(g)[5..|MovesKey(g)| - 6] == g && MovesKey(h)[5..|MovesKey(h)| - 6] == h;
    assert MetaKey(g)[5..|MetaKey(g)| - 5] == g && MetaKey(h)[5..|MetaKey(h)| - 5] == h;
  }

  function Lookup<S, A>(redis: Redis<S, A>, k: string): Option<Entry<S, A>> {
    if k in redis then Some(redis[k]) else None
  }

  /** What the keyspace has under the three keys of a game. */
  ghost function KeysOf<S, A>(redis: Redis<S, A>, g: GameId)
    : (Option<Entry<S, A>>, Option<Entry<S, A>>, Option<Entry<S, A>>)
  {
    (Lookup(redis, StateKey(g)), Lookup(redis, MetaKey(g)), Lookup(redis, MovesKey(g)))
  }

  /**
   What it should have: each key exactly when the game's record says so, and nothing for a game that does not exist.
   */
  ghost function KeysFor<S, A>(games: map<GameId, Game<S, A>>, g: GameId)
    : (Option<Entry<S, A>>, Option<Entry<S, A>>, Option<Entry<S, A>>)
  {
    if g !in games then (None, None, None)
    else
      var gm := games[g];
      (if gm.state.Some? then Some(StateEntry(gm.state.value)) else None,
       if gm.meta.Some? then Some(MetaEntry(gm.meta.value)) else None,
       if gm.moves != [] then Some(ListEntry(gm.moves)) else None)
  }

  ghost predicate KeysMatch<S, A>(redis: Redis<S, A>, games: map<GameId, Game<S, A>>) {
    forall g :: KeysOf(redis, g) == KeysFor(games, g)
  }

  /** The keyspaces agree on every key that is not one of g's. */
  ghost predicate SameElsewhere<S, A>(redis: Redis<S, A>, redis': Redis<S, A>, g: GameId) {
    forall k | k != StateKey(g) && k != MovesKey(g) && k != MetaKey(g) :: Lookup(redis', k) == Lookup(redis, k)
  }

  /** Writing or deleting keys of one game leaves the keys of every other game alone. */
  lemma {:induction false} OtherKeysKept<S, A>(redis: Redis<S, A>, redis': Redis<S, A>, g: GameId, h: GameId)
    requires g != h && SameElsewhere(redis, redis', g)
    ensures KeysOf(redis', h) == KeysOf(redis, h)
  {
    KeysInjective(g, h);
    KindsDisjoint(g, h);
    KindsDisjoint(h, g);
    assert Lookup(redis', StateKey(h)) == Lookup(redis, StateKey(h));
    assert Lookup(redis', MovesKey(h)) == Lookup(redis, MovesKey(h));
    assert Lookup(redis', MetaKey(h)) == Lookup(redis, MetaKey(h));
  }

  lemma {:induction false} KeysChanged<S, A>(redis: Redis<S, A>, redis': Redis<S, A>, games: map<GameId, Game<S, A>>,
                                             g: GameId, gm: Game<S, A>)
    requires KeysMatch(redis, games) && SameElsewhere(redis, redis', g)
    requires KeysOf(redis', g) == KeysFor(games[g := gm], g)
    ensures KeysMatch(redis', games[g := gm])
  {
    forall h
      ensures KeysOf(redis', h) == KeysFor(games[g := gm], h)
    {
      if h != g {
        OtherKeysKept(redis, redis', g, h);
        assert KeysOf(redis, h) == KeysFor(games, h);
      }
    }
  }

  /** SET of the state and of the metadata. */
  function SetKeys<S, A>(redis: Redis<S, A>, g: GameId, s: Timed<S>, m: Timed<Meta>): Redis<S, A> {
    redis[StateKey(g) := StateEntry(s)][MetaKey(g) := MetaEntry(m)]
  }

  /** SET of state and metadata for a game without a log. */
  lemma {:induction false} StartKeys<S, A>(redis: Redis<S, A>, games: map<GameId, Game<S, A>>, g: GameId, gm: Game<S,
                                           A>)
    requires KeysMatch(redis, games) && g !in games
    requires gm.state.Some? && gm.meta.Some? && gm.moves == []
    ensures KeysMatch(SetKeys(redis, g, gm.state.value, gm.meta.value), games[g := gm])
  {
    KindsDisjoint(g, g);
    assert KeysOf(redis, g) == KeysFor(games, g);
    KeysChanged(redis, SetKeys(redis, g, gm.state.value, gm.meta.value), games, g, gm);
  }

  /** SET of the state, renewal of the metadata and RPUSH of a move. */
  lemma {:induction false} MoveKeys<S, A>(redis: Redis<S, A>, games: map<GameId, Game<S, A>>, g: GameId, gm: Game<S, A>)
    requires KeysMatch(redis, games)
    requires gm.state.Some? && gm.meta.Some? && gm.moves != []
    ensures KeysMatch(SetKeys(redis, g, gm.state.value, gm.meta.value)[MovesKey(g) := ListEntry(gm.moves)],
                      games[g := gm])
  {
    KindsDisjoint(g, g);
    KeysChanged(redis, SetKeys(redis, g, gm.state.value, gm.meta.value)[MovesKey(g) := ListEntry(gm.moves)], games, g,
                gm);
  }

  /** DEL of the three keys. */
  lemma {:induction false} DropKeysMatch<S, A>(redis: Redis<S, A>, games: map<GameId, Game<S, A>>, g: GameId,
                                               gm: Game<S, A>)
    requires KeysMatch(redis, games)
    requires gm.state == None && gm.meta == None && gm.moves == []
    ensures KeysMatch(redis - {StateKey(g), MovesKey(g), MetaKey(g)}, games[g := gm])
  {
    KeysChanged(redis, redis - {StateKey(g), MovesKey(g), MetaKey(g)}, games, g, gm);
  }

  /** A game that keeps its keys keeps the match. */
  lemma {:induction false} KeysUntouched<S, A>(redis: Redis<S, A>, games: map<GameId, Game<S, A>>, g: GameId,
                                               gm: Game<S, A>)
    requires KeysMatch(redis, games) && KeysFor(games[g := gm], g) == KeysFor(games, g)
    ensures KeysMatch(redis, games[g := gm])
  {
    assert KeysOf(redis, g) == KeysFor(games, g);
    KeysChanged(redis, redis, games, g, gm);
  }

  // ---------- The move table ----------

  /** The rows of one game, in table order. */
  function RowsOf<A>(rows: seq<MoveRow<A>>, g: GameId): seq<MoveRow<A>> {
    if rows == [] then []
    else
      var last := rows[|rows| - 1];
      RowsOf(rows[..|rows| - 1], g) + if last.gameId == g then [last] else []
  }

  lemma {:induction false} RowsAfterFinish<A>(rows: seq<MoveRow<A>>, owner: GameId, log: seq<StoredMove<A>>, g: GameId)
    ensures RowsOf(rows + Numbered(owner, log), g) ==
            if g == owner then RowsOf(rows, g) + Numbered(owner, log) else RowsOf(rows, g)
    decreases |log|
  {
    if log == [] {
      assert rows + Numbered(owner, log) == rows;
    } else {
      var n := |log| - 1;
      var all := rows + Numbered(owner, log);
      assert Numbered(owner, log) == Numbered(owner, log[..n]) + [MoveRow(owner, n, log[n])];
      assert all[..|all| - 1] == rows + Numbered(owner, log[..n]);
      RowsAfterFinish(rows, owner, log[..n], g);
    }
  }

  /** The move table holds exactly the rows of these games. */
  ghost predicate RowsMatch<S, A>(rows: seq<MoveRow<A>>, games: map<GameId, Game<S, A>>) {
    forall g :: RowsOf(rows, g) == if g in games then games[g].rows else []
  }

  lemma {:induction false} RowsChanged<S, A>(rows: seq<MoveRow<A>>, games: map<GameId, Game<S, A>>, g: GameId,
                                             gm: Game<S, A>, log: seq<StoredMove<A>>)
    requires RowsMatch(rows, games)
    requires gm.rows == (if g in games then games[g].rows else []) + Numbered(g, log)
    ensures RowsMatch(rows + Numbered(g, log), games[g := gm])
  {
    forall h
      ensures RowsOf(rows + Numbered(g, log), h) == if h in games[g := gm] then games[g := gm][h].rows else []
    {
      RowsAfterFinish(rows, g, log, h);
    }
  }

  lemma {:induction false} RowsUntouched<S, A>(rows: seq<MoveRow<A>>, games: map<GameId, Game<S, A>>, g: GameId,
                                               gm: Game<S, A>)
    requires RowsMatch(rows, games) && gm.rows == if g in games then games[g].rows else []
    ensures RowsMatch(rows, games[g := gm])
  {
    assert rows + Numbered(g, []) == rows;
    RowsChanged(rows, games, g, gm, []);
  }

  /** The game table these games amount to. */
  ghost function TableOf<S, A>(games: map<GameId, Game<S, A>>): map<GameId, GameRow> {
    map g | g in games :: games[g].row
  }

  lemma {:induction false} TableChanged<S, A>(games: map<GameId, Game<S, A>>, g: GameId, gm: Game<S, A>)
    ensures TableOf(games[g := gm]) == TableOf(games)[g := gm.row]
  {
  }

  // ---------- All stores together ----------

  /** The keyspace, the game table and the move table hold exactly these games. */
  ghost predicate Holds<S, A>(redis: Redis<S, A>, table: map<GameId, GameRow>, rows: seq<MoveRow<A>>,
                              games: map<GameId, Game<S, A>>)
  {
    table == TableOf(games) && KeysMatch(redis, games) && RowsMatch(rows, games)
  }

  /** A started game. */
  lemma {:induction false} HoldsStarted<S, A>(redis: Redis<S, A>, table: map<GameId, GameRow>, rows: seq<MoveRow<A>>,
                                              games: map<GameId, Game<S, A>>, g: GameId, gm: Game<S, A>)
    requires Holds(redis, table, rows, games) && g !in games
    requires gm.state.Some? && gm.meta.Some? && gm.moves == [] && gm.rows == []
    ensures Holds(SetKeys(redis, g, gm.state.value, gm.meta.value), table[g := gm.row], rows, games[g := gm])
  {
    StartKeys(redis, games, g, gm);
    RowsUntouched(rows, games, g, gm);
    TableChanged(games, g, gm);
  }

  /** A cached move. */
  lemma {:induction false} HoldsMoved<S, A>(redis: Redis<S, A>, table: map<GameId, GameRow>, rows: seq<MoveRow<A>>,
                                            games: map<GameId, Game<S, A>>, g: GameId, gm: Game<S, A>)
    requires Holds(redis, table, rows, games) && g in games
    requires gm.state.Some? && gm.meta.Some? && gm.moves != [] && (gm.row, gm.rows) == (games[g].row, games[g].rows)
    ensures Holds(SetKeys(redis, g, gm.state.value, gm.meta.value)[MovesKey(g) := ListEntry(gm.moves)], table, rows,
                  games[g := gm])
  {
    MoveKeys(redis, games, g, gm);
    RowsUntouched(rows, games, g, gm);
    TableChanged(games, g, gm);
  }

  /** A game that only got a new history flag. */
  lemma {:induction false} HoldsFailed<S, A>(redis: Redis<S, A>, table: map<GameId, GameRow>, rows: seq<MoveRow<A>>,
                                             games: map<GameId, Game<S, A>>, g: GameId)
    requires Holds(redis, table, rows, games) && g in games
    ensures Holds(redis, table, rows, games[g := games[g].(failed := true)])
  {
    KeysUntouched(redis, games, g, games[g].(failed := true));
    RowsUntouched(rows, games, g, games[g].(failed := true));
    TableChanged(games, g, games[g].(failed := true));
  }

  /** A game without keys, with a new row, and with a log more in the move table. */
  lemma {:induction false} HoldsDropped<S, A>(redis: Redis<S, A>, table: map<GameId, GameRow>, rows: seq<MoveRow<A>>,
                                              games: map<GameId, Game<S, A>>, g: GameId, gm: Game<S, A>,
                                              log: seq<StoredMove<A>>)
    requires Holds(redis, table, rows, games) && g in games
    requires gm.state == None && gm.meta == None && gm.moves == [] && gm.rows == games[g].rows + Numbered(g, log)
    ensures Holds(redis - {StateKey(g), MovesKey(g), MetaKey(g)}, table[g := gm.row], rows + Numbered(g, log),
                  games[g := gm])
  {
    DropKeysMatch(redis, games, g, gm);
    RowsChanged(rows, games, g, gm, log);
    TableChanged(games, g, gm);
  }

  class GameService<S, A> {
    const registry: Registry<S, A>
    var now: int
    var redis: Redis<S, A>
    var gameTable: map<GameId, GameRow>
    var moveTable: seq<MoveRow<A>>
    var rooms: map<RoomId, Option<GameId>>
    var users: set<PlayerId>
    /** The world the stores represent, with its history. */
    ghost var world: World<S, A>

    ghost predicate Valid()
      reads this
    {
      && (world.now, world.rooms, world.users) == (now, rooms, users)
      && Holds(redis, gameTable, moveTable, world.games)
    }

    constructor (registry: Registry<S, A>, now: int, rooms: set<RoomId>, users: set<PlayerId>)
      ensures Valid() && this.registry == registry
      ensures world == World(now, map[], map r | r in rooms :: None, users)
    {
      this.registry, this.now, this.users := registry, now, users;
      this.redis, this.gameTable, this.moveTable := map[], map[], [];
      this.rooms := map r | r in rooms :: None;
      this.world := World(now, map[], map r | r in rooms :: None, users);
    }

    method StartGame(room: RoomId, t: GameType, p: Players, g: GameId, dbUp: bool) returns (reply: Reply<S, A>)
      requires Valid()
      modifies this
      ensures Valid()
      ensures (world, reply) == Games.StartGame(registry, old(world), room, t, p, g, dbUp)
    {
      if t !in registry {
        return Refused(NoEngine);
      }
      var engine := registry[t];
      var initialState := engine.init(p);

      if !dbUp || g in gameTable || room !in rooms {
        return Refused(DatabaseError);
      }
      gameTable := gameTable[g := GameRow(t, Active, None, None)];
      rooms := rooms[room := Some(g)];

      redis := redis[StateKey(g) := StateEntry(Expiring(initialState, now, engine.dataTTL))];
      redis := redis[MetaKey(g) := MetaEntry(Expiring(Meta(t, p), now, engine.dataTTL))];
      HoldsStarted(old(redis), old(gameTable), moveTable, world.games, g, NewGame(engine, Meta(t, p), now));
      world := Games.StartGame(registry, world, room, t, p, g, dbUp).0;
      return Started(g, initialState);
    }

    /** GET of a state key. */
    method GetStateKey(g: GameId) returns (s: Option<S>)
      requires Valid()
      ensures s == if g in world.games && Live(world.games[g].state, now)
                   then Some(world.games[g].state.value.value) else None
    {
      assert KeysOf(redis, g) == KeysFor(world.games, g);
      var k := StateKey(g);
      return if k in redis && redis[k].StateEntry? && now < redis[k].state.expiry then Some(redis[k].state.value)
             else None;
    }

    /** GET of a metadata key. */
    method GetMetaKey(g: GameId) returns (m: Option<Meta>)
      requires Valid()
      ensures m == if g in world.games && Live(world.games[g].meta, now)
                   then Some(world.games[g].meta.value.value) else None
    {
      assert KeysOf(redis, g) == KeysFor(world.games, g);
      var k := MetaKey(g);
      return if k in redis && redis[k].MetaEntry? && now < redis[k].meta.expiry then Some(redis[k].meta.value)
             else None;
    }

    /** LRANGE 0 -1 of a moves key. */
    method ReadMoves(g: GameId) returns (log: seq<StoredMove<A>>)
      requires Valid() && g in world.games
      ensures log == world.games[g].moves
    {
      assert KeysOf(redis, g) == KeysFor(world.games, g);
      var k := MovesKey(g);
      return if k in redis && redis[k].ListEntry? then redis[k].items else [];
    }

    method MakeMove(g: GameId, user: PlayerId, action: A, dbUp: bool) returns (reply: Reply<S, A>)
      requires Valid()
      modifies this
      ensures Valid()
      ensures (world, reply) == Games.MakeMove(registry, old(world), g, user, action, dbUp)
    {
      var stored := GetStateKey(g);
      if stored.None? {
        return Refused(GameNotFound);
      }
      var meta := GetMetaKey(g);
      if meta.None? {
        return Refused(MetadataNotFound);
      }
      if meta.value.gameType !in registry {
        return Refused(NoEngine);
      }
      var engine := registry[meta.value.gameType];
      if !engine.isValidMove(stored.value, user, action) {
        return Refused(InvalidMove);
      }
      var (nextState, result) := engine.applyMove(stored.value, user, action);

      WriteMove(g, engine.dataTTL, nextState, meta.value, StoredMove(user, action));
      if result.Some? {
        var ended := EndGame(g, result.value, dbUp);
        return if ended.Done? then Moved(nextState, result) else ended;
      }
      return Moved(nextState, None);
    }

    /** SET of the state, EXPIRE of the metadata and RPUSH of the move. */
    method WriteMove(g: GameId, ttl: nat, next: S, meta: Meta, m: StoredMove<A>)
      requires Valid() && g in world.games && Live(world.games[g].meta, now) && world.games[g].meta.value.value == meta
      modifies this`redis, this`world
      ensures Valid()
      ensures world == old(world).(games := old(world).games[g := CacheMove(old(world).games[g], now, ttl, next, m)])
    {
      var log := ReadMoves(g);
      redis := redis[StateKey(g) := StateEntry(Expiring(next, now, ttl))];
      // EXPIRE: the key is live, so it keeps its value and gets a new expiry.
      redis := redis[MetaKey(g) := MetaEntry(Expiring(meta, now, ttl))];
      redis := redis[MovesKey(g) := ListEntry(log + [m])];
      ghost var gm := CacheMove(world.games[g], now, ttl, next, m);
      HoldsMoved(old(redis), gameTable, moveTable, world.games, g, gm);
      world := world.(games := world.games[g := gm]);
    }

    method EndGame(g: GameId, result: GameResult, dbUp: bool) returns (reply: Reply<S, A>)
      requires Valid() && g in world.games
      modifies this
      ensures Valid()
      ensures (world, reply) == Games.EndGame(old(world), g, result, dbUp)
    {
      var log := ReadMoves(g);
      var finished := Finish(g, result, log, dbUp);
      if !finished {
        HoldsFailed(redis, gameTable, moveTable, world.games, g);
        world := Games.EndGame(world, g, result, dbUp).0;
        return Refused(DatabaseError);
      }
      HoldsDropped(redis, old(gameTable), old(moveTable), world.games, g, FinishGame(world.games[g], g, now, result),
                   log);
      redis := redis - {StateKey(g), MovesKey(g), MetaKey(g)};
      world := Games.EndGame(world, g, result, dbUp).0;
      return Done;
    }

    /** The repository transaction of finish: game row, move rows, room pointer; all or nothing. */
    method Finish(g: GameId, result: GameResult, moves: seq<StoredMove<A>>, dbUp: bool) returns (ok: bool)
      requires g in gameTable && (world.rooms, world.users) == (rooms, users)
      modifies this`gameTable, this`moveTable, this`rooms
      ensures ok == CanFinish(world, g, moves, dbUp)
      ensures !ok ==> (gameTable, moveTable, rooms) == old((gameTable, moveTable, rooms))
      ensures ok ==> gameTable == old(gameTable)[g := old(gameTable)[g].(status := Finished, result := Some(result),
                                                                         finishedAt := Some(now))]
      ensures ok ==> moveTable == old(moveTable) + Numbered(g, moves)
      ensures ok ==> rooms == ClearPointer(old(rooms), g)
    {
      if !dbUp || (exists i | 0 <= i < |moves| :: moves[i].userId !in users)
         || !exists r | r in rooms :: rooms[r] == Some(g) {
        return false;
      }
      gameTable := gameTable[g := gameTable[g].(status := Finished, result := Some(result), finishedAt := Some(now))];
      InsertMoves(g, moves);
      rooms := ClearPointer(rooms, g);
      return true;
    }

    /** createMany: one row for each move, with its index as the sequence number. */
    method InsertMoves(g: GameId, moves: seq<StoredMove<A>>)
      modifies this`moveTable
      ensures moveTable == old(moveTable) + Numbered(g, moves)
    {
      for i := 0 to |moves|
        invariant moveTable == old(moveTable) + Numbered(g, moves[..i])
      {
        moveTable := moveTable + [MoveRow(g, i, moves[i])];
        assert Numbered(g, moves[..i + 1]) == Numbered(g, moves[..i]) + [MoveRow(g, i, moves[i])];
      }
      assert moves[..|moves|] == moves;
    }

    method AbandonGame(g: GameId, dbUp: bool) returns (reply: Reply<S, A>)
      requires Valid()
      modifies this
      ensures Valid()
      ensures (world, reply) == Games.AbandonGame(old(world), g, dbUp)
    {
      if !dbUp || g !in gameTable {
        return Refused(DatabaseError);
      }
      HoldsDropped(redis, gameTable, moveTable, world.games, g, AbandonedGame(world.games[g], now), []);
      assert moveTable + Numbered(g, []) == moveTable;
      assert world.games[g].rows + Numbered(g, []) == world.games[g].rows;
      gameTable := gameTable[g := gameTable[g].(status := Abandoned, finishedAt := Some(now))];
      redis := redis - {StateKey(g), MovesKey(g), MetaKey(g)};
      world := Games.AbandonGame(world, g, dbUp).0;
      return Done;
    }

    method GetState(g: GameId, dbUp: bool) returns (reply: Reply<S, A>)
      requires Valid()
      modifies this
      ensures Valid()
      ensures (world, reply) == Games.GetState(old(world), g, dbUp)
    {
      var stored := GetStateKey(g);
      if stored.None? {
        var abandoned := AbandonGame(g, dbUp);
        return if abandoned.Done? then Refused(StateExpired) else abandoned;
      }
      var log := ReadMoves(g);
      return Shown(stored.value, log);
    }
  }
}
