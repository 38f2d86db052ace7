/**
 The game service as a state machine: Redis keys per game, database rows, and one function per service call.
 Generic in the engine. The service class is proved to follow these functions in GameService.dfy.
 */
module Games {
  import opened Basics
  import opened GameEngine

  type GameId = string
  type RoomId = string
  type GameType = string

  type Registry<!S, !A> = map<GameType, Engine<S, A>>

  datatype Meta = Meta(gameType: GameType, players: Players)

  /** A Redis value with its expiry instant in milliseconds. */
  datatype Timed<+V> = Timed(value: V, expiry: int)

  datatype GameStatus = Active | Finished | Abandoned

  datatype GameRow = GameRow(
    gameType: GameType, status: GameStatus, result: Option<GameResult>, finishedAt: Option<int>)

  datatype MoveRow<A> = MoveRow(gameId: GameId, sequence: nat, move: StoredMove<A>)

  /**
   Everything kept about one game. `row` and `rows` are its database row and its Move rows; `state`, `meta` and
   `moves` are its three Redis keys, of which the list carries no TTL and reads as empty when it is missing.
   `origin` and `failed` are history: how the game was started, and whether some `finish` of it has thrown.
   */
  datatype Game<S, A> = Game(
    row: GameRow,
    rows: seq<MoveRow<A>>,
    state: Option<Timed<S>>,
    meta: Option<Timed<Meta>>,
    moves: seq<StoredMove<A>>,
    origin: Meta,
    failed: bool)

  /** The clock in milliseconds, the games, each room's current game, and the ids in the user table. */
  datatype World<S, A> = World(
    now: int,
    games: map<GameId, Game<S, A>>,
    rooms: map<RoomId, Option<GameId>>,
    users: set<PlayerId>)

  datatype GameError =
    | NoEngine | DatabaseError | GameNotFound | MetadataNotFound | InvalidMove | StateExpired

  datatype Reply<S, A> =
    | Started(gameId: GameId, initial: S)
    | Moved(next: S, result: Option<GameResult>)
    | Shown(current: S, log: seq<StoredMove<A>>)
    | Done
    | Refused(error: GameError)

  /** A key answers only before its expiry. */
  predicate Live<V>(key: Option<Timed<V>>, now: int) {
    key.Some? && now < key.value.expiry
  }

  /** SET key value EX ttl. */
  function Expiring<V>(v: V, now: int, ttl: nat): Timed<V> {
    Timed(v, now + 1000 * ttl)
  }

  /** The rows createMany writes for a log: numbered in log order. */
  function Numbered<A>(g: GameId, log: seq<StoredMove<A>>): seq<MoveRow<A>> {
    seq(|log|, i requires 0 <= i < |log| => MoveRow(g, i, log[i]))
  }

  // ---------- One game ----------

  /** DEL of the three keys. */
  function DropKeys<S, A>(gm: Game<S, A>): Game<S, A> {
    gm.(state := None, meta := None, moves := [])
  }

  /** A new active row, then the state and metadata keys. */
  function NewGame<S, A>(e: Engine<S, A>, meta: Meta, now: int): Game<S, A> {
    Game(GameRow(meta.gameType, Active, None, None), [],
         Some(Expiring(e.init(meta.players), now, e.dataTTL)), Some(Expiring(meta, now, e.dataTTL)), [], meta, false)
  }

  /** The cache after a move: new state, renewed metadata, longer log. */
  function CacheMove<S, A>(gm: Game<S, A>, now: int, ttl: nat, next: S, m: StoredMove<A>): Game<S, A> {
    gm.(state := Some(Expiring(next, now, ttl)),
        meta := if Live(gm.meta, now) then Some(Expiring(gm.meta.value.value, now, ttl)) else gm.meta,
        moves := gm.moves + [m])
  }

  /** The rows after finish's transaction, then no keys. */
  function FinishGame<S, A>(gm: Game<S, A>, g: GameId, now: int, result: GameResult): Game<S, A> {
    DropKeys(gm.(row := gm.row.(status := Finished, result := Some(result), finishedAt := Some(now)),
                 rows := gm.rows + Numbered(g, gm.moves)))
  }

  function AbandonedGame<S, A>(gm: Game<S, A>, now: int): Game<S, A> {
    DropKeys(gm.(row := gm.row.(status := Abandoned, finishedAt := Some(now))))
  }

  // ---------- Service calls ----------

  /** Some room has g as its current game. */
  predicate Pointed(rooms: map<RoomId, Option<GameId>>, g: GameId) {
    exists r | r in rooms :: rooms[r] == Some(g)
  }

  /** The room update of finish: the column is unique, so this clears at most one room. */
  function ClearPointer(rooms: map<RoomId, Option<GameId>>, g: GameId): map<RoomId, Option<GameId>> {
    map r | r in rooms :: if rooms[r] == Some(g) then None else rooms[r]
  }

  /** The transaction of finish goes through: every mover has a user row and some room points at the game. */
  predicate CanFinish<S, A>(w: World<S, A>, g: GameId, log: seq<StoredMove<A>>, dbUp: bool) {
    && dbUp
    && (forall i | 0 <= i < |log| :: log[i].userId in w.users)
    && Pointed(w.rooms, g)
  }

  function StartGame<S, A>(reg: Registry<S, A>, w: World<S, A>, room: RoomId, t: GameType, p: Players, g: GameId,
                           dbUp: bool): (World<S, A>, Reply<S, A>)
  {
    if t !in reg then (w, Refused(NoEngine))
    else if !dbUp || g in w.games || room !in w.rooms then (w, Refused(DatabaseError))
    else
      (w.(games := w.games[g := NewGame(reg[t], Meta(t, p), w.now)], rooms := w.rooms[room := Some(g)]),
       Started(g, reg[t].init(p)))
  }

  /** Writes the result and the whole log, then drops the keys; a failing transaction leaves everything. */
  function EndGame<S, A>(w: World<S, A>, g: GameId, result: GameResult, dbUp: bool): (World<S, A>, Reply<S, A>)
    requires g in w.games
  {
    var gm := w.games[g];
    if CanFinish(w, g, gm.moves, dbUp) then
      (w.(games := w.games[g := FinishGame(gm, g, w.now, result)], rooms := ClearPointer(w.rooms, g)), Done)
    else
      (w.(games := w.games[g := gm.(failed := true)]), Refused(DatabaseError))
  }

  /** A valid move: the new state goes to the cache, and a result ends the game. */
  function PlayMove<S, A>(e: Engine<S, A>, w: World<S, A>, g: GameId, m: StoredMove<A>, dbUp: bool)
    : (World<S, A>, Reply<S, A>)
    requires g in w.games && w.games[g].state.Some?
  {
    var (next, result) := e.applyMove(w.games[g].state.value.value, m.userId, m.action);
    var w1 := w.(games := w.games[g := CacheMove(w.games[g], w.now, e.dataTTL, next, m)]);
    if result == None then (w1, Moved(next, None))
    else
      var (w2, reply) := EndGame(w1, g, result.value, dbUp);
      (w2, if reply.Done? then Moved(next, result) else reply)
  }

  function MakeMove<S, A>(reg: Registry<S, A>, w: World<S, A>, g: GameId, user: PlayerId, action: A, dbUp: bool)
    : (World<S, A>, Reply<S, A>)
  {
    if g !in w.games || !Live(w.games[g].state, w.now) then (w, Refused(GameNotFound))
    else if !Live(w.games[g].meta, w.now) then (w, Refused(MetadataNotFound))
    else
      var gm := w.games[g];
      if gm.meta.value.value.gameType !in reg then (w, Refused(NoEngine))
      else
        var e := reg[gm.meta.value.value.gameType];
        if !e.isValidMove(gm.state.value.value, user, action) then (w, Refused(InvalidMove))
        else PlayMove(e, w, g, StoredMove(user, action), dbUp)
  }

  function AbandonGame<S, A>(w: World<S, A>, g: GameId, dbUp: bool): (World<S, A>, Reply<S, A>) {
    if dbUp && g in w.games then (w.(games := w.games[g := AbandonedGame(w.games[g], w.now)]), Done)
    else (w, Refused(DatabaseError))
  }

  function GetState<S, A>(w: World<S, A>, g: GameId, dbUp: bool): (World<S, A>, Reply<S, A>) {
    if g in w.games && Live(w.games[g].state, w.now) then
      (w, Shown(w.games[g].state.value.value, w.games[g].moves))
    else
      var (w1, reply) := AbandonGame(w, g, dbUp);
      (w1, if reply.Done? then Refused(StateExpired) else reply)
  }

  // ---------- Runs ----------

  /**
   One step of a run: a service call, time passing, or rooms and users coming and rooms going outside this service.
   */
  datatype Call<A> =
    | Start(room: RoomId, gameType: GameType, players: Players, id: GameId, dbUp: bool)
    | Move(game: GameId, user: PlayerId, action: A, dbUp: bool)
    | Get(game: GameId, dbUp: bool)
    | Abandon(game: GameId, dbUp: bool)
    | Tick(ms: nat)
    | OpenRoom(room: RoomId)
    | DropRoom(room: RoomId)
    | NewUser(user: PlayerId)

  function Step<S, A>(reg: Registry<S, A>, w: World<S, A>, c: Call<A>): (World<S, A>, Reply<S, A>) {
    match c
    case Start(r, t, p, g, up) => StartGame(reg, w, r, t, p, g, up)
    case Move(g, u, a, up) => MakeMove(reg, w, g, u, a, up)
    case Get(g, up) => GetState(w, g, up)
    case Abandon(g, up) => AbandonGame(w, g, up)
    case Tick(ms) => (w.(now := w.now + ms), Done)
    case OpenRoom(r) => (if r in w.rooms then w else w.(rooms := w.rooms[r := None]), Done)
    case DropRoom(r) => (w.(rooms := w.rooms - {r}), Done)
    case NewUser(u) => (w.(users := w.users + {u}), Done)
  }

  /** The world after a sequence of steps. */
  function Run<S, A>(reg: Registry<S, A>, w: World<S, A>, calls: seq<Call<A>>): World<S, A>
    decreases |calls|
  {
    if calls == [] then w else Run(reg, Step(reg, w, calls[0]).0, calls[1..])
  }
}
