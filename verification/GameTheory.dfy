/**
 What holds of the game service in every run, with any engines, any number of games, time passing and keys expiring.
 */
module GameTheory {
  import opened Basics
  import opened GameEngine
  import opened Games

  // ---------- The invariant ----------

  /** The log stored in numbered rows. */
  function LogIn<A>(rows: seq<MoveRow<A>>): seq<StoredMove<A>> {
    seq(|rows|, i requires 0 <= i < |rows| => rows[i].move)
  }

  /**
   A game with a state key: it is active with no rows, its metadata are the ones it was started with and expire
   together with the state, and the cached state is the replay of its whole log, every move of which was legal.
   Some move of the log has reported a result exactly when some finish of the game has thrown.
   */
  ghost predicate Cached<S, A>(reg: Registry<S, A>, gm: Game<S, A>)
    requires gm.state.Some?
  {
    && gm.meta == Some(Timed(gm.origin, gm.state.value.expiry))
    && gm.row == GameRow(gm.origin.gameType, Active, None, None)
    && gm.rows == []
    && gm.origin.gameType in reg
    && var e := reg[gm.origin.gameType];
       && LegalMoves(e, gm.origin.players, gm.moves)
       && gm.state.value.value == Replay(e, gm.origin.players, gm.moves)
       && (gm.failed <==> !Open(e, gm.origin.players, gm.moves))
  }

  /**
   The stored record of a finished game: rows numbered 0 to n-1 that hold a log of legal moves ending in the stored
   result. An earlier move had already reported a result exactly when an earlier finish had thrown.
   */
  ghost predicate Recorded<S, A>(e: Engine<S, A>, p: Players, rows: seq<MoveRow<A>>, g: GameId, result: GameResult,
                                 overran: bool)
  {
    var log := LogIn(rows);
    && rows == Numbered(g, log)
    && log != []
    && LegalMoves(e, p, log)
    && ResultOf(e, p, log) == Some(result)
    && (overran <==> !Open(e, p, log[..|log| - 1]))
  }

  /**
   A game without a state key: it has no keys at all, is no longer active, and its rows are the record of its result.
   */
  ghost predicate Settled<S, A>(reg: Registry<S, A>, g: GameId, gm: Game<S, A>) {
    && gm.meta == None && gm.moves == []
    && gm.row.gameType == gm.origin.gameType
    && !gm.row.status.Active?
    && (gm.row.status.Finished? ==> gm.row.result.Some?)
    && gm.origin.gameType in reg
    && match gm.row.result
       case None => gm.rows == []
       case Some(result) =>
         Recorded(reg[gm.origin.gameType], gm.origin.players, gm.rows, g, result, gm.failed)
  }

  ghost predicate Sound<S, A>(reg: Registry<S, A>, g: GameId, gm: Game<S, A>) {
    if gm.state.Some? then Cached(reg, gm) else Settled(reg, g, gm)
  }

  /** Rooms point at existing games, and no game is the current game of two rooms. */
  ghost predicate RoomsSound<S, A>(w: World<S, A>) {
    && (forall r | r in w.rooms && w.rooms[r].Some? :: w.rooms[r].value in w.games)
    && (forall r, r' | r in w.rooms && r' in w.rooms && w.rooms[r].Some? && w.rooms[r] == w.rooms[r'] :: r == r')
  }

  ghost predicate Consistent<S, A>(reg: Registry<S, A>, w: World<S, A>) {
    && RoomsSound(w)
    && forall g | g in w.games :: Sound(reg, g, w.games[g])
  }

  // ---------- Every step keeps it ----------

  lemma {:induction false} NewGameSound<S, A>(reg: Registry<S, A>, g: GameId, meta: Meta, now: int)
    requires meta.gameType in reg
    ensures Sound(reg, g, NewGame(reg[meta.gameType], meta, now))
  {
  }

  /** Caching one more legal move keeps the cache equal to the replay of the log. */
  lemma {:induction false} CacheMoveExtends<S, A>(reg: Registry<S, A>, gm: Game<S, A>, now: int, m: StoredMove<A>)
    requires Live(gm.state, now) && Cached(reg, gm)
    requires reg[gm.origin.gameType].isValidMove(gm.state.value.value, m.userId, m.action)
    ensures var e, p := reg[gm.origin.gameType], gm.origin.players;
            var (next, result) := e.applyMove(gm.state.value.value, m.userId, m.action);
            var gm' := CacheMove(gm, now, e.dataTTL, next, m);
            && LegalMoves(e, p, gm'.moves)
            && next == Replay(e, p, gm'.moves)
            && result == ResultOf(e, p, gm'.moves)
            && (gm.failed <==> !Open(e, p, gm'.moves[..|gm.moves|]))
            && (result == None ==> Cached(reg, gm'))
            && (result != None ==> Cached(reg, gm'.(failed := true)))
  {
    AppendMove(reg[gm.origin.gameType], gm.origin.players, gm.moves, m);
    assert (gm.moves + [m])[..|gm.moves|] == gm.moves;
  }

  /** Finishing a game whose last move has reported the result leaves a settled game with its record. */
  lemma {:induction false} FinishSettles<S, A>(reg: Registry<S, A>, g: GameId, gm: Game<S, A>, now: int,
                                               result: GameResult)
    requires gm.origin.gameType in reg && gm.row.gameType == gm.origin.gameType && gm.rows == [] && gm.moves != []
    requires var e, p := reg[gm.origin.gameType], gm.origin.players;
             && LegalMoves(e, p, gm.moves)
             && ResultOf(e, p, gm.moves) == Some(result)
             && (gm.failed <==> !Open(e, p, gm.moves[..|gm.moves| - 1]))
    ensures Sound(reg, g, FinishGame(gm, g, now, result))
  {
    assert gm.rows + Numbered(g, gm.moves) == Numbered(g, gm.moves);
    assert LogIn(Numbered(g, gm.moves)) == gm.moves;
  }

  /** Replacing one game by a sound one, and at most clearing its pointer, keeps the world consistent. */
  lemma {:induction false} PutKeeps<S, A>(reg: Registry<S, A>, w: World<S, A>, g: GameId, gm: Game<S, A>,
                                          rooms: map<RoomId, Option<GameId>>)
    requires Consistent(reg, w) && Sound(reg, g, gm) && g in w.games
    requires rooms == w.rooms || rooms == ClearPointer(w.rooms, g)
    ensures Consistent(reg, w.(games := w.games[g := gm], rooms := rooms))
  {
  }

  /** A valid move replaces the game and at most clears its pointer. */
  lemma {:induction false} PlayMoveShape<S, A>(e: Engine<S, A>, w: World<S, A>, g: GameId, m: StoredMove<A>, dbUp: bool)
    requires g in w.games && w.games[g].state.Some?
    ensures var w' := PlayMove(e, w, g, m, dbUp).0;
            var (next, result) := e.applyMove(w.games[g].state.value.value, m.userId, m.action);
            var gm := CacheMove(w.games[g], w.now, e.dataTTL, next, m);
            var stored := result != None && CanFinish(w, g, gm.moves, dbUp);
            && w'.games == w.games[g := if result == None then gm
                                        else if stored then FinishGame(gm, g, w.now, result.value)
                                        else gm.(failed := true)]
            && w'.rooms == (if stored then ClearPointer(w.rooms, g) else w.rooms)
            && (w'.now, w'.users) == (w.now, w.users)
  {
  }

  /** A valid move on a sound game leaves it sound, whether or not it ends the game and whether or not finish throws. */
  lemma {:induction false} PlayMoveSound<S, A>(reg: Registry<S, A>, w: World<S, A>, g: GameId, m: StoredMove<A>,
                                               dbUp: bool)
    requires g in w.games && Live(w.games[g].state, w.now) && Sound(reg, g, w.games[g])
    requires reg[w.games[g].origin.gameType].isValidMove(w.games[g].state.value.value, m.userId, m.action)
    ensures Sound(reg, g, PlayMove(reg[w.games[g].origin.gameType], w, g, m, dbUp).0.games[g])
  {
    var e, gm := reg[w.games[g].origin.gameType], w.games[g];
    CacheMoveExtends(reg, gm, w.now, m);
    PlayMoveShape(e, w, g, m, dbUp);
    var (next, result) := e.applyMove(gm.state.value.value, m.userId, m.action);
    if result != None {
      FinishSettles(reg, g, CacheMove(gm, w.now, e.dataTTL, next, m), w.now, result.value);
    }
  }

  lemma {:induction false} MoveKeeps<S, A>(reg: Registry<S, A>, w: World<S, A>, g: GameId, user: PlayerId, action: A,
                                           dbUp: bool)
    requires Consistent(reg, w)
    ensures Consistent(reg, MakeMove(reg, w, g, user, action, dbUp).0)
  {
    if g in w.games && Live(w.games[g].state, w.now) {
      assert Sound(reg, g, w.games[g]);
      var e := reg[w.games[g].origin.gameType];
      if e.isValidMove(w.games[g].state.value.value, user, action) {
        PlayMoveSound(reg, w, g, StoredMove(user, action), dbUp);
        PlayMoveShape(e, w, g, StoredMove(user, action), dbUp);
        var w' := PlayMove(e, w, g, StoredMove(user, action), dbUp).0;
        PutKeeps(reg, w, g, w'.games[g], w'.rooms);
      }
    }
  }

  lemma {:induction false} StartKeeps<S, A>(reg: Registry<S, A>, w: World<S, A>, room: RoomId, t: GameType, p: Players,
                                            g: GameId, dbUp: bool)
    requires Consistent(reg, w)
    ensures Consistent(reg, StartGame(reg, w, room, t, p, g, dbUp).0)
  {
    if t in reg {
      NewGameSound(reg, g, Meta(t, p), w.now);
    }
  }

  lemma {:induction false} AbandonKeeps<S, A>(reg: Registry<S, A>, w: World<S, A>, g: GameId, dbUp: bool)
    requires Consistent(reg, w)
    ensures Consistent(reg, AbandonGame(w, g, dbUp).0)
  {
    assert g in w.games ==> Sound(reg, g, w.games[g]);
  }

  /** Every call, and time, and rooms coming and going keep the world consistent. */
  lemma {:induction false} StepKeeps<S, A>(reg: Registry<S, A>, w: World<S, A>, c: Call<A>)
    requires Consistent(reg, w)
    ensures Consistent(reg, Step(reg, w, c).0)
  {
    match c
    case Start(r, t, p, g, up) => StartKeeps(reg, w, r, t, p, g, up);
    case Move(g, u, a, up) => MoveKeeps(reg, w, g, u, a, up);
    case Get(g, up) => AbandonKeeps(reg, w, g, up);
    case Abandon(g, up) => AbandonKeeps(reg, w, g, up);
    case _ =>
  }

  /** Every run keeps the world consistent; a world without games and without room pointers is. */
  lemma {:induction false} RunKeeps<S, A>(reg: Registry<S, A>, w: World<S, A>, calls: seq<Call<A>>)
    requires Consistent(reg, w)
    ensures Consistent(reg, Run(reg, w, calls))
    decreases |calls|
  {
    if calls != [] {
      StepKeeps(reg, w, calls[0]);
      RunKeeps(reg, Step(reg, w, calls[0]).0, calls[1..]);
    }
  }
}
