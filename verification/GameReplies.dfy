/** What callers of the game service are told, over every run, in terms of the moves made so far. */
module GameReplies {
  import opened Basics
  import opened GameEngine
  import opened Games
  import opened GameTheory
  import opened GameRuns
  import opened GameCompleteness

  /** The game is there and its state key answers. */
  predicate IsLive<S, A>(w: World<S, A>, g: GameId) {
    g in w.games && Live(w.games[g].state, w.now)
  }

  // ---------- Starting ----------

  /**
   A game is started, with the engine's initial state as the replay of no moves, exactly when there is an engine for the
   type, and the database answers, has the room and has not used the id; a refused start changes nothing.
   */
  lemma {:induction false} StartAnswer<S, A>(reg: Registry<S, A>, w: World<S, A>, room: RoomId, t: GameType, p: Players,
                                             g: GameId, dbUp: bool)
    ensures var (w', reply) := StartGame(reg, w, room, t, p, g, dbUp);
            if t !in reg then reply == Refused(NoEngine) && w' == w
            else if dbUp && room in w.rooms && g !in w.games then
              && reply == Started(g, Replay(reg[t], p, []))
              && g in w'.games && w'.games[g].row == GameRow(t, Active, None, None)
              && w'.rooms == w.rooms[room := Some(g)]
            else reply == Refused(DatabaseError) && w' == w
  {
  }

  // ---------- Moves ----------

  /** The database can store a game with this log: it answers, knows all movers, and a room points at the game. */
  ghost predicate Storable<S, A>(w: World<S, A>, g: GameId, log: seq<StoredMove<A>>, dbUp: bool) {
    && dbUp
    && (forall i | 0 <= i < |log| :: log[i].userId in w.users)
    && exists r | r in w.rooms :: w.rooms[r] == Some(g)
  }

  /** A live game after a run, told from the moves of the run: the engine's replay of them is the cached state. */
  lemma {:induction false} LiveGame<S, A>(reg: Registry<S, A>, w0: World<S, A>, calls: seq<Call<A>>, g: GameId)
    requires Opening(w0) && IsLive(Run(reg, w0, calls), g)
    ensures var w, log := Run(reg, w0, calls), Played(reg, w0, calls, g);
            var gm := w.games[g];
            && Cached(reg, gm) && Live(gm.meta, w.now)
            && gm.moves == log
            && gm.state.value.value == Replay(reg[gm.origin.gameType], gm.origin.players, log)
  {
    var w := Run(reg, w0, calls);
    RunKeeps(reg, w0, calls);
    LogIsPlayed(reg, w0, calls, g);
    assert Sound(reg, g, w.games[g]);
    assert LogOf(w0, g) == Some([]) && LogOf(w, g) == Some(w.games[g].moves);
  }

  /** One move on a live game: what it is answered, in terms of the log it is to extend. */
  lemma {:induction false} LiveMove<S, A>(reg: Registry<S, A>, w: World<S, A>, g: GameId, user: PlayerId, action: A,
                                          dbUp: bool)
    requires IsLive(w, g) && Cached(reg, w.games[g]) && Live(w.games[g].meta, w.now)
    ensures var gm := w.games[g];
            var e, p, log := reg[gm.origin.gameType], gm.origin.players, gm.moves + [StoredMove(user, action)];
            MakeMove(reg, w, g, user, action, dbUp).1 ==
              if !LegalMoves(e, p, log) then Refused(InvalidMove)
              else if ResultOf(e, p, log) == None || Storable(w, g, log, dbUp) then
                Moved(Replay(e, p, log), ResultOf(e, p, log))
              else Refused(DatabaseError)
  {
    var gm := w.games[g];
    AppendMove(reg[gm.origin.gameType], gm.origin.players, gm.moves, StoredMove(user, action));
  }

  /**
   Over every run, what a move is answered. With the moves made so far and this one as the log: a game that is not live
   is not found; an illegal log is an invalid move; otherwise the caller gets the replay of the log and the result its
   last move reports, unless that result cannot be stored.
   */
  lemma {:induction false} MoveAnswer<S, A>(reg: Registry<S, A>, w0: World<S, A>, calls: seq<Call<A>>, g: GameId,
                                            user: PlayerId, action: A, dbUp: bool)
    requires Opening(w0)
    ensures var w, log := Run(reg, w0, calls), Played(reg, w0, calls, g) + [StoredMove(user, action)];
            var reply := MakeMove(reg, w, g, user, action, dbUp).1;
            if !IsLive(w, g) then reply == Refused(GameNotFound)
            else
              && w.games[g].origin.gameType in reg
              && var e, p := reg[w.games[g].origin.gameType], w.games[g].origin.players;
                 reply ==
                   if !LegalMoves(e, p, log) then Refused(InvalidMove)
                   else if ResultOf(e, p, log) == None || Storable(w, g, log, dbUp) then
                     Moved(Replay(e, p, log), ResultOf(e, p, log))
                   else Refused(DatabaseError)
  {
    if IsLive(Run(reg, w0, calls), g) {
      LiveGame(reg, w0, calls, g);
      LiveMove(reg, Run(reg, w0, calls), g, user, action, dbUp);
    }
  }

  // ---------- Asking for the state ----------

  /**
   Over every run, what asking for a state is answered. A live game is shown, as the replay of the moves made so far and
   with these moves, and nothing changes. Any other game the database has is marked abandoned, its result, its rows and
   all other games and rooms kept; without a game or a database nothing changes.
   */
  lemma {:induction false} StateAnswer<S, A>(reg: Registry<S, A>, w0: World<S, A>, calls: seq<Call<A>>, g: GameId,
                                             dbUp: bool)
    requires Opening(w0)
    ensures var w, log := Run(reg, w0, calls), Played(reg, w0, calls, g);
            var (w', reply) := GetState(w, g, dbUp);
            if IsLive(w, g) then
              && w' == w
              && w.games[g].origin.gameType in reg
              && reply == Shown(Replay(reg[w.games[g].origin.gameType], w.games[g].origin.players, log), log)
            else if dbUp && g in w.games then
              reply == Refused(StateExpired) && MarkedAbandoned(w, w', g)
            else
              reply == Refused(DatabaseError) && w' == w
  {
    if IsLive(Run(reg, w0, calls), g) {
      LiveGame(reg, w0, calls, g);
    }
  }

  /** The game has no keys and is marked abandoned now, with its result and rows kept; nothing else has changed. */
  ghost predicate MarkedAbandoned<S, A>(w: World<S, A>, w': World<S, A>, g: GameId) {
    && g in w.games && w'.games.Keys == w.games.Keys
    && (w'.now, w'.rooms, w'.users) == (w.now, w.rooms, w.users)
    && (forall h | h in w.games && h != g :: w'.games[h] == w.games[h])
    && var gm, gm' := w.games[g], w'.games[g];
       && gm'.state == None && gm'.meta == None && gm'.moves == []
       && gm'.row.status == GameStatus.Abandoned && gm'.row.finishedAt == Some(w.now)
       && (gm'.row.gameType, gm'.row.result, gm'.rows) == (gm.row.gameType, gm.row.result, gm.rows)
       && (gm'.origin, gm'.failed) == (gm.origin, gm.failed)
  }

  /** Abandoning does so exactly when the database answers and has the game, live or not. */
  lemma {:induction false} AbandonAnswer<S, A>(w: World<S, A>, g: GameId, dbUp: bool)
    ensures var (w', reply) := AbandonGame(w, g, dbUp);
            if dbUp && g in w.games then reply == Done && MarkedAbandoned(w, w', g)
            else reply == Refused(DatabaseError) && w' == w
  {
  }

  // ---------- Rooms ----------

  /** A step gives a game a result only by taking it out of every room. */
  lemma {:induction false} ResultFrees<S, A>(reg: Registry<S, A>, w: World<S, A>, c: Call<A>, g: GameId)
    requires g in w.games && Sound(reg, g, w.games[g])
    requires w.games[g].row.result == None && Step(reg, w, c).0.games[g].row.result.Some?
    ensures !Pointed(Step(reg, w, c).0.rooms, g)
  {
    if c.Move? && c.game == g && IsLive(w, g) {
      PlayMoveShape(reg[w.games[g].origin.gameType], w, g, StoredMove(c.user, c.action), c.dbUp);
    } else if c.Move? && c.game != g {
      MoveElsewhere(reg, w, c, g);
    }
  }

  /** Over every run, a game with a result is the current game of no room: its finish has freed the room. */
  lemma {:induction false} FinishedFreesRoom<S, A>(reg: Registry<S, A>, w: World<S, A>, calls: seq<Call<A>>, g: GameId)
    requires Consistent(reg, w)
    requires g in w.games && w.games[g].row.result.Some? ==> !Pointed(w.rooms, g)
    ensures var w' := Run(reg, w, calls);
            g in w'.games && w'.games[g].row.result.Some? ==> !Pointed(w'.rooms, g)
    decreases |calls|
  {
    if calls != [] {
      var w1 := Step(reg, w, calls[0]).0;
      StepKeeps(reg, w, calls[0]);
      if g in w1.games && w1.games[g].row.result.Some? {
        StillFree(reg, w, calls[0], g);
      }
      FinishedFreesRoom(reg, w1, calls[1..], g);
    }
  }

  lemma {:induction false} StillFree<S, A>(reg: Registry<S, A>, w: World<S, A>, c: Call<A>, g: GameId)
    requires Consistent(reg, w)
    requires g in w.games && w.games[g].row.result.Some? ==> !Pointed(w.rooms, g)
    requires g in Step(reg, w, c).0.games && Step(reg, w, c).0.games[g].row.result.Some?
    ensures !Pointed(Step(reg, w, c).0.rooms, g)
  {
    if g in w.games {
      assert Sound(reg, g, w.games[g]);
      if w.games[g].row.result == None {
        ResultFrees(reg, w, c, g);
      } else if Pointed(Step(reg, w, c).0.rooms, g) {
        PointersOnlyAgeOut(reg, w, c, g);
      }
    }
  }

  /** Rooms and users are there from when they come, users for good and rooms until they go. */
  lemma {:induction false} RoomsAndUsers<S, A>(reg: Registry<S, A>, w: World<S, A>, c: Call<A>, room: RoomId,
                                               user: PlayerId)
    ensures var w' := Step(reg, w, c).0;
            && (room in w'.rooms <==> c == OpenRoom(room) || (room in w.rooms && c != DropRoom(room)))
            && (user in w'.users <==> c == NewUser(user) || user in w.users)
  {
  }

  // ---------- How long a game lives ----------

  /** Until when a game lives after a call, if it has been living until some instant. */
  ghost function Renewed<S, A>(reg: Registry<S, A>, w: World<S, A>, c: Call<A>, g: GameId, until: Option<int>)
    : Option<int>
  {
    var reply := Step(reg, w, c).1;
    if c.Start? && c.id == g && reply.Started? && c.gameType in reg then Some(w.now + 1000 * reg[c.gameType].dataTTL)
    else if c.Move? && c.game == g && reply.Moved? && reply.result.Some? then None
    else if c.Move? && c.game == g && (reply.Moved? || reply == Refused(DatabaseError))
            && g in w.games && w.games[g].origin.gameType in reg then
      Some(w.now + 1000 * reg[w.games[g].origin.gameType].dataTTL)
    else if c.Abandon? && c.game == g && reply.Done? then None
    else until
  }

  /**
   Told from the calls and their answers: dataTTL seconds after the start or the last move that got past validation;
   never for a game that has not been started, has been won or drawn, or has been abandoned.
   */
  ghost function LivesUntil<S, A>(reg: Registry<S, A>, w: World<S, A>, calls: seq<Call<A>>, g: GameId,
                                  until: Option<int>): Option<int>
    decreases |calls|
  {
    if calls == [] then until
    else LivesUntil(reg, Step(reg, w, calls[0]).0, calls[1..], g, Renewed(reg, w, calls[0], g, until))
  }

  /** A cached state expires at that instant, and without one that instant has passed. */
  ghost predicate InStep<S, A>(w: World<S, A>, g: GameId, until: Option<int>) {
    if g in w.games && w.games[g].state.Some? then until == Some(w.games[g].state.value.expiry)
    else until.Some? ==> until.value <= w.now
  }

  lemma {:induction false} MoveRenews<S, A>(reg: Registry<S, A>, w: World<S, A>, g: GameId, user: PlayerId, action: A,
                                            dbUp: bool, until: Option<int>)
    requires g in w.games && Sound(reg, g, w.games[g]) && InStep(w, g, until)
    ensures InStep(MakeMove(reg, w, g, user, action, dbUp).0, g,
                   Renewed(reg, w, Move(g, user, action, dbUp), g, until))
  {
    if IsLive(w, g) {
      PlayMoveShape(reg[w.games[g].origin.gameType], w, g, StoredMove(user, action), dbUp);
    }
  }

  lemma {:induction false} StepRenews<S, A>(reg: Registry<S, A>, w: World<S, A>, c: Call<A>, g: GameId,
                                            until: Option<int>)
    requires Consistent(reg, w) && InStep(w, g, until)
    ensures InStep(Step(reg, w, c).0, g, Renewed(reg, w, c, g, until))
  {
    if c.Move? && c.game == g && g in w.games {
      assert Sound(reg, g, w.games[g]);
      MoveRenews(reg, w, g, c.user, c.action, c.dbUp, until);
    } else if c.Move? && c.game != g {
      MoveElsewhere(reg, w, c, g);
    }
  }

  lemma {:induction false} RunRenews<S, A>(reg: Registry<S, A>, w: World<S, A>, calls: seq<Call<A>>, g: GameId,
                                           until: Option<int>)
    requires Consistent(reg, w) && InStep(w, g, until)
    ensures InStep(Run(reg, w, calls), g, LivesUntil(reg, w, calls, g, until))
    decreases |calls|
  {
    if calls != [] {
      StepKeeps(reg, w, calls[0]);
      StepRenews(reg, w, calls[0], g, until);
      RunRenews(reg, Step(reg, w, calls[0]).0, calls[1..], g, Renewed(reg, w, calls[0], g, until));
    }
  }

  /**
   Over every run a game is live exactly until dataTTL seconds after its start or its last move that got past
   validation, unless it has got its result or been abandoned.
   */
  lemma {:induction false} LiveExactlyUntil<S, A>(reg: Registry<S, A>, w0: World<S, A>, calls: seq<Call<A>>, g: GameId)
    requires Opening(w0)
    ensures var w, until := Run(reg, w0, calls), LivesUntil(reg, w0, calls, g, None);
            IsLive(w, g) <==> until.Some? && w.now < until.value
  {
    RunRenews(reg, w0, calls, g, None);
  }

  /** The moves of a log, each after a wait, with the database up. */
  function TimedMovesOf<A>(g: GameId, log: seq<StoredMove<A>>, waits: seq<nat>): seq<Call<A>>
    requires |waits| == |log|
  {
    if log == [] then []
    else [Tick(waits[0])] + ([Move(g, log[0].userId, log[0].action, true)] + TimedMovesOf(g, log[1..], waits[1..]))
  }

  /** Playing on with waits shorter than the TTL keeps the game live, and the TTL starts anew with every move. */
  lemma {:induction false} TimedPlay<S, A>(reg: Registry<S, A>, w: World<S, A>, g: GameId, done: seq<StoredMove<A>>,
                                           rest: seq<StoredMove<A>>, waits: seq<nat>)
    requires Playing(reg, w, g, done) && JustRenewed(reg, w, g)
    requires |waits| == |rest|
    requires var e, p := reg[w.games[g].origin.gameType], w.games[g].origin.players;
             && LegalMoves(e, p, done + rest) && Open(e, p, done + rest)
             && forall i | 0 <= i < |waits| :: waits[i] < 1000 * e.dataTTL
    ensures var w' := Run(reg, w, TimedMovesOf(g, rest, waits));
            && Playing(reg, w', g, done + rest) && JustRenewed(reg, w', g)
            && w'.games[g].origin == w.games[g].origin
    decreases |rest|
  {
    if rest == [] {
      assert done + rest == done;
    } else {
      var wait, m := Call<A>.Tick(waits[0]), rest[0];
      var move, later := Call<A>.Move(g, m.userId, m.action, true), TimedMovesOf(g, rest[1..], waits[1..]);
      var w1 := Step(reg, w, wait).0;
      FirstOfRest(reg[w.games[g].origin.gameType], w.games[g].origin.players, done, rest);
      MoveAccepted(reg, w1, g, done, m);
      assert forall i | 0 <= i < |waits[1..]| :: waits[1..][i] == waits[i + 1];
      TimedPlay(reg, Step(reg, w1, move).0, g, done + [m], rest[1..], waits[1..]);
      RunFirst(reg, w, wait, [move] + later);
      RunFirst(reg, w1, move, later);
    }
  }

  /**
   Told from the calls alone: a game is started, a legal log without a result is played with waits shorter than the TTL,
   and its state is asked for after one more wait. If that wait is shorter than the TTL too, the answer is the replay of
   the log with the log, and otherwise that the state has expired.
   */
  lemma {:induction false} PlayedThenAsked<S, A>(reg: Registry<S, A>, w: World<S, A>, room: RoomId, t: GameType,
                                                 p: Players, g: GameId, log: seq<StoredMove<A>>, waits: seq<nat>,
                                                 wait: nat)
    requires t in reg && reg[t].dataTTL > 0 && room in w.rooms && g !in w.games
    requires LegalMoves(reg[t], p, log) && Open(reg[t], p, log)
    requires |waits| == |log| && forall i | 0 <= i < |waits| :: waits[i] < 1000 * reg[t].dataTTL
    ensures StartGame(reg, w, room, t, p, g, true).1 == Started(g, reg[t].init(p))
    ensures var calls := [Start(room, t, p, g, true)] + (TimedMovesOf(g, log, waits) + [Tick(wait)]);
            GetState(Run(reg, w, calls), g, true).1 ==
              if wait < 1000 * reg[t].dataTTL then Shown(Replay(reg[t], p, log), log) else Refused(StateExpired)
  {
    var start, last := Call<A>.Start(room, t, p, g, true), Call<A>.Tick(wait);
    var moves := TimedMovesOf(g, log, waits);
    var w1 := Step(reg, w, start).0;
    StartPlays(reg, w, room, t, p, g);
    assert [] + log == log;
    TimedPlay(reg, w1, g, [], log, waits);
    RunFirst(reg, w, start, moves + [last]);
    RunAppend(reg, w1, moves, [last]);
    AskedLater(reg, Run(reg, w1, moves), g, log, wait);
  }

  /** Asking a while after the last renewal, with nothing in between. */
  lemma {:induction false} AskedLater<S, A>(reg: Registry<S, A>, w: World<S, A>, g: GameId, log: seq<StoredMove<A>>,
                                            wait: nat)
    requires Playing(reg, w, g, log) && JustRenewed(reg, w, g)
    ensures var e, p := reg[w.games[g].origin.gameType], w.games[g].origin.players;
            GetState(Run(reg, w, [Tick(wait)]), g, true).1 ==
              if wait < 1000 * e.dataTTL then Shown(Replay(e, p, log), log) else Refused(StateExpired)
  {
    var last: Call<A> := Tick(wait);
    RunFirst(reg, w, last, []);
    assert [last] + [] == [last];
  }
}
