/** The promises of the game service, over every run. */
module GameRuns {
  import opened Basics
  import opened GameEngine
  import opened Games
  import opened GameTheory

  /** No games yet and no room with a game; any rooms and any users. */
  ghost predicate Opening<S, A>(w: World<S, A>) {
    w.games == map[] && forall r | r in w.rooms :: w.rooms[r] == None
  }

  // ---------- The cache ----------

  /** The move of this call, if it is one on game g that got past validation; its finish may still have thrown. */
  ghost function Accepted<S, A>(reg: Registry<S, A>, w: World<S, A>, c: Call<A>, g: GameId): seq<StoredMove<A>> {
    if c.Move? && c.game == g
       && (Step(reg, w, c).1.Moved? || Step(reg, w, c).1 == Refused(DatabaseError))
    then [StoredMove(c.user, c.action)] else []
  }

  /** The moves of the run on game g that got past validation, in order. */
  ghost function Played<S, A>(reg: Registry<S, A>, w: World<S, A>, calls: seq<Call<A>>, g: GameId): seq<StoredMove<A>>
    decreases |calls|
  {
    if calls == [] then []
    else Accepted(reg, w, calls[0], g) + Played(reg, Step(reg, w, calls[0]).0, calls[1..], g)
  }

  /** The log of a game while it has one: in the cache, or stored with its result. */
  ghost function LogOf<S, A>(w: World<S, A>, g: GameId): Option<seq<StoredMove<A>>> {
    if g !in w.games then Some([])
    else if w.games[g].state.Some? then Some(w.games[g].moves)
    else if w.games[g].row.result.Some? then Some(LogIn(w.games[g].rows))
    else None
  }

  /** If there is a log afterwards, it is the log before with these moves added. */
  ghost predicate Extends<A>(before: Option<seq<StoredMove<A>>>, added: seq<StoredMove<A>>,
                             after: Option<seq<StoredMove<A>>>)
  {
    after.Some? ==> before.Some? && after.value == before.value + added
  }

  lemma {:induction false} ExtendsTwice<A>(x: Option<seq<StoredMove<A>>>, added: seq<StoredMove<A>>,
                                           y: Option<seq<StoredMove<A>>>, more: seq<StoredMove<A>>,
                                           z: Option<seq<StoredMove<A>>>)
    requires Extends(x, added, y) && Extends(y, more, z)
    ensures Extends(x, added + more, z)
  {
    if z.Some? {
      assert x.value + added + more == x.value + (added + more);
    }
  }

  /** One call adds the move it made, and nothing else, to the log of a game. */
  lemma {:induction false} LogStep<S, A>(reg: Registry<S, A>, w: World<S, A>, c: Call<A>, g: GameId)
    requires Consistent(reg, w)
    ensures Extends(LogOf(w, g), Accepted(reg, w, c, g), LogOf(Step(reg, w, c).0, g))
  {
    if c.Move? && c.game == g && g in w.games && w.games[g].state.Some? {
      assert Sound(reg, g, w.games[g]);
      MoveLogged(reg, w, g, c.user, c.action, c.dbUp);
    } else {
      NothingLogged(reg, w, c, g);
    }
  }

  /** Any other call adds nothing; a game that has neither cache nor result has no log again. */
  lemma {:induction false} NothingLogged<S, A>(reg: Registry<S, A>, w: World<S, A>, c: Call<A>, g: GameId)
    requires g in w.games ==> Sound(reg, g, w.games[g])
    requires !(c.Move? && c.game == g && g in w.games && w.games[g].state.Some?)
    ensures Extends(LogOf(w, g), Accepted(reg, w, c, g), LogOf(Step(reg, w, c).0, g))
  {
    if c.Move? && c.game != g {
      MoveElsewhere(reg, w, c, g);
    } else if g in w.games && w.games[g].state == None {
      SettledStep(reg, w, c, g);
    }
  }

  lemma {:induction false} MoveLogged<S, A>(reg: Registry<S, A>, w: World<S, A>, g: GameId, user: PlayerId, action: A,
                                            dbUp: bool)
    requires g in w.games && w.games[g].state.Some? && Sound(reg, g, w.games[g])
    ensures var w' := MakeMove(reg, w, g, user, action, dbUp).0;
            LogOf(w', g) == Some(w.games[g].moves + Accepted(reg, w, Move(g, user, action, dbUp), g))
  {
    var gm := w.games[g];
    if Live(gm.state, w.now) && reg[gm.origin.gameType].isValidMove(gm.state.value.value, user, action) {
      var log := gm.moves + [StoredMove(user, action)];
      PlayMoveShape(reg[gm.origin.gameType], w, g, StoredMove(user, action), dbUp);
      assert [] + Numbered(g, log) == Numbered(g, log);
      assert LogIn(Numbered(g, log)) == log;
    } else {
      assert gm.moves + [] == gm.moves;
    }
  }

  /**
   Over every run, the log of a game, cached or stored, grows by exactly the moves that got past validation, in
   order.
   */
  lemma {:induction false} LogIsPlayed<S, A>(reg: Registry<S, A>, w: World<S, A>, calls: seq<Call<A>>, g: GameId)
    requires Consistent(reg, w)
    ensures Extends(LogOf(w, g), Played(reg, w, calls, g), LogOf(Run(reg, w, calls), g))
    decreases |calls|
  {
    if calls != [] {
      var w1 := Step(reg, w, calls[0]).0;
      StepKeeps(reg, w, calls[0]);
      LogStep(reg, w, calls[0], g);
      LogIsPlayed(reg, w1, calls[1..], g);
      ExtendsTwice(LogOf(w, g), Accepted(reg, w, calls[0], g), LogOf(w1, g), Played(reg, w1, calls[1..], g),
                   LogOf(Run(reg, w1, calls[1..]), g));
    }
  }

  /**
   In every run, getState shows a state together with the very log of legal moves that replays to it, and that log is
   the moves on the game that got past validation, in order.
   */
  lemma {:induction false} ShownStateIsReplay<S, A>(reg: Registry<S, A>, w0: World<S, A>, calls: seq<Call<A>>,
                                                    g: GameId, dbUp: bool)
    requires Opening(w0)
    ensures var w := Run(reg, w0, calls);
            var reply := GetState(w, g, dbUp).1;
            reply.Shown? ==>
              && w.games[g].origin.gameType in reg
              && reply.log == Played(reg, w0, calls, g)
              && var e, p := reg[w.games[g].origin.gameType], w.games[g].origin.players;
                 LegalMoves(e, p, reply.log) && reply.current == Replay(e, p, reply.log)
  {
    RunKeeps(reg, w0, calls);
    LogIsPlayed(reg, w0, calls, g);
    var w := Run(reg, w0, calls);
    assert g in w.games ==> Sound(reg, g, w.games[g]);
  }

  /**
   In every run the metadata expire no earlier than the state: a move on a live state never finds its metadata or
   its engine missing, and a live state belongs to an active game.
   */
  lemma {:induction false} MetadataOutlivesState<S, A>(reg: Registry<S, A>, w0: World<S, A>, calls: seq<Call<A>>,
                                                       g: GameId, user: PlayerId, action: A, dbUp: bool)
    requires Opening(w0)
    ensures var w := Run(reg, w0, calls);
            && (g in w.games && Live(w.games[g].state, w.now) ==>
                  Live(w.games[g].meta, w.now) && w.games[g].row.status == Active)
            && MakeMove(reg, w, g, user, action, dbUp).1 != Refused(MetadataNotFound)
            && MakeMove(reg, w, g, user, action, dbUp).1 != Refused(NoEngine)
  {
    RunKeeps(reg, w0, calls);
    var w := Run(reg, w0, calls);
    assert g in w.games ==> Sound(reg, g, w.games[g]);
  }

  // ---------- The record ----------

  /** Some move of the run on this game has replied with a database error: its finish has thrown. */
  ghost predicate Threw<S, A>(reg: Registry<S, A>, w: World<S, A>, calls: seq<Call<A>>, g: GameId)
    decreases |calls|
  {
    calls != [] && (
      || (calls[0].Move? && calls[0].game == g && Step(reg, w, calls[0]).1 == Refused(DatabaseError))
      || Threw(reg, Step(reg, w, calls[0]).0, calls[1..], g))
  }

  ghost predicate HasFailed<S, A>(w: World<S, A>, g: GameId) {
    g in w.games && w.games[g].failed
  }

  /** A game newly fails exactly in a move on it that replies with a database error. */
  lemma {:induction false} FailedStep<S, A>(reg: Registry<S, A>, w: World<S, A>, c: Call<A>, g: GameId)
    ensures HasFailed(Step(reg, w, c).0, g) <==>
              HasFailed(w, g) || (c.Move? && c.game == g && Step(reg, w, c).1 == Refused(DatabaseError))
    ensures HasFailed(Step(reg, w, c).0, g) ==> g in w.games
  {
    if c.Move? && c.game != g {
      MoveElsewhere(reg, w, c, g);
    }
  }

  /** A move leaves every other game alone. */
  lemma {:induction false} MoveElsewhere<S, A>(reg: Registry<S, A>, w: World<S, A>, c: Call<A>, g: GameId)
    requires c.Move? && c.game != g
    ensures var w' := Step(reg, w, c).0;
            && (g in w'.games <==> g in w.games)
            && (g in w.games ==> w'.games[g] == w.games[g])
            && (w'.now, w'.users) == (w.now, w.users)
            && (w'.rooms == w.rooms || w'.rooms == ClearPointer(w.rooms, c.game))
  {
  }

  /** The history flag tells exactly whether a finish of the game has thrown. */
  lemma {:induction false} FailedMeansThrew<S, A>(reg: Registry<S, A>, w: World<S, A>, calls: seq<Call<A>>, g: GameId)
    ensures HasFailed(Run(reg, w, calls), g) <==> HasFailed(w, g) || Threw(reg, w, calls, g)
    decreases |calls|
  {
    if calls != [] {
      FailedStep(reg, w, calls[0], g);
      FailedMeansThrew(reg, Step(reg, w, calls[0]).0, calls[1..], g);
    }
  }

  lemma {:induction false} StoredIsPlayed<S, A>(reg: Registry<S, A>, w0: World<S, A>, calls: seq<Call<A>>, g: GameId)
    requires Opening(w0)
    requires var w := Run(reg, w0, calls); g in w.games && w.games[g].row.result.Some?
    ensures LogIn(Run(reg, w0, calls).games[g].rows) == Played(reg, w0, calls, g)
  {
    var w := Run(reg, w0, calls);
    RunKeeps(reg, w0, calls);
    LogIsPlayed(reg, w0, calls, g);
    assert Sound(reg, g, w.games[g]);
    RecordOf(reg, g, w.games[g]);
    assert LogOf(w0, g) == Some([]) && LogOf(w, g) == Some(LogIn(w.games[g].rows));
  }

  /** What soundness says of a game with a stored result. */
  lemma {:induction false} RecordOf<S, A>(reg: Registry<S, A>, g: GameId, gm: Game<S, A>)
    requires Sound(reg, g, gm) && gm.row.result.Some?
    ensures gm.state == None && gm.origin.gameType in reg
    ensures var e, p, log := reg[gm.origin.gameType], gm.origin.players, LogIn(gm.rows);
            && gm.rows == Numbered(g, log)
            && LegalMoves(e, p, log)
            && ResultOf(e, p, log) == gm.row.result
            && (CompleteGame(e, p, log, gm.row.result.value) <==> !gm.failed)
  {
  }

  /**
   In every run, a stored result comes with rows 0 to n-1 that hold the moves that got past validation, in order, which
   are all legal and end in that result. The record is a complete legal game, with nobody moving after a result, exactly
   when no finish of the game ever threw.
   */
  lemma {:induction false} RecordExactlyWhen<S, A>(reg: Registry<S, A>, w0: World<S, A>, calls: seq<Call<A>>, g: GameId)
    requires Opening(w0)
    requires var w := Run(reg, w0, calls); g in w.games && w.games[g].row.result.Some?
    ensures var gm := Run(reg, w0, calls).games[g];
            && gm.origin.gameType in reg
            && var e, p, log := reg[gm.origin.gameType], gm.origin.players, LogIn(gm.rows);
            && gm.rows == Numbered(g, log)
            && log == Played(reg, w0, calls, g)
            && LegalMoves(e, p, log)
            && ResultOf(e, p, log) == gm.row.result
            && (CompleteGame(e, p, log, gm.row.result.value) <==> !Threw(reg, w0, calls, g))
  {
    RunKeeps(reg, w0, calls);
    StoredIsPlayed(reg, w0, calls, g);
    FailedMeansThrew(reg, w0, calls, g);
    assert Sound(reg, g, Run(reg, w0, calls).games[g]);
    RecordOf(reg, g, Run(reg, w0, calls).games[g]);
  }

  ghost predicate DatabaseUp<A>(c: Call<A>) {
    match c
    case Start(_, _, _, _, up) => up
    case Move(_, _, _, up) => up
    case Get(_, up) => up
    case Abandon(_, up) => up
    case _ => true
  }

  /** A game whose finish has thrown for a lasting reason: no room points at it, or a mover has no user row. */
  ghost predicate Hopeless<S, A>(w: World<S, A>, g: GameId)
    requires g in w.games
  {
    && w.games[g].row.result == None
    && (w.games[g].state.Some? ==> !CanFinish(w, g, w.games[g].moves, true))
  }

  ghost predicate FailsForGood<S, A>(w: World<S, A>) {
    forall g | g in w.games && w.games[g].failed :: Hopeless(w, g)
  }

  /** A game that no room points at is never pointed at again. */
  lemma {:induction false} PointersOnlyAgeOut<S, A>(reg: Registry<S, A>, w: World<S, A>, c: Call<A>, g: GameId)
    requires g in w.games && Pointed(Step(reg, w, c).0.rooms, g)
    ensures Pointed(w.rooms, g)
  {
    var w' := Step(reg, w, c).0;
    var r :| r in w'.rooms && w'.rooms[r] == Some(g);
    assert r in w.rooms && w.rooms[r] == Some(g);
  }

  lemma {:induction false} LogsOnlyGrow<S, A>(reg: Registry<S, A>, w: World<S, A>, c: Call<A>, g: GameId)
    requires g in w.games
    ensures var w' := Step(reg, w, c).0;
            && w'.users == w.users + (if c.NewUser? then {c.user} else {}) && g in w'.games
            && (w'.games[g].state.Some? ==> w.games[g].moves <= w'.games[g].moves)
  {
  }

  /** The call marks the game abandoned, as getState does when it finds no state. */
  ghost predicate Abandons<A>(c: Call<A>, g: GameId) {
    (c.Get? || c.Abandon?) && c.game == g && c.dbUp
  }

  /** A settled game only ever changes by being marked abandoned. */
  lemma {:induction false} SettledStep<S, A>(reg: Registry<S, A>, w: World<S, A>, c: Call<A>, g: GameId)
    requires g in w.games && w.games[g].state == None
    ensures var w' := Step(reg, w, c).0;
            && g in w'.games
            && w'.games[g] == if Abandons(c, g) then AbandonedGame(w.games[g], w.now) else w.games[g]
  {
  }

  /** The id drawn for a new user has not moved in any game. */
  ghost predicate Newcomer<S, A>(w: World<S, A>, c: Call<A>) {
    c.NewUser? ==>
      forall g, i | g in w.games && 0 <= i < |w.games[g].moves| :: w.games[g].moves[i].userId != c.user
  }

  ghost predicate Newcomers<S, A>(reg: Registry<S, A>, w: World<S, A>, calls: seq<Call<A>>)
    decreases |calls|
  {
    calls != [] ==> Newcomer(w, calls[0]) && Newcomers(reg, Step(reg, w, calls[0]).0, calls[1..])
  }

  lemma {:induction false} HopelessKept<S, A>(reg: Registry<S, A>, w: World<S, A>, c: Call<A>, g: GameId)
    requires g in w.games && Sound(reg, g, w.games[g]) && Hopeless(w, g) && Newcomer(w, c)
    ensures g in Step(reg, w, c).0.games && Hopeless(Step(reg, w, c).0, g)
  {
    StorableBefore(reg, w, c, g);
    if w.games[g].state == None {
      SettledStep(reg, w, c, g);
    } else if c.Move? && c.game == g {
      PrefixStores(w, g, w.games[g].moves, w.games[g].moves + [StoredMove(c.user, c.action)]);
    }
  }

  /** A log that can be stored after a step could be stored before, as far as it went. */
  lemma {:induction false} StorableBefore<S, A>(reg: Registry<S, A>, w: World<S, A>, c: Call<A>, g: GameId)
    requires g in w.games && Newcomer(w, c)
    ensures var w' := Step(reg, w, c).0;
            && g in w'.games
            && (w'.games[g].state.Some? && CanFinish(w', g, w'.games[g].moves, true) ==>
                  CanFinish(w, g, w.games[g].moves, true))
  {
    var w' := Step(reg, w, c).0;
    LogsOnlyGrow(reg, w, c, g);
    if w'.games[g].state.Some? && CanFinish(w', g, w'.games[g].moves, true) {
      PointersOnlyAgeOut(reg, w, c, g);
      PrefixStores(w', g, w.games[g].moves, w'.games[g].moves);
    }
  }

  /** If a log can be stored, so can every prefix of it. */
  lemma {:induction false} PrefixStores<S, A>(w: World<S, A>, g: GameId, log: seq<StoredMove<A>>,
                                              longer: seq<StoredMove<A>>)
    requires log <= longer
    ensures CanFinish(w, g, longer, true) ==> CanFinish(w, g, log, true)
  {
    assert forall i | 0 <= i < |log| :: log[i] == longer[i];
  }

  /** While the database is up, a finish that throws leaves a hopeless game. */
  lemma {:induction false} FreshFailureHopeless<S, A>(reg: Registry<S, A>, w: World<S, A>, g: GameId, user: PlayerId,
                                                      action: A)
    requires g in w.games && Sound(reg, g, w.games[g]) && !w.games[g].failed
    requires MakeMove(reg, w, g, user, action, true).0.games[g].failed
    ensures Hopeless(MakeMove(reg, w, g, user, action, true).0, g)
  {
  }

  lemma {:induction false} FailsForGoodKept<S, A>(reg: Registry<S, A>, w: World<S, A>, c: Call<A>)
    requires Consistent(reg, w) && FailsForGood(w) && DatabaseUp(c) && Newcomer(w, c)
    ensures FailsForGood(Step(reg, w, c).0)
  {
    var w' := Step(reg, w, c).0;
    forall g | g in w'.games && w'.games[g].failed
      ensures Hopeless(w', g)
    {
      if g in w.games && w.games[g].failed {
        assert Sound(reg, g, w.games[g]);
        HopelessKept(reg, w, c, g);
      } else {
        FailedStep(reg, w, c, g);
        assert Sound(reg, g, w.games[g]);
        FreshFailureHopeless(reg, w, g, c.user, c.action);
      }
    }
  }

  /** As long as the database answers, and new users have fresh ids, every stored record is a complete legal game. */
  lemma {:induction false} SteadyDatabaseRecords<S, A>(reg: Registry<S, A>, w: World<S, A>, calls: seq<Call<A>>,
                                                       g: GameId)
    requires Consistent(reg, w) && FailsForGood(w)
    requires (forall i | 0 <= i < |calls| :: DatabaseUp(calls[i])) && Newcomers(reg, w, calls)
    requires var w' := Run(reg, w, calls); g in w'.games && w'.games[g].row.result.Some?
    ensures var gm := Run(reg, w, calls).games[g];
            && gm.origin.gameType in reg
            && CompleteGame(reg[gm.origin.gameType], gm.origin.players, LogIn(gm.rows), gm.row.result.value)
    decreases |calls|
  {
    if calls == [] {
      assert Sound(reg, g, w.games[g]);
    } else {
      StepKeeps(reg, w, calls[0]);
      FailsForGoodKept(reg, w, calls[0]);
      SteadyDatabaseRecords(reg, Step(reg, w, calls[0]).0, calls[1..], g);
    }
  }

  // ---------- After the result ----------

  /**
   A stored result and its rows never change again. The status stays Finished exactly as long as nobody asks for the
   game's state or abandons it.
   */
  lemma {:induction false} RecordIsPermanent<S, A>(reg: Registry<S, A>, w: World<S, A>, calls: seq<Call<A>>, g: GameId)
    requires g in w.games && Settled(reg, g, w.games[g]) && w.games[g].state == None && w.games[g].row.result.Some?
    ensures var w' := Run(reg, w, calls);
            && g in w'.games
            && w'.games[g].row.result == w.games[g].row.result
            && w'.games[g].rows == w.games[g].rows
            && (w'.games[g].row.status == Finished <==>
                  w.games[g].row.status == Finished && forall i | 0 <= i < |calls| :: !Abandons(calls[i], g))
    decreases |calls|
  {
    if calls != [] {
      var w1 := Step(reg, w, calls[0]).0;
      SettledStep(reg, w, calls[0], g);
      RecordIsPermanent(reg, w1, calls[1..], g);
      assert forall i | 0 <= i < |calls[1..]| :: calls[1..][i] == calls[i + 1];
      assert (forall i | 0 <= i < |calls| :: !Abandons(calls[i], g)) <==>
             !Abandons(calls[0], g) && forall i | 0 <= i < |calls[1..]| :: !Abandons(calls[1..][i], g);
    }
  }

  // ---------- Rooms ----------

  /** Rooms persist, and a game is started only in a room whose current game is over. */
  ghost predicate Disciplined<S, A>(w: World<S, A>, c: Call<A>) {
    && !c.DropRoom?
    && (c.Start? && c.room in w.rooms && w.rooms[c.room].Some? && w.rooms[c.room].value in w.games ==>
          w.games[w.rooms[c.room].value].row.status != Active)
  }

  ghost predicate DisciplinedRun<S, A>(reg: Registry<S, A>, w: World<S, A>, calls: seq<Call<A>>)
    decreases |calls|
  {
    calls != [] ==> Disciplined(w, calls[0]) && DisciplinedRun(reg, Step(reg, w, calls[0]).0, calls[1..])
  }

  ghost predicate ActivePointed<S, A>(w: World<S, A>) {
    forall g | g in w.games && w.games[g].row.status == Active :: Pointed(w.rooms, g)
  }

  /** A disciplined step keeps the room of a game that stays active. */
  lemma {:induction false} RoomKept<S, A>(reg: Registry<S, A>, w: World<S, A>, c: Call<A>, g: GameId, r: RoomId)
    requires RoomsSound(w) && Disciplined(w, c) && g in w.games && w.games[g].row.status == Active
    requires r in w.rooms && w.rooms[r] == Some(g)
    requires Step(reg, w, c).0.games[g].row.status == Active
    ensures var rooms := Step(reg, w, c).0.rooms; r in rooms && rooms[r] == Some(g)
  {
  }

  /** An active game was active before, or has just been started in the room of the call. */
  lemma {:induction false} ActiveBefore<S, A>(reg: Registry<S, A>, w: World<S, A>, c: Call<A>, g: GameId)
    requires Consistent(reg, w)
    requires g in Step(reg, w, c).0.games && Step(reg, w, c).0.games[g].row.status == Active
    ensures if g in w.games then w.games[g].row.status == Active
            else c.Start? && var rooms := Step(reg, w, c).0.rooms; c.room in rooms && rooms[c.room] == Some(g)
  {
    if g in w.games && w.games[g].state == None {
      assert Sound(reg, g, w.games[g]);
      SettledStep(reg, w, c, g);
    } else if g in w.games {
      assert Sound(reg, g, w.games[g]);
    }
  }

  lemma {:induction false} ActivePointedKept<S, A>(reg: Registry<S, A>, w: World<S, A>, c: Call<A>)
    requires Consistent(reg, w) && ActivePointed(w) && Disciplined(w, c)
    ensures ActivePointed(Step(reg, w, c).0)
  {
    var w' := Step(reg, w, c).0;
    forall g | g in w'.games && w'.games[g].row.status == Active
      ensures Pointed(w'.rooms, g)
    {
      ActiveBefore(reg, w, c, g);
      if g in w.games {
        var r :| r in w.rooms && w.rooms[r] == Some(g);
        RoomKept(reg, w, c, g, r);
      }
    }
  }

  /** In every disciplined run, each active game is the current game of exactly one room. */
  lemma {:induction false} ActiveGamesHaveOneRoom<S, A>(reg: Registry<S, A>, w: World<S, A>, calls: seq<Call<A>>,
                                                        g: GameId)
    requires Consistent(reg, w) && ActivePointed(w) && DisciplinedRun(reg, w, calls)
    requires var w' := Run(reg, w, calls); g in w'.games && w'.games[g].row.status == Active
    ensures var rooms := Run(reg, w, calls).rooms;
            |set r | r in rooms && rooms[r] == Some(g)| == 1
    decreases |calls|
  {
    if calls == [] {
      var r :| r in w.rooms && w.rooms[r] == Some(g);
      assert (set r | r in w.rooms && w.rooms[r] == Some(g)) == {r};
    } else {
      StepKeeps(reg, w, calls[0]);
      ActivePointedKept(reg, w, calls[0]);
      ActiveGamesHaveOneRoom(reg, Step(reg, w, calls[0]).0, calls[1..], g);
    }
  }

  lemma {:induction false} DisciplinedKeeps<S, A>(reg: Registry<S, A>, w: World<S, A>, calls: seq<Call<A>>)
    requires Consistent(reg, w) && ActivePointed(w) && DisciplinedRun(reg, w, calls)
    ensures Consistent(reg, Run(reg, w, calls)) && ActivePointed(Run(reg, w, calls))
    decreases |calls|
  {
    if calls != [] {
      StepKeeps(reg, w, calls[0]);
      ActivePointedKept(reg, w, calls[0]);
      DisciplinedKeeps(reg, Step(reg, w, calls[0]).0, calls[1..]);
    }
  }

  /** Everybody who has moved, the given player included, has a user row. */
  predicate MoversKnown<S, A>(w: World<S, A>, gm: Game<S, A>, user: PlayerId) {
    user in w.users && forall i | 0 <= i < |gm.moves| :: gm.moves[i].userId in w.users
  }

  /**
   After every disciplined run, and while the database answers, a move on a live game fails in the database exactly
   when it ends the game and some mover has no user row: the update of the room always finds it.
   */
  lemma {:induction false} FinishFindsItsRoom<S, A>(reg: Registry<S, A>, w0: World<S, A>, calls: seq<Call<A>>,
                                                    g: GameId,
                                                    user: PlayerId, action: A)
    requires Consistent(reg, w0) && ActivePointed(w0) && DisciplinedRun(reg, w0, calls)
    requires var w := Run(reg, w0, calls); g in w.games && Live(w.games[g].state, w.now)
    ensures var w := Run(reg, w0, calls);
            var gm := w.games[g];
            && gm.origin.gameType in reg
            && var e, s := reg[gm.origin.gameType], gm.state.value.value;
               (MakeMove(reg, w, g, user, action, true).1 == Refused(DatabaseError) <==>
                 e.isValidMove(s, user, action) && e.applyMove(s, user, action).1.Some? && !MoversKnown(w, gm, user))
  {
    DisciplinedKeeps(reg, w0, calls);
    var w := Run(reg, w0, calls);
    var gm := w.games[g];
    assert Sound(reg, g, gm);
    assert Pointed(w.rooms, g);
    MoversStore(w, g, StoredMove(user, action));
  }

  /** The transaction of finish goes through for a pointed game exactly when all movers are known. */
  lemma {:induction false} MoversStore<S, A>(w: World<S, A>, g: GameId, m: StoredMove<A>)
    requires g in w.games && Pointed(w.rooms, g)
    ensures CanFinish(w, g, w.games[g].moves + [m], true) <==> MoversKnown(w, w.games[g], m.userId)
  {
    var moves := w.games[g].moves;
    var log := moves + [m];
    assert log[|moves|] == m;
    assert forall i | 0 <= i < |moves| :: log[i] == moves[i];
  }

  /** A step gives no result to a game that no room points at. */
  lemma {:induction false} UnpointedStep<S, A>(reg: Registry<S, A>, w: World<S, A>, c: Call<A>, g: GameId)
    requires g in w.games && !Pointed(w.rooms, g)
    ensures g in Step(reg, w, c).0.games && Step(reg, w, c).0.games[g].row.result == w.games[g].row.result
  {
  }

  /** A game that no room points at never gets a result, whatever is called. */
  lemma {:induction false} UnpointedNeverFinishes<S, A>(reg: Registry<S, A>, w: World<S, A>, calls: seq<Call<A>>,
                                                        g: GameId)
    requires Consistent(reg, w) && g in w.games && !Pointed(w.rooms, g) && w.games[g].row.result == None
    ensures var w' := Run(reg, w, calls);
            g in w'.games && !Pointed(w'.rooms, g) && w'.games[g].row.result == None && w'.games[g].rows == []
    decreases |calls|
  {
    assert Sound(reg, g, w.games[g]);
    if calls != [] {
      var w1 := Step(reg, w, calls[0]).0;
      StepKeeps(reg, w, calls[0]);
      if Pointed(w1.rooms, g) {
        PointersOnlyAgeOut(reg, w, calls[0], g);
      }
      UnpointedStep(reg, w, calls[0], g);
      UnpointedNeverFinishes(reg, w1, calls[1..], g);
    }
  }

  /**
   Starting another game in a game's room takes the room away for good: from then on the earlier game never gets a
   result, whatever is called.
   */
  lemma {:induction false} SupersededNeverFinishes<S, A>(reg: Registry<S, A>, w: World<S, A>, room: RoomId, t: GameType,
                                                         p: Players, next: GameId, calls: seq<Call<A>>, g: GameId)
    requires Consistent(reg, w) && g in w.games && w.games[g].row.result == None
    requires room in w.rooms && w.rooms[room] == Some(g)
    requires StartGame(reg, w, room, t, p, next, true).1.Started?
    ensures var w' := Run(reg, StartGame(reg, w, room, t, p, next, true).0, calls);
            g in w'.games && !Pointed(w'.rooms, g) && w'.games[g].row.result == None && w'.games[g].rows == []
  {
    StartKeeps(reg, w, room, t, p, next, true);
    UnpointedNeverFinishes(reg, StartGame(reg, w, room, t, p, next, true).0, calls, g);
  }

  // ---------- Independence ----------

  /** What one game consists of, with the clock, the users, and whether its room is there and points at it. */
  datatype View<S, A> = View(
    game: Option<Game<S, A>>, now: int, users: set<PlayerId>, roomOpen: bool, pointed: bool)

  ghost function ViewOf<S, A>(w: World<S, A>, g: GameId, room: RoomId): View<S, A> {
    View(if g in w.games then Some(w.games[g]) else None, w.now, w.users,
         room in w.rooms, room in w.rooms && w.rooms[room] == Some(g))
  }

  /** The calls that concern game g in its room: its own, starts in that room, the room itself, new users, and time. */
  predicate Concerns<A>(c: Call<A>, g: GameId, room: RoomId) {
    match c
    case Start(r, _, _, id, _) => id == g || r == room
    case Move(h, _, _, _) => h == g
    case Get(h, _) => h == g
    case Abandon(h, _) => h == g
    case Tick(_) => true
    case OpenRoom(r) => r == room
    case DropRoom(r) => r == room
    case NewUser(_) => true
  }

  function Project<A>(calls: seq<Call<A>>, g: GameId, room: RoomId): seq<Call<A>> {
    if calls == [] then []
    else (if Concerns(calls[0], g, room) then [calls[0]] else []) + Project(calls[1..], g, room)
  }

  /** Ids handed out by start are fresh, and game g is only ever started in its room. */
  ghost predicate FreshStarts<S, A>(w: World<S, A>, calls: seq<Call<A>>, g: GameId, room: RoomId) {
    && (forall i | 0 <= i < |calls| && calls[i].Start? ::
          calls[i].id !in w.games && (calls[i].id == g ==> calls[i].room == room))
    && (forall i, j | 0 <= i < j < |calls| && calls[i].Start? && calls[j].Start? :: calls[i].id != calls[j].id)
  }

  /** No other room points at g. */
  ghost predicate Homed<S, A>(w: World<S, A>, g: GameId, room: RoomId) {
    forall r | r in w.rooms && w.rooms[r] == Some(g) :: r == room
  }

  lemma {:induction false} PointedView<S, A>(w: World<S, A>, g: GameId, room: RoomId)
    requires Homed(w, g, room)
    ensures Pointed(w.rooms, g) <==> ViewOf(w, g, room).pointed
  {
    if Pointed(w.rooms, g) {
      var r :| r in w.rooms && w.rooms[r] == Some(g);
      assert r == room;
    }
  }

  /** A call that does not concern g leaves everything about g as it was. */
  lemma {:induction false} OthersLeaveAlone<S, A>(reg: Registry<S, A>, w: World<S, A>, c: Call<A>, g: GameId,
                                                  room: RoomId)
    requires !Concerns(c, g, room) && Homed(w, g, room)
    ensures var w' := Step(reg, w, c).0; ViewOf(w', g, room) == ViewOf(w, g, room) && Homed(w', g, room)
  {
    if c.Move? && c.game != g {
      MoveElsewhere(reg, w, c, g);
      MoveKeepsHome(reg, w, c.game, g, room, c.user, c.action, c.dbUp);
    }
  }

  /** A call that concerns g acts on it alike in any two worlds that agree on g. */
  lemma {:induction false} OwnCallsAgree<S, A>(reg: Registry<S, A>, w: World<S, A>, v: World<S, A>, c: Call<A>,
                                               g: GameId,
                                               room: RoomId)
    requires Concerns(c, g, room) && Homed(w, g, room) && Homed(v, g, room)
    requires ViewOf(w, g, room) == ViewOf(v, g, room)
    requires c.Start? ==> c.id !in w.games && c.id !in v.games && (c.id == g ==> c.room == room)
    ensures var w', v' := Step(reg, w, c).0, Step(reg, v, c).0;
            ViewOf(w', g, room) == ViewOf(v', g, room) && Homed(w', g, room) && Homed(v', g, room)
  {
    if c.Move? {
      OwnMovesAgree(reg, w, v, g, room, c.user, c.action, c.dbUp);
    }
  }

  lemma {:induction false} OwnMovesAgree<S, A>(reg: Registry<S, A>, w: World<S, A>, v: World<S, A>, g: GameId,
                                               room: RoomId, user: PlayerId, action: A, dbUp: bool)
    requires ViewOf(w, g, room) == ViewOf(v, g, room) && Homed(w, g, room) && Homed(v, g, room)
    ensures var w', v' := MakeMove(reg, w, g, user, action, dbUp).0, MakeMove(reg, v, g, user, action, dbUp).0;
            ViewOf(w', g, room) == ViewOf(v', g, room) && Homed(w', g, room) && Homed(v', g, room)
  {
    PointedView(w, g, room);
    PointedView(v, g, room);
    MoveKeepsHome(reg, w, g, g, room, user, action, dbUp);
    MoveKeepsHome(reg, v, g, g, room, user, action, dbUp);
  }

  /** A move points no room at a game. */
  lemma {:induction false} MoveKeepsHome<S, A>(reg: Registry<S, A>, w: World<S, A>, moved: GameId, g: GameId,
                                               room: RoomId, user: PlayerId, action: A, dbUp: bool)
    requires Homed(w, g, room)
    ensures Homed(MakeMove(reg, w, moved, user, action, dbUp).0, g, room)
  {
  }

  /** A step adds at most the id it was given to the games. */
  lemma {:induction false} FreshStartsKept<S, A>(reg: Registry<S, A>, w: World<S, A>, calls: seq<Call<A>>, g: GameId,
                                                 room: RoomId)
    requires calls != [] && FreshStarts(w, calls, g, room)
    ensures FreshStarts(Step(reg, w, calls[0]).0, calls[1..], g, room)
    ensures FreshStarts(w, calls[1..], g, room)
  {
    var w', rest := Step(reg, w, calls[0]).0, calls[1..];
    assert forall i | 0 <= i < |rest| :: rest[i] == calls[i + 1];
    assert w'.games.Keys == w.games.Keys || (calls[0].Start? && w'.games.Keys == w.games.Keys + {calls[0].id});
  }

  /**
   Games are independent: dropping from a run every call that does not concern g (the moves, reads and abandons of all
   other games, and every game in other rooms) leaves its state, log, metadata, row, moves and result the same.
   */
  lemma {:induction false} GamesIndependent<S, A>(reg: Registry<S, A>, w: World<S, A>, v: World<S, A>,
                                                  calls: seq<Call<A>>, g: GameId, room: RoomId)
    requires ViewOf(w, g, room) == ViewOf(v, g, room) && Homed(w, g, room) && Homed(v, g, room)
    requires FreshStarts(w, calls, g, room) && FreshStarts(v, calls, g, room)
    ensures ViewOf(Run(reg, w, calls), g, room) == ViewOf(Run(reg, v, Project(calls, g, room)), g, room)
    decreases |calls|
  {
    if calls != [] {
      var c, w1, v1 := calls[0], Step(reg, w, calls[0]).0, Step(reg, v, calls[0]).0;
      FreshStartsKept(reg, w, calls, g, room);
      FreshStartsKept(reg, v, calls, g, room);
      if Concerns(c, g, room) {
        OwnCallsAgree(reg, w, v, c, g, room);
        GamesIndependent(reg, w1, v1, calls[1..], g, room);
        assert Project(calls, g, room)[1..] == Project(calls[1..], g, room);
      } else {
        OthersLeaveAlone(reg, w, c, g, room);
        GamesIndependent(reg, w1, v, calls[1..], g, room);
        assert Project(calls, g, room) == Project(calls[1..], g, room);
      }
    }
  }
}
