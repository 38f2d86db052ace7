/** Which tic-tac-toe games can still get a result, and which have lost theirs, over any board and any lines. */
module TicTacToeEndings {
  import opened Basics
  import opened GameEngine
  import opened TicTacToe
  import opened TicTacToeTheory
  import opened Games
  import opened GameTheory
  import opened GameRuns
  import opened GameCompleteness

  type TttRegistry = Registry<State, Action>
  type TttWorld = World<State, Action>

  // ---------- The board ----------

  /** On a full board nobody has a valid move. */
  lemma {:induction false} NoFreeCell(e: TttEngine, rules: Rules, p: Players, log: Log, user: PlayerId, a: Action)
    requires Plays(e, rules) && p.first != p.second && LegalMoves(e, p, log) && |log| >= rules.cells
    ensures !e.isValidMove(Replay(e, p, log), user, a)
  {
    var s := Replay(e, p, log);
    LogDepicted(e, rules, p, log);
    CountZero(s.board, None);
    assert None !in s.board;
  }

  /** The move that fills the board reports a result. */
  lemma {:induction false} LastCellReports(e: TttEngine, rules: Rules, p: Players, log: Log)
    requires Plays(e, rules) && Proper(p) && LegalMoves(e, p, log) && |log| == rules.cells > 0
    ensures ResultOf(e, p, log) != None
  {
    LastMove(e, rules, p, log);
    LogDepicted(e, rules, p, log);
    FullBoard(rules, p, log, Replay(e, p, log));
  }

  // ---------- Games that can end ----------

  /** The state is live, the board is not full, and a room points at the game. */
  ghost predicate CanEnd(w: TttWorld, g: GameId, rules: Rules) {
    && g in w.games
    && Live(w.games[g].state, w.now)
    && |w.games[g].moves| < rules.cells
    && Pointed(w.rooms, g)
  }

  /** The game is one of these rules, between two real players. */
  ghost predicate GameOf(reg: TttRegistry, w: TttWorld, g: GameId, rules: Rules) {
    && g in w.games
    && w.games[g].origin.gameType in reg
    && Plays(reg[w.games[g].origin.gameType], rules)
    && Proper(w.games[g].origin.players)
  }

  ghost predicate HasResult(w: TttWorld, g: GameId) {
    g in w.games && w.games[g].row.result.Some?
  }

  /** These calls leave the game with a result. */
  ghost predicate EndsBy(reg: TttRegistry, w: TttWorld, calls: seq<Call<Action>>, g: GameId) {
    HasResult(Run(reg, w, calls), g)
  }

  /** Playing any valid moves ends the game at the latest when the board is full. */
  lemma {:induction false} PlayToTheEnd(reg: TttRegistry, w: TttWorld, g: GameId, rules: Rules, log: Log)
    returns (calls: seq<Call<Action>>)
    requires GameOf(reg, w, g, rules) && Playing(reg, w, g, log) && CanEnd(w, g, rules)
    requires w.games[g].origin.players.first in w.users && w.games[g].origin.players.second in w.users
    ensures HasResult(Run(reg, w, calls), g)
    decreases rules.cells - |log|
  {
    var e, p := reg[w.games[g].origin.gameType], w.games[g].origin.players;
    var a := FreeCell(e, rules, p, log);
    var m := StoredMove(Seat(p, |log|), a);
    var longer := log + [m];
    AppendMove(e, p, log, m);
    var move: Call<Action> := Move(g, m.userId, a, true);
    var w1 := Step(reg, w, move).0;
    if ResultOf(e, p, longer) == None {
      MoveAccepted(reg, w, g, log, m);
      if |longer| == rules.cells {
        LastCellReports(e, rules, p, longer);
      }
      var rest := PlayToTheEnd(reg, w1, g, rules, longer);
      RunFirst(reg, w, move, rest);
      calls := [move] + rest;
    } else {
      MoversAreSeats(e, rules, p, longer);
      LastMoveStores(reg, w, g, log, m, ResultOf(e, p, longer).value);
      RunFirst(reg, w, move, []);
      calls := [move] + [];
    }
  }

  lemma {:induction false} MoversAreSeats(e: TttEngine, rules: Rules, p: Players, log: Log)
    requires Plays(e, rules) && p.first != p.second && LegalMoves(e, p, log)
    ensures forall i | 0 <= i < |log| :: log[i].userId in {p.first, p.second}
  {
    LogDepicted(e, rules, p, log);
  }

  // ---------- Games that cannot ----------

  /** A move on a game that cannot end gives it no result, and leaves it with the log and clock it had. */
  lemma {:induction false} NoEndMove(reg: TttRegistry, w: TttWorld, g: GameId, rules: Rules, user: PlayerId, a: Action,
                                     dbUp: bool)
    requires Consistent(reg, w) && GameOf(reg, w, g, rules) && !HasResult(w, g)
    requires !Live(w.games[g].state, w.now) || |w.games[g].moves| >= rules.cells
    ensures MakeMove(reg, w, g, user, a, dbUp).0 == w
  {
    assert Sound(reg, g, w.games[g]);
    if Live(w.games[g].state, w.now) {
      NoFreeCell(reg[w.games[g].origin.gameType], rules, w.games[g].origin.players, w.games[g].moves, user, a);
    }
  }

  /** A call that is no move leaves a game as it is, or takes its keys; time only goes on. */
  lemma {:induction false} NoMoveStep(reg: TttRegistry, w: TttWorld, c: Call<Action>, g: GameId)
    requires g in w.games && !(c.Move? && c.game == g)
    ensures var w' := Step(reg, w, c).0;
            && g in w'.games && w.now <= w'.now
            && (w'.games[g] == w.games[g] || w'.games[g] == AbandonedGame(w.games[g], w.now))
  {
    if c.Move? {
      MoveElsewhere(reg, w, c, g);
    }
  }

  /** One call gives no result to a game that cannot end, and does not make it one that can. */
  lemma {:induction false} NoEndStep(reg: TttRegistry, w: TttWorld, c: Call<Action>, g: GameId, rules: Rules)
    requires Consistent(reg, w) && GameOf(reg, w, g, rules) && !HasResult(w, g) && !CanEnd(w, g, rules)
    ensures var w' := Step(reg, w, c).0;
            GameOf(reg, w', g, rules) && !HasResult(w', g) && !CanEnd(w', g, rules)
  {
    var w' := Step(reg, w, c).0;
    OriginKept(reg, w, c, g);
    if !Pointed(w.rooms, g) {
      UnpointedStep(reg, w, c, g);
      if Pointed(w'.rooms, g) {
        PointersOnlyAgeOut(reg, w, c, g);
      }
    } else if c.Move? && c.game == g {
      NoEndMove(reg, w, g, rules, c.user, c.action, c.dbUp);
    } else {
      NoMoveStep(reg, w, c, g);
    }
  }

  lemma {:induction false} OriginKept(reg: TttRegistry, w: TttWorld, c: Call<Action>, g: GameId)
    requires g in w.games
    ensures g in Step(reg, w, c).0.games && Step(reg, w, c).0.games[g].origin == w.games[g].origin
  {
  }

  /** A game that cannot end now never gets a result, whatever is called. */
  lemma {:induction false} NeverEnds(reg: TttRegistry, w: TttWorld, calls: seq<Call<Action>>, g: GameId, rules: Rules)
    requires Consistent(reg, w) && GameOf(reg, w, g, rules) && !HasResult(w, g) && !CanEnd(w, g, rules)
    ensures g in Run(reg, w, calls).games && !HasResult(Run(reg, w, calls), g)
    decreases |calls|
  {
    if calls != [] {
      StepKeeps(reg, w, calls[0]);
      NoEndStep(reg, w, calls[0], g, rules);
      NeverEnds(reg, Step(reg, w, calls[0]).0, calls[1..], g, rules);
    }
  }

  /**
   A game without a result, whose players both have user rows, can still get one exactly when its state is live, its
   board is not full, and a room points at it.
   */
  lemma {:induction false} EndsExactlyWhen(reg: TttRegistry, w: TttWorld, g: GameId, rules: Rules)
    requires Consistent(reg, w) && GameOf(reg, w, g, rules) && !HasResult(w, g)
    requires w.games[g].origin.players.first in w.users && w.games[g].origin.players.second in w.users
    ensures (exists calls :: EndsBy(reg, w, calls, g)) <==> CanEnd(w, g, rules)
  {
    if CanEnd(w, g, rules) {
      assert Sound(reg, g, w.games[g]);
      var calls := PlayToTheEnd(reg, w, g, rules, w.games[g].moves);
      assert EndsBy(reg, w, calls, g);
    } else {
      forall calls ensures !EndsBy(reg, w, calls, g) {
        NeverEnds(reg, w, calls, g, rules);
      }
    }
  }

  /**
   A finish that throws on the move that fills the board loses the result for good: that move alone calls for a finish,
   and no valid move is left.
   */
  lemma {:induction false} LastCellLost(reg: TttRegistry, w: TttWorld, room: RoomId, t: GameType, rules: Rules,
                                        p: Players, g: GameId, before: Log, m: StoredMove<Action>,
                                        calls: seq<Call<Action>>)
    requires Consistent(reg, w) && t in reg && Plays(reg[t], rules) && Proper(p) && room in w.rooms && g !in w.games
    requires LegalPlay(reg[t], p, before + [m]) && |before + [m]| == rules.cells
    ensures var lost := [Start(room, t, p, g, true)] + MovesOf(g, before) + [Move(g, m.userId, m.action, false)];
            var w' := Run(reg, w, lost + calls);
            g in w'.games && w'.games[g].row.result == None
  {
    var start: Call<Action> := Start(room, t, p, g, true);
    var last: Call<Action> := Move(g, m.userId, m.action, false);
    var w1 := Step(reg, w, start).0;
    StartPlays(reg, w, room, t, p, g);
    assert (before + [m])[..|before|] == before && [] + before == before;
    AppendMove(reg[t], p, before, m);
    LastCellReports(reg[t], rules, p, before + [m]);
    PlayOn(reg, w1, g, [], before);
    LastMoveLost(reg, Run(reg, w1, MovesOf(g, before)), g, before, m);
    RunFirst(reg, w, start, MovesOf(g, before));
    RunOne(reg, w, [start] + MovesOf(g, before), last);
    RunAppend(reg, w, [start] + MovesOf(g, before) + [last], calls);
    RunKeeps(reg, w, [start] + MovesOf(g, before) + [last]);
    var w2 := Run(reg, w, [start] + MovesOf(g, before) + [last]);
    assert Playing(reg, w2, g, before + [m]);
    NeverEnds(reg, w2, calls, g, rules);
  }

  lemma {:induction false} RunOne(reg: TttRegistry, w: TttWorld, calls: seq<Call<Action>>, c: Call<Action>)
    ensures Run(reg, w, calls + [c]) == Step(reg, Run(reg, w, calls), c).0
  {
    RunAppend(reg, w, calls, [c]);
    RunFirst(reg, Run(reg, w, calls), c, []);
    assert [c] + [] == [c];
  }
}
