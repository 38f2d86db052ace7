/** The game service with the classic tic-tac-toe engine deployed. */
module TicTacToeGames {
  import opened Basics
  import opened GameEngine
  import opened TicTacToe
  import opened TicTacToeTheory
  import opened TicTacToeEndings
  import opened Games
  import opened GameTheory
  import opened GameRuns
  import opened GameCompleteness
  import opened GameReplies

  const TTT: GameType := "TTT"

  ghost predicate Deployed(reg: TttRegistry) {
    TTT in reg && Plays(reg[TTT], CLASSIC)
  }

  /** The registry of the game module. */
  lemma {:induction false} DeployedRegistry()
    ensures Deployed(map[TTT := EngineFor(CLASSIC)])
  {
    EnginePlays(CLASSIC);
  }

  /** A stored classic game: 5 to 9 rows numbered in order, players in turn, different cells, and the result earned. */
  ghost predicate ProperRecord(p: Players, g: GameId, rows: seq<MoveRow<Action>>, result: GameResult) {
    && 5 <= |rows| <= 9
    && (forall i | 0 <= i < |rows| ::
          rows[i].gameId == g && rows[i].sequence == i && rows[i].move.userId == Seat(p, i)
          && 0 <= rows[i].move.action.cellId < 9)
    && (forall i, j | 0 <= i < j < |rows| :: rows[i].move.action.cellId != rows[j].move.action.cellId)
    && (result == GameResult(Some(Seat(p, |rows| - 1)), false) || (result == GameResult(None, true) && |rows| == 9))
  }

  lemma {:induction false} RowsHoldLog(p: Players, g: GameId, rows: seq<MoveRow<Action>>, log: Log, result: GameResult)
    requires rows == Numbered(g, log) && 5 <= |log| <= 9 && InTurn(CLASSIC, p, log)
    requires result == GameResult(Some(Seat(p, |log| - 1)), false) || (result == GameResult(None, true) && |log| == 9)
    ensures ProperRecord(p, g, rows, result)
  {
  }

  lemma {:induction false} CompleteIsProper(reg: TttRegistry, p: Players, g: GameId, rows: seq<MoveRow<Action>>,
                                            result: GameResult)
    requires Deployed(reg) && Proper(p)
    requires rows == Numbered(g, LogIn(rows)) && CompleteGame(reg[TTT], p, LogIn(rows), result)
    ensures ProperRecord(p, g, rows, result)
  {
    var log := LogIn(rows);
    ClassicGame(reg[TTT], p, log, result);
    RowsHoldLog(p, g, rows, log, result);
  }

  /** In every run in which no finish of the game threw, its stored record is a proper tic-tac-toe game. */
  lemma {:induction false} StoredGameIsProper(reg: TttRegistry, w0: TttWorld, calls: seq<Call<Action>>, g: GameId)
    requires Deployed(reg) && Opening(w0) && !Threw(reg, w0, calls, g)
    requires var w := Run(reg, w0, calls);
             g in w.games && w.games[g].row.result.Some? && w.games[g].origin.gameType == TTT
             && Proper(w.games[g].origin.players)
    ensures var gm := Run(reg, w0, calls).games[g];
            ProperRecord(gm.origin.players, g, gm.rows, gm.row.result.value)
  {
    RecordExactlyWhen(reg, w0, calls, g);
    var gm := Run(reg, w0, calls).games[g];
    CompleteIsProper(reg, gm.origin.players, g, gm.rows, gm.row.result.value);
  }

  /** While the database answers, every stored record is a proper tic-tac-toe game, even if rooms are lost or reused. */
  lemma {:induction false} SteadyRecordsAreProper(reg: TttRegistry, w0: TttWorld, calls: seq<Call<Action>>, g: GameId)
    requires Deployed(reg) && Opening(w0)
    requires (forall i | 0 <= i < |calls| :: DatabaseUp(calls[i])) && Newcomers(reg, w0, calls)
    requires var w := Run(reg, w0, calls);
             g in w.games && w.games[g].row.result.Some? && w.games[g].origin.gameType == TTT
             && Proper(w.games[g].origin.players)
    ensures var gm := Run(reg, w0, calls).games[g];
            ProperRecord(gm.origin.players, g, gm.rows, gm.row.result.value)
  {
    SteadyDatabaseRecords(reg, w0, calls, g);
    RecordExactlyWhen(reg, w0, calls, g);
    var gm := Run(reg, w0, calls).games[g];
    CompleteIsProper(reg, gm.origin.players, g, gm.rows, gm.row.result.value);
  }

  /** A tic-tac-toe game that is on is shown for an hour after its start or its last move, and then has expired. */
  lemma {:induction false} LivesAnHour(reg: TttRegistry, w: TttWorld, room: RoomId, p: Players, g: GameId, log: Log,
                                       waits: seq<nat>, wait: nat)
    requires Deployed(reg) && room in w.rooms && g !in w.games
    requires LegalMoves(reg[TTT], p, log) && Open(reg[TTT], p, log)
    requires |waits| == |log| && forall i | 0 <= i < |waits| :: waits[i] < 1000 * 60 * 60
    ensures var calls := [Start(room, TTT, p, g, true)] + (TimedMovesOf(g, log, waits) + [Tick(wait)]);
            GetState(Run(reg, w, calls), g, true).1 ==
              if wait < 1000 * 60 * 60 then Shown(Replay(reg[TTT], p, log), log) else Refused(StateExpired)
  {
    PlayedThenAsked(reg, w, room, TTT, p, g, log, waits, wait);
  }

  // ---------- A record that is not a game ----------

  const XO := Players("x", "o")

  const X_WINS := GameResult(Some("x"), false)

  function Mark(user: PlayerId, cell: int): StoredMove<Action> {
    StoredMove(user, Action(cell))
  }

  /** Four moves, the fifth that completes the top row for x, and one more by o. */
  const OPENING: Log := [Mark("x", 0), Mark("o", 3), Mark("x", 1), Mark("o", 4)]
  const WINNING := Mark("x", 2)
  const EXTRA := Mark("o", 5)

  lemma {:induction false} TopRowWins(board: seq<Cell>)
    requires |board| == 9 && board[0] == board[1] == board[2] == Some("x")
    ensures Winner(board, CLASSIC.lines) == Some("x")
  {
    assert CLASSIC.lines[0] == [0, 1, 2];
    assert Held(board, CLASSIC.lines[0]);
  }

  /** A legal log in which x has the top row reports x as the winner. */
  lemma {:induction false} TopRowReported(e: TttEngine, log: Log)
    requires Plays(e, CLASSIC) && LegalMoves(e, XO, log) && |log| >= 5
    requires log[0].action.cellId == 0 && log[2].action.cellId == 1 && log[4].action.cellId == 2
    ensures ResultOf(e, XO, log) == Some(X_WINS)
  {
    LogDepicted(e, CLASSIC, XO, log);
    LastMove(e, CLASSIC, XO, log);
    var board := Replay(e, XO, log).board;
    assert board[log[0].action.cellId] == board[log[2].action.cellId] == board[log[4].action.cellId] == Some("x");
    TopRowWins(board);
  }

  /**
   A tic-tac-toe run whose stored record is not a legal game: the database is down for the winning fifth move, o moves
   once more, and six rows are stored for a game that x had won with the fifth.
   */
  lemma {:induction false} OverrunHappens(reg: TttRegistry, w0: TttWorld, room: RoomId, g: GameId)
    requires Deployed(reg) && Opening(w0) && room in w0.rooms && "x" in w0.users && "o" in w0.users
    ensures var calls := [Start(room, TTT, XO, g, true)]
                         + (MovesOf(g, OPENING) + ([Move(g, "x", Action(2), false)] + [Move(g, "o", Action(5), true)]));
            var w := Run(reg, w0, calls);
            && g in w.games
            && w.games[g].row.result == Some(X_WINS)
            && w.games[g].rows == Numbered(g, OPENING + [WINNING] + [EXTRA])
            && !CompleteGame(reg[TTT], XO, LogIn(w.games[g].rows), X_WINS)
  {
    OverrunOpening(reg[TTT]);
    OverrunWin(reg[TTT]);
    OverrunExtra(reg[TTT]);
    OverrunMovers();
    OverrunStored(reg, w0, room, TTT, XO, g, OPENING, WINNING, EXTRA, X_WINS);
  }

  lemma {:induction false} OverrunOpening(e: TttEngine)
    requires Plays(e, CLASSIC)
    ensures LegalMoves(e, XO, OPENING) && Open(e, XO, OPENING)
  {
    InTurnLegal(e, CLASSIC, XO, OPENING);
    EarlyMovesOpen(e, XO, OPENING);
  }

  lemma {:induction false} OverrunWin(e: TttEngine)
    requires Plays(e, CLASSIC)
    ensures var log := OPENING + [WINNING]; LegalMoves(e, XO, log) && ResultOf(e, XO, log) == Some(X_WINS)
  {
    InTurnLegal(e, CLASSIC, XO, OPENING + [WINNING]);
    TopRowReported(e, OPENING + [WINNING]);
  }

  /** The engine accepts o's move on the finished board and reports x's win once more. */
  lemma {:induction false} OverrunExtra(e: TttEngine)
    requires Plays(e, CLASSIC)
    ensures var log := OPENING + [WINNING] + [EXTRA];
            LegalMoves(e, XO, log) && ResultOf(e, XO, log) == Some(X_WINS)
  {
    InTurnLegal(e, CLASSIC, XO, OPENING + [WINNING] + [EXTRA]);
    TopRowReported(e, OPENING + [WINNING] + [EXTRA]);
  }

  lemma {:induction false} OverrunMovers()
    ensures forall i | 0 <= i < |OPENING| + 2 :: (OPENING + [WINNING] + [EXTRA])[i].userId in {"x", "o"}
  {
    var log := OPENING + [WINNING] + [EXTRA];
    assert log == [OPENING[0], OPENING[1], OPENING[2], OPENING[3], WINNING, EXTRA];
  }
}
