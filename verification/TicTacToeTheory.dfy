/** What a legal tic-tac-toe log says about the board, the turn, the winner and the length of the game. */
module TicTacToeTheory {
  import opened Basics
  import opened GameEngine
  import opened TicTacToe

  type Log = seq<StoredMove<Action>>

  type TttEngine = Engine<State, Action>

  /** The player whose turn it is after i moves. */
  function Seat(p: Players, i: nat): PlayerId {
    if i % 2 == 0 then p.first else p.second
  }

  /** Two different players with real ids: what the caller of startGame has to supply. */
  ghost predicate Proper(p: Players) {
    p.first != p.second && p.first != "" && p.second != ""
  }

  /** Number of cells with the given content. */
  function Count(board: seq<Cell>, c: Cell): nat {
    if board == [] then 0
    else Count(board[..|board| - 1], c) + (if board[|board| - 1] == c then 1 else 0)
  }

  /** Writing one cell moves one unit of the count from its old content to its new one. */
  lemma {:induction false} CountWrite(board: seq<Cell>, i: nat, v: Cell, c: Cell)
    requires i < |board|
    ensures Count(board[i := v], c) ==
            Count(board, c) - (if board[i] == c then 1 else 0) + (if v == c then 1 else 0)
  {
    var n := |board| - 1;
    if i == n {
      assert board[i := v][..n] == board[..n];
    } else {
      CountWrite(board[..n], i, v, c);
      assert board[i := v][..n] == board[..n][i := v];
    }
  }

  lemma {:induction false} CountUniform(n: nat, v: Cell, c: Cell)
    ensures Count(seq(n, _ => v), c) == if v == c then n else 0
  {
    if n > 0 {
      CountUniform(n - 1, v, c);
      assert seq(n, _ => v)[..n - 1] == seq(n - 1, _ => v);
    }
  }

  /** Cells that all hold c are counted: there are at least as many as the set has elements. */
  lemma {:induction false} CountAtLeast(board: seq<Cell>, c: Cell, where: set<nat>)
    requires forall i | i in where :: i < |board| && board[i] == c
    ensures Count(board, c) >= |where|
  {
    if board == [] {
      assert where == {};
    } else {
      var n := |board| - 1;
      CountAtLeast(board[..n], c, where - {n});
    }
  }

  /** A board that contains no c counts none, and the other way round. */
  lemma {:induction false} CountZero(board: seq<Cell>, c: Cell)
    ensures Count(board, c) == 0 <==> c !in board
  {
    if board != [] {
      var n := |board| - 1;
      CountZero(board[..n], c);
      assert board == board[..n] + [board[n]];
    }
  }

  /** Some move of the log took the cell. */
  ghost predicate Used(log: Log, c: int) {
    exists i :: 0 <= i < |log| && log[i].action.cellId == c
  }

  /**
   The marks picture the log: moves alternate starting with the first player, cells are used at most once, and a
   cell holds a mark exactly when some move put it there.
   */
  ghost predicate Depicts(rules: Rules, p: Players, log: Log, s: State) {
    && |s.board| == rules.cells
    && s.players == p
    && s.current == Some(Seat(p, |log|))
    && (forall i | 0 <= i < |log| ::
          log[i].userId == Seat(p, i)
          && 0 <= log[i].action.cellId < rules.cells
          && s.board[log[i].action.cellId] == Some(Seat(p, i)))
    && (forall i, j | 0 <= i < j < |log| :: log[i].action.cellId != log[j].action.cellId)
    && (forall c | 0 <= c < rules.cells && s.board[c] != None :: Used(log, c))
  }

  /** The marks are split evenly up to the turn, and every move fills one cell. */
  ghost predicate Balanced(rules: Rules, p: Players, n: nat, board: seq<Cell>) {
    && Count(board, Some(p.first)) == (n + 1) / 2
    && Count(board, Some(p.second)) == n / 2
    && Count(board, None) == rules.cells - n
  }

  lemma {:induction false} MoveDepicted(rules: Rules, p: Players, log: Log, s: State, m: StoredMove<Action>)
    requires p.first != p.second
    requires Depicts(rules, p, log, s) && IsValidMove(rules, s, m.userId, m.action)
    ensures Depicts(rules, p, log + [m], Moved(rules, s, m.userId, m.action).0)
  {
    var longer, t := log + [m], Moved(rules, s, m.userId, m.action).0;
    var c := m.action.cellId;
    assert t.board == s.board[c := Some(m.userId)];
    forall d | 0 <= d < rules.cells && t.board[d] != None
      ensures Used(longer, d)
    {
      UsedLonger(log, m, d);
    }
  }

  lemma {:induction false} UsedLonger(log: Log, m: StoredMove<Action>, cell: int)
    ensures Used(log + [m], cell) <==> Used(log, cell) || m.action.cellId == cell
  {
    assert (log + [m])[|log|] == m;
    assert forall i | 0 <= i < |log| :: (log + [m])[i] == log[i];
  }

  lemma {:induction false} MoveBalanced(rules: Rules, p: Players, n: nat, s: State, m: StoredMove<Action>)
    requires p.first != p.second && m.userId == Seat(p, n)
    requires IsValidMove(rules, s, m.userId, m.action) && Balanced(rules, p, n, s.board)
    ensures Balanced(rules, p, n + 1, Moved(rules, s, m.userId, m.action).0.board)
  {
    CountWrite(s.board, m.action.cellId, Some(m.userId), Some(p.first));
    CountWrite(s.board, m.action.cellId, Some(m.userId), Some(p.second));
    CountWrite(s.board, m.action.cellId, Some(m.userId), None);
  }

  /** A legal log ends with a legal move on the board of the log before it. */
  lemma {:induction false} LastMove(e: TttEngine, rules: Rules, p: Players, log: Log)
    requires Plays(e, rules) && LegalMoves(e, p, log) && log != []
    ensures var before, m := log[..|log| - 1], log[|log| - 1];
            && LegalMoves(e, p, before)
            && IsValidMove(rules, Replay(e, p, before), m.userId, m.action)
            && (Replay(e, p, log), ResultOf(e, p, log)) == Moved(rules, Replay(e, p, before), m.userId, m.action)
  {
  }

  /** The board after a legal log is the picture of that log. */
  lemma {:induction false} LogDepicted(e: TttEngine, rules: Rules, p: Players, log: Log)
    requires Plays(e, rules) && p.first != p.second
    requires LegalMoves(e, p, log)
    ensures Depicts(rules, p, log, Replay(e, p, log))
    ensures Balanced(rules, p, |log|, Replay(e, p, log).board)
    ensures |log| <= rules.cells
  {
    if log == [] {
      CountUniform(rules.cells, None, None);
      CountUniform(rules.cells, None, Some(p.first));
      CountUniform(rules.cells, None, Some(p.second));
    } else {
      var n := |log| - 1;
      var before, m := log[..n], log[n];
      LastMove(e, rules, p, log);
      LogDepicted(e, rules, p, before);
      var s := Replay(e, p, before);
      MoveDepicted(rules, p, before, s, m);
      MoveBalanced(rules, p, n, s, m);
      assert before + [m] == log;
    }
  }

  /** Moves alternate from the first player on and take different cells of the board. */
  ghost predicate InTurn(rules: Rules, p: Players, log: Log) {
    && (forall i | 0 <= i < |log| :: log[i].userId == Seat(p, i) && 0 <= log[i].action.cellId < rules.cells)
    && (forall i, j | 0 <= i < j < |log| :: log[i].action.cellId != log[j].action.cellId)
  }

  /** The legal logs are exactly the alternating ones on different cells: legality looks at nothing else. */
  lemma {:induction false} LegalExactly(e: TttEngine, rules: Rules, p: Players, log: Log)
    requires Plays(e, rules) && p.first != p.second
    ensures LegalMoves(e, p, log) <==> InTurn(rules, p, log)
  {
    if LegalMoves(e, p, log) {
      LogDepicted(e, rules, p, log);
    }
    if InTurn(rules, p, log) {
      InTurnLegal(e, rules, p, log);
    }
  }

  lemma {:induction false} InTurnLegal(e: TttEngine, rules: Rules, p: Players, log: Log)
    requires Plays(e, rules) && p.first != p.second && InTurn(rules, p, log)
    ensures LegalMoves(e, p, log)
  {
    if log != [] {
      var before, m := log[..|log| - 1], log[|log| - 1];
      assert before + [m] == log;
      InTurnLegal(e, rules, p, before);
      LogDepicted(e, rules, p, before);
      NextMoveLegal(e, rules, p, before, m);
    }
  }

  lemma {:induction false} NextMoveLegal(e: TttEngine, rules: Rules, p: Players, log: Log, m: StoredMove<Action>)
    requires Plays(e, rules) && LegalMoves(e, p, log) && Depicts(rules, p, log, Replay(e, p, log))
    requires m.userId == Seat(p, |log|) && 0 <= m.action.cellId < rules.cells
    requires forall i | 0 <= i < |log| :: log[i].action.cellId != m.action.cellId
    ensures LegalMoves(e, p, log + [m])
  {
    assert !Used(log, m.action.cellId);
    AppendMove(e, p, log, m);
  }

  // ---------- Winners ----------

  /** The winner is the holder of some held line, and there is none exactly when no line is held. */
  lemma {:induction false} WinnerHoldsALine(board: seq<Cell>, lines: seq<seq<nat>>)
    ensures Winner(board, lines) == None <==> forall l | l in lines :: !Held(board, l)
    ensures Winner(board, lines) != None ==>
              exists l :: l in lines && Held(board, l) && At(board, l[0]) == Winner(board, lines)
  {
    if lines != [] {
      WinnerHoldsALine(board, lines[1..]);
      assert forall l :: l in lines <==> l == lines[0] || l in lines[1..];
    }
  }

  /** Writing a cell outside a line does not change whether the line is held. */
  lemma {:induction false} UntouchedLine(board: seq<Cell>, i: nat, v: Cell, l: seq<nat>)
    requires i < |board| && forall k | 0 <= k < |l| :: l[k] != i
    ensures Held(board[i := v], l) <==> Held(board, l)
  {
    assert forall k | 0 <= k < |l| :: At(board[i := v], l[k]) == At(board, l[k]);
  }

  /** A line that becomes held by marking one cell belongs to the player who marked it. */
  lemma {:induction false} NewLineIsMovers(board: seq<Cell>, i: nat, u: PlayerId, l: seq<nat>)
    requires i < |board| && Held(board[i := Some(u)], l) && !Held(board, l)
    ensures At(board[i := Some(u)], l[0]) == Some(u)
  {
    if forall k | 0 <= k < |l| :: l[k] != i {
      UntouchedLine(board, i, Some(u), l);
    }
  }

  /** Every held line belongs to the given player. */
  ghost predicate OnlyHolder(board: seq<Cell>, lines: seq<seq<nat>>, w: PlayerId) {
    forall l | l in lines && Held(board, l) :: At(board, l[0]) == Some(w)
  }

  /**
   Mover wins: after a legal play, every held line belongs to the player who moved last. So no two players ever
   both hold a line, and a reported winner is the last mover.
   */
  lemma {:induction false} MoverWins(e: TttEngine, rules: Rules, p: Players, log: Log)
    requires Plays(e, rules) && p.first != p.second
    requires LegalPlay(e, p, log) && log != []
    ensures OnlyHolder(Replay(e, p, log).board, rules.lines, log[|log| - 1].userId)
    ensures var w := Winner(Replay(e, p, log).board, rules.lines);
            w == None || w == Some(Seat(p, |log| - 1))
  {
    var n := |log| - 1;
    var before, m := log[..n], log[n];
    LogDepicted(e, rules, p, log);
    NoLineBeforeResult(e, rules, p, before);
    var s, t := Replay(e, p, before), Replay(e, p, log);
    LastMove(e, rules, p, log);
    assert t.board == s.board[m.action.cellId := Some(m.userId)];
    forall l | l in rules.lines && Held(t.board, l)
      ensures At(t.board, l[0]) == Some(m.userId)
    {
      NewLineIsMovers(s.board, m.action.cellId, m.userId, l);
    }
    WinnerHoldsALine(t.board, rules.lines);
  }

  /** A legal log without a result leaves every line open. */
  lemma {:induction false} NoLineBeforeResult(e: TttEngine, rules: Rules, p: Players, log: Log)
    requires Plays(e, rules) && p.first != p.second
    requires LegalMoves(e, p, log) && ResultOf(e, p, log) == None
    ensures forall l | l in rules.lines :: !Held(Replay(e, p, log).board, l)
  {
    if log != [] {
      LastMove(e, rules, p, log);
      WinnerHoldsALine(Replay(e, p, log).board, rules.lines);
    }
  }

  /** Scanning the same lines in another order, or with repetitions, reports the same winner. */
  lemma {:induction false} ScanOrderIrrelevant(e: TttEngine, rules: Rules, p: Players, log: Log, lines: seq<seq<nat>>)
    requires Plays(e, rules) && p.first != p.second
    requires LegalPlay(e, p, log)
    requires forall l :: l in lines <==> l in rules.lines
    ensures var board := Replay(e, p, log).board;
            Winner(board, lines) == Winner(board, rules.lines)
  {
    var board := Replay(e, p, log).board;
    WinnerHoldsALine(board, lines);
    WinnerHoldsALine(board, rules.lines);
    if log == [] {
      assert forall i: nat :: At(board, i) == None;
    } else {
      MoverWins(e, rules, p, log);
    }
  }

  // ---------- Results ----------

  /** The different cells of a line. */
  function Cells(l: seq<nat>): set<nat> {
    set c | c in l
  }

  /** A depicted board counts as full exactly when there are as many moves as cells. */
  lemma {:induction false} FullBoard(rules: Rules, p: Players, log: Log, s: State)
    requires Proper(p) && Depicts(rules, p, log, s) && Balanced(rules, p, |log|, s.board)
    ensures (forall c | c in s.board :: Marked(c)) <==> |log| == rules.cells
  {
    CountZero(s.board, None);
    forall c | c in s.board && c != None
      ensures Marked(c)
    {
      var k :| 0 <= k < |s.board| && s.board[k] == c;
      assert Used(log, k);
      var i :| 0 <= i < |log| && log[i].action.cellId == k;
      assert s.board[log[i].action.cellId] == Some(Seat(p, i));
    }
  }

  /** What a result says, both ways: the last mover holds a line, or the board is full and nobody does. */
  lemma {:induction false} ResultMeans(e: TttEngine, rules: Rules, p: Players, log: Log)
    requires Plays(e, rules) && Proper(p)
    requires LegalPlay(e, p, log) && log != []
    ensures var board, mover := Replay(e, p, log).board, Seat(p, |log| - 1);
            var line := exists l :: l in rules.lines && Held(board, l) && At(board, l[0]) == Some(mover);
            ResultOf(e, p, log) ==
              if line then Some(GameResult(Some(mover), false))
              else if |log| == rules.cells then Some(GameResult(None, true))
              else None
  {
    LastMove(e, rules, p, log);
    var board := Replay(e, p, log).board;
    MoverWins(e, rules, p, log);
    WinnerHoldsALine(board, rules.lines);
    LogDepicted(e, rules, p, log);
    FullBoard(rules, p, log, Replay(e, p, log));
  }

  /** Before the board is full, the player to move has a valid move, whatever has been reported. */
  lemma {:induction false} FreeCell(e: TttEngine, rules: Rules, p: Players, log: Log) returns (a: Action)
    requires Plays(e, rules) && p.first != p.second && LegalMoves(e, p, log) && |log| < rules.cells
    ensures IsValidMove(rules, Replay(e, p, log), Seat(p, |log|), a)
  {
    var s := Replay(e, p, log);
    LogDepicted(e, rules, p, log);
    CountZero(s.board, None);
    var k :| 0 <= k < |s.board| && s.board[k] == None;
    a := Action(k);
  }

  /** While a legal play has no result, the player to move has a valid move. */
  lemma {:induction false} AlwaysAMove(e: TttEngine, rules: Rules, p: Players, log: Log) returns (a: Action)
    requires Plays(e, rules) && Proper(p) && rules.cells > 0
    requires LegalPlay(e, p, log) && ResultOf(e, p, log) == None
    ensures IsValidMove(rules, Replay(e, p, log), Seat(p, |log|), a)
    ensures |log| < rules.cells
  {
    LogDepicted(e, rules, p, log);
    if log != [] {
      ResultMeans(e, rules, p, log);
    }
    a := FreeCell(e, rules, p, log);
  }

  /**
   A decided game is short enough and long enough: with k different cells in every line, a win takes at least
   2k - 1 moves, a draw fills the board, and no game is longer than the board.
   */
  lemma {:induction false} GameLength(e: TttEngine, rules: Rules, p: Players, log: Log, k: nat, result: GameResult)
    requires Plays(e, rules) && Proper(p)
    requires forall l | l in rules.lines :: |Cells(l)| >= k
    requires CompleteGame(e, p, log, result)
    ensures |log| <= rules.cells
    ensures result.isDraw <==> result.winner == None
    ensures result.isDraw ==> |log| == rules.cells
    ensures !result.isDraw ==> result.winner == Some(Seat(p, |log| - 1)) && |log| >= 2 * k - 1
  {
    var board := Replay(e, p, log).board;
    LogDepicted(e, rules, p, log);
    ResultMeans(e, rules, p, log);
    if !result.isDraw {
      var mover := Some(Seat(p, |log| - 1));
      var l :| l in rules.lines && Held(board, l) && At(board, l[0]) == mover;
      forall c | c in l
        ensures c < |board| && board[c] == mover
      {
        var i :| 0 <= i < |l| && l[i] == c;
        assert At(board, l[i]) == At(board, l[0]);
      }
      CountAtLeast(board, mover, Cells(l));
    }
  }

  /** With one player in both seats nobody can make the second move: why the ids have to differ. */
  lemma {:induction false} SamePlayerStalls(e: TttEngine, rules: Rules, p: Players, log: Log)
    requires Plays(e, rules) && p.first == p.second
    requires LegalMoves(e, p, log)
    ensures |log| <= 1
    ensures Replay(e, p, log).players == p
    ensures log != [] ==> Replay(e, p, log).current == None
  {
    if log != [] {
      LastMove(e, rules, p, log);
      SamePlayerStalls(e, rules, p, log[..|log| - 1]);
    }
  }

  // ---------- The classic board ----------

  /** The eight lines of the classic board have three different cells each. */
  lemma {:induction false} ClassicLines()
    ensures forall l | l in CLASSIC.lines :: |Cells(l)| == 3
  {
    forall l | l in CLASSIC.lines
      ensures |Cells(l)| == 3
    {
      assert Cells(l) == {l[0], l[1], l[2]};
    }
  }

  /** The cell of the classic board in a row and a column. */
  function CellAt(board: seq<Cell>, row: nat, column: nat): Cell
    requires |board| == 9 && row < 3 && column < 3
  {
    board[3 * row + column]
  }

  ghost predicate WholeRow(board: seq<Cell>, row: nat, u: PlayerId)
    requires |board| == 9 && row < 3
  {
    forall column: nat | column < 3 :: CellAt(board, row, column) == Some(u)
  }

  ghost predicate WholeColumn(board: seq<Cell>, column: nat, u: PlayerId)
    requires |board| == 9 && column < 3
  {
    forall row: nat | row < 3 :: CellAt(board, row, column) == Some(u)
  }

  /** The diagonal from the first cell to the last, and the other one. */
  ghost predicate Diagonal(board: seq<Cell>, u: PlayerId)
    requires |board| == 9
  {
    forall row: nat, column: nat | row < 3 && column < 3 && row == column :: CellAt(board, row, column) == Some(u)
  }

  ghost predicate OtherDiagonal(board: seq<Cell>, u: PlayerId)
    requires |board| == 9
  {
    forall row: nat, column: nat | row < 3 && column < 3 && row + column == 2 :: CellAt(board, row, column) == Some(u)
  }

  /** The player has three in a row: a whole row, a whole column, or one of the two diagonals. */
  ghost predicate ThreeInARow(board: seq<Cell>, u: PlayerId)
    requires |board| == 9
  {
    || (exists row: nat | row < 3 :: WholeRow(board, row, u))
    || (exists column: nat | column < 3 :: WholeColumn(board, column, u))
    || Diagonal(board, u)
    || OtherDiagonal(board, u)
  }

  /** The player holds the line. */
  ghost predicate Holds(board: seq<Cell>, l: seq<nat>, u: PlayerId) {
    Held(board, l) && At(board, l[0]) == Some(u)
  }

  lemma {:induction false} LineOfThree(board: seq<Cell>, a: nat, b: nat, c: nat, u: PlayerId)
    requires |board| == 9 && a < 9 && b < 9 && c < 9 && u != ""
    ensures Holds(board, [a, b, c], u) <==> board[a] == Some(u) && board[b] == Some(u) && board[c] == Some(u)
  {
    var l := [a, b, c];
    assert l[0] == a && l[1] == b && l[2] == c;
  }

  lemma {:induction false} RowMeans(board: seq<Cell>, row: nat, u: PlayerId)
    requires |board| == 9 && u != "" && row < 3
    ensures Holds(board, [3 * row, 3 * row + 1, 3 * row + 2], u) <==> WholeRow(board, row, u)
  {
    LineOfThree(board, 3 * row, 3 * row + 1, 3 * row + 2, u);
    assert WholeRow(board, row, u) ==>
             CellAt(board, row, 0) == CellAt(board, row, 1) == CellAt(board, row, 2) == Some(u);
  }

  lemma {:induction false} ColumnMeans(board: seq<Cell>, column: nat, u: PlayerId)
    requires |board| == 9 && u != "" && column < 3
    ensures Holds(board, [column, 3 + column, 6 + column], u) <==> WholeColumn(board, column, u)
  {
    LineOfThree(board, column, 3 + column, 6 + column, u);
    assert WholeColumn(board, column, u) ==>
             CellAt(board, 0, column) == CellAt(board, 1, column) == CellAt(board, 2, column) == Some(u);
  }

  lemma {:induction false} DiagonalsMean(board: seq<Cell>, u: PlayerId)
    requires |board| == 9 && u != ""
    ensures Holds(board, [0, 4, 8], u) <==> Diagonal(board, u)
    ensures Holds(board, [2, 4, 6], u) <==> OtherDiagonal(board, u)
  {
    LineOfThree(board, 0, 4, 8, u);
    LineOfThree(board, 2, 4, 6, u);
    assert Diagonal(board, u) ==> CellAt(board, 0, 0) == CellAt(board, 1, 1) == CellAt(board, 2, 2) == Some(u);
    assert OtherDiagonal(board, u) ==> CellAt(board, 0, 2) == CellAt(board, 1, 1) == CellAt(board, 2, 0) == Some(u);
  }

  /** These are the rows, then the columns, then the diagonals. */
  ghost predicate RowsColumnsDiagonals(lines: seq<seq<nat>>) {
    && |lines| == 8
    && (forall row | 0 <= row < 3 :: lines[row] == [3 * row, 3 * row + 1, 3 * row + 2])
    && (forall i | 3 <= i < 6 :: lines[i] == [i - 3, i, 3 + i])
    && lines[6] == [0, 4, 8] && lines[7] == [2, 4, 6]
  }

  lemma {:induction false} LineMeans(board: seq<Cell>, lines: seq<seq<nat>>, i: nat, u: PlayerId)
    requires RowsColumnsDiagonals(lines) && |board| == 9 && u != "" && i < 8
    ensures Holds(board, lines[i], u) <==>
            if i < 3 then WholeRow(board, i, u)
            else if i < 6 then WholeColumn(board, i - 3, u)
            else if i == 6 then Diagonal(board, u)
            else OtherDiagonal(board, u)
  {
    if i < 3 {
      RowMeans(board, i, u);
    } else if i < 6 {
      ColumnMeans(board, i - 3, u);
    } else {
      DiagonalsMean(board, u);
    }
  }

  lemma {:induction false} LinesMean(board: seq<Cell>, lines: seq<seq<nat>>, u: PlayerId)
    requires RowsColumnsDiagonals(lines) && |board| == 9 && u != ""
    ensures (exists i | 0 <= i < 8 :: Holds(board, lines[i], u)) <==> ThreeInARow(board, u)
  {
    forall i: nat | i < 8
      ensures Holds(board, lines[i], u) <==>
              if i < 3 then WholeRow(board, i, u)
              else if i < 6 then WholeColumn(board, i - 3, u)
              else if i == 6 then Diagonal(board, u)
              else OtherDiagonal(board, u)
    {
      LineMeans(board, lines, i, u);
    }
    if column: nat :| column < 3 && WholeColumn(board, column, u) {
      assert Holds(board, lines[column + 3], u);
    }
    assert Diagonal(board, u) ==> Holds(board, lines[6], u);
    assert OtherDiagonal(board, u) ==> Holds(board, lines[7], u);
  }

  /** The lines of the classic board are its rows, columns and diagonals: to hold one is to have three in a row. */
  lemma {:induction false} ClassicLinesMean(board: seq<Cell>, u: PlayerId)
    requires |board| == 9 && u != ""
    ensures (exists l | l in CLASSIC.lines :: Holds(board, l, u)) <==> ThreeInARow(board, u)
  {
    ListedLines();
    LinesMean(board, CLASSIC.lines, u);
    if i :| 0 <= i < 8 && Holds(board, CLASSIC.lines[i], u) {
      assert CLASSIC.lines[i] in CLASSIC.lines;
    }
  }

  lemma {:induction false} HeldIsHolds(board: seq<Cell>, lines: seq<seq<nat>>, u: PlayerId)
    ensures (exists l | l in lines :: Holds(board, l, u)) <==>
            exists l :: l in lines && Held(board, l) && At(board, l[0]) == Some(u)
  {
  }

  lemma {:induction false} ListedLines()
    ensures RowsColumnsDiagonals(CLASSIC.lines)
  {
  }

  /** So a legal classic play reports a win exactly on three in a row of the last mover, else a draw on a full board. */
  lemma {:induction false} ClassicResult(e: TttEngine, p: Players, log: Log)
    requires Plays(e, CLASSIC) && Proper(p) && LegalPlay(e, p, log) && log != []
    ensures |Replay(e, p, log).board| == 9
    ensures var board, mover := Replay(e, p, log).board, Seat(p, |log| - 1);
            ResultOf(e, p, log) ==
              if ThreeInARow(board, mover) then Some(GameResult(Some(mover), false))
              else if |log| == 9 then Some(GameResult(None, true))
              else None
  {
    LogDepicted(e, CLASSIC, p, log);
    ResultMeans(e, CLASSIC, p, log);
    var board, mover := Replay(e, p, log).board, Seat(p, |log| - 1);
    ClassicLinesMean(board, mover);
    HeldIsHolds(board, CLASSIC.lines, mover);
  }

  /**
   A complete classic game: 5 to 9 moves in turn on different cells, exactly one of win or draw, win by the last
   mover.
   */
  lemma {:induction false} ClassicGame(e: TttEngine, p: Players, log: Log, result: GameResult)
    requires Plays(e, CLASSIC) && Proper(p) && CompleteGame(e, p, log, result)
    ensures 5 <= |log| <= 9
    ensures forall i | 0 <= i < |log| :: log[i].userId == Seat(p, i) && 0 <= log[i].action.cellId < 9
    ensures forall i, j | 0 <= i < j < |log| :: log[i].action.cellId != log[j].action.cellId
    ensures result == GameResult(Some(Seat(p, |log| - 1)), false) || (result == GameResult(None, true) && |log| == 9)
  {
    ClassicLines();
    GameLength(e, CLASSIC, p, log, 3, result);
    LogDepicted(e, CLASSIC, p, log);
  }

  /** No classic play of fewer than five moves has a result. */
  lemma {:induction false} NoEarlyResult(e: TttEngine, p: Players, log: Log)
    requires Plays(e, CLASSIC) && Proper(p) && LegalPlay(e, p, log) && |log| < 5
    ensures ResultOf(e, p, log) == None
  {
    if ResultOf(e, p, log) != None {
      ClassicGame(e, p, log, ResultOf(e, p, log).value);
    }
  }

  /** Hence every legal log of fewer than five moves is open. */
  lemma {:induction false} EarlyMovesOpen(e: TttEngine, p: Players, log: Log)
    requires Plays(e, CLASSIC) && Proper(p) && LegalMoves(e, p, log) && |log| < 5
    ensures Open(e, p, log)
  {
    if log != [] {
      EarlyMovesOpen(e, p, log[..|log| - 1]);
      NoEarlyResult(e, p, log);
    }
  }
}
