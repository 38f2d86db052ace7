/**
 The tic-tac-toe engine, over any number of cells and any family of winning lines.
 The deployed game is the instance CLASSIC.
 */
module TicTacToe {
  import opened Basics
  import opened GameEngine

  type Cell = Option<PlayerId>

  /** Board size and winning lines; a line that leaves the board can never be held. */
  datatype Rules = Rules(cells: nat, lines: seq<seq<nat>>)

  const CLASSIC := Rules(9, [
    [0, 1, 2], [3, 4, 5], [6, 7, 8],
    [0, 3, 6], [1, 4, 7], [2, 5, 8],
    [0, 4, 8], [2, 4, 6]])

  const DATA_TTL: nat := 60 * 60

  datatype Action = Action(cellId: int)

  /** `current` is absent when no player differs from the one who just moved. */
  datatype State = State(board: seq<Cell>, current: Option<PlayerId>, players: Players)

  /** A cell that counts as true: marked, and not with the empty id. */
  predicate Marked(c: Cell) {
    c.Some? && c.value != ""
  }

  /** The content of a cell; reading past the end gives nothing. */
  function At(board: seq<Cell>, i: nat): Cell {
    if i < |board| then board[i] else None
  }

  /** One player holds every cell of the line. */
  predicate Held(board: seq<Cell>, line: seq<nat>) {
    line != [] && Marked(At(board, line[0])) && forall k | 0 <= k < |line| :: At(board, line[k]) == At(board, line[0])
  }

  /** The holder of the first held line in scan order. */
  function Winner(board: seq<Cell>, lines: seq<seq<nat>>): Option<PlayerId> {
    if lines == [] then None
    else if Held(board, lines[0]) then At(board, lines[0][0])
    else Winner(board, lines[1..])
  }

  function Init(rules: Rules, p: Players): State {
    State(seq(rules.cells, _ => None), Some(p.first), p)
  }

  predicate IsValidMove(rules: Rules, s: State, user: PlayerId, a: Action) {
    && s.current == Some(user)
    && 0 <= a.cellId < rules.cells
    && a.cellId < |s.board|
    && s.board[a.cellId] == None
  }

  /** The first player id, in seat order, that differs from the given one. */
  function Other(p: Players, user: PlayerId): Option<PlayerId> {
    if p.first != user then Some(p.first) else if p.second != user then Some(p.second) else None
  }

  /** The transition of a move onto the board. */
  function Moved(rules: Rules, s: State, user: PlayerId, a: Action): (State, Option<GameResult>)
    requires 0 <= a.cellId < |s.board|
  {
    var board := s.board[a.cellId := Some(user)];
    var winner := Winner(board, rules.lines);
    var next := State(board, Other(s.players, user), s.players);
    if winner.Some? then (next, Some(GameResult(winner, false)))
    else if forall c | c in board :: Marked(c) then (next, Some(GameResult(None, true)))
    else (next, None)
  }

  /**
   The engine plays by the rules. What applyMove does with an illegal move is left open, as the interface tells
   callers to reject such moves first.
   */
  ghost predicate Plays(e: Engine<State, Action>, rules: Rules) {
    && e.dataTTL == DATA_TTL
    && (forall p :: e.init(p) == Init(rules, p))
    && (forall s, u, a :: e.isValidMove(s, u, a) <==> IsValidMove(rules, s, u, a))
    && (forall s, u, a | IsValidMove(rules, s, u, a) :: e.applyMove(s, u, a) == Moved(rules, s, u, a))
  }

  /** The deployed engine; what it does with a cell off the board is of no account. */
  function EngineFor(rules: Rules): Engine<State, Action> {
    Engine(
      DATA_TTL,
      p => Init(rules, p),
      (s: State, u, a) => IsValidMove(rules, s, u, a),
      (s: State, u, a: Action) => if 0 <= a.cellId < |s.board| then Moved(rules, s, u, a) else (s, None))
  }

  /** There is an engine for every board and every family of lines. */
  lemma {:induction false} EnginePlays(rules: Rules)
    ensures Plays(EngineFor(rules), rules)
  {
    var e := EngineFor(rules);
    assert forall s, u, a :: e.isValidMove(s, u, a) <==> IsValidMove(rules, s, u, a);
  }

  // ---------- The methods, against the functions above ----------

  /** Scans the lines in order and returns at the first held one. */
  method FindWinner(board: seq<Cell>, lines: seq<seq<nat>>) returns (winner: Option<PlayerId>)
    ensures winner == Winner(board, lines)
  {
    for i := 0 to |lines|
      invariant Winner(board, lines) == Winner(board, lines[i..])
    {
      var line := lines[i];
      if Held(board, line) {
        return At(board, line[0]);
      }
    }
    return None;
  }

  /** Copies the board, marks the cell, looks for a winner, then for a full board. */
  method ApplyMove(rules: Rules, s: State, user: PlayerId, a: Action)
    returns (next: State, result: Option<GameResult>)
    requires 0 <= a.cellId < |s.board|
    ensures (next, result) == Moved(rules, s, user, a)
  {
    var board := new Cell[|s.board|](i requires 0 <= i < |s.board| => s.board[i]);
    board[a.cellId] := Some(user);
    assert board[..] == s.board[a.cellId := Some(user)];

    var winner := FindWinner(board[..], rules.lines);
    var full := true;
    for i := 0 to board.Length
      invariant full <==> forall j | 0 <= j < i :: Marked(board[j])
    {
      full := full && Marked(board[i]);
    }
    assert full <==> forall c | c in board[..] :: Marked(c);

    next := State(board[..], Other(s.players, user), s.players);
    if winner.Some? {
      return next, Some(GameResult(winner, false));
    }
    return next, if full then Some(GameResult(None, true)) else None;
  }
}
