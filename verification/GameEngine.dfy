/** The contract between the game service and a game: an engine, its move log, and what a log means. */
module GameEngine {
  import opened Basics

  type PlayerId = string

  /** The pair of players in seat order; the first one moves first. */
  datatype Players = Players(first: PlayerId, second: PlayerId)

  datatype GameResult = GameResult(winner: Option<PlayerId>, isDraw: bool)

  datatype StoredMove<A> = StoredMove(userId: PlayerId, action: A)

  /**
   An engine: initial state, legality test, transition with an optional result, and the TTL of its data in seconds.
   */
  datatype Engine<!S, !A> = Engine(
    dataTTL: nat,
    init: Players -> S,
    isValidMove: (S, PlayerId, A) -> bool,
    applyMove: (S, PlayerId, A) -> (S, Option<GameResult>))

  /** The state reached by applying a log to the initial state. */
  function Replay<S, A>(e: Engine<S, A>, p: Players, log: seq<StoredMove<A>>): S {
    if log == [] then
      e.init(p)
    else
      var m := log[|log| - 1];
      e.applyMove(Replay(e, p, log[..|log| - 1]), m.userId, m.action).0
  }

  /** The result reported by the last move of a log; an empty log has none. */
  function ResultOf<S, A>(e: Engine<S, A>, p: Players, log: seq<StoredMove<A>>): Option<GameResult> {
    if log == [] then
      None
    else
      var m := log[|log| - 1];
      e.applyMove(Replay(e, p, log[..|log| - 1]), m.userId, m.action).1
  }

  /** Every move of the log was legal in the state it was made in. */
  ghost predicate LegalMoves<S, A>(e: Engine<S, A>, p: Players, log: seq<StoredMove<A>>) {
    log != [] ==>
      var before, m := log[..|log| - 1], log[|log| - 1];
      LegalMoves(e, p, before) && e.isValidMove(Replay(e, p, before), m.userId, m.action)
  }

  /** No move of the log has reported a result. */
  ghost predicate Open<S, A>(e: Engine<S, A>, p: Players, log: seq<StoredMove<A>>) {
    log != [] ==> Open(e, p, log[..|log| - 1]) && ResultOf(e, p, log) == None
  }

  /** A legal play: legal moves, and nobody moves after a result. */
  ghost predicate LegalPlay<S, A>(e: Engine<S, A>, p: Players, log: seq<StoredMove<A>>) {
    LegalMoves(e, p, log) && (log == [] || Open(e, p, log[..|log| - 1]))
  }

  /** A legal play that stops exactly at its first result. */
  ghost predicate CompleteGame<S, A>(e: Engine<S, A>, p: Players, log: seq<StoredMove<A>>, result: GameResult) {
    log != [] && LegalPlay(e, p, log) && ResultOf(e, p, log) == Some(result)
  }

  /** Appending one legal move to a log: the replay, the legality and the openness all extend by that move. */
  lemma {:induction false} AppendMove<S, A>(e: Engine<S, A>, p: Players, log: seq<StoredMove<A>>, m: StoredMove<A>)
    ensures LegalMoves(e, p, log + [m]) <==>
              LegalMoves(e, p, log) && e.isValidMove(Replay(e, p, log), m.userId, m.action)
    ensures (Replay(e, p, log + [m]), ResultOf(e, p, log + [m])) == e.applyMove(Replay(e, p, log), m.userId, m.action)
    ensures Open(e, p, log + [m]) <==> Open(e, p, log) && ResultOf(e, p, log + [m]) == None
  {
    assert (log + [m])[..|log|] == log && (log + [m])[|log|] == m;
  }

  /** Every prefix of a legal log is legal, and of an open log open. */
  lemma {:induction false} Prefixes<S, A>(e: Engine<S, A>, p: Players, log: seq<StoredMove<A>>, n: nat)
    requires n <= |log|
    ensures LegalMoves(e, p, log) ==> LegalMoves(e, p, log[..n])
    ensures Open(e, p, log) ==> Open(e, p, log[..n])
    ensures Open(e, p, log) ==> ResultOf(e, p, log[..n]) == None
  {
    if n == |log| {
      assert log[..n] == log;
    } else {
      var before := log[..|log| - 1];
      Prefixes(e, p, before, n);
      assert before[..n] == log[..n];
    }
  }

  /** Open means that no prefix has a result. */
  lemma {:induction false} OpenMeans<S, A>(e: Engine<S, A>, p: Players, log: seq<StoredMove<A>>)
    ensures Open(e, p, log) <==> forall n: nat | n <= |log| :: ResultOf(e, p, log[..n]) == None
  {
    if Open(e, p, log) {
      forall n: nat | n <= |log| ensures ResultOf(e, p, log[..n]) == None {
        Prefixes(e, p, log, n);
      }
    } else {
      var before := log[..|log| - 1];
      OpenMeans(e, p, before);
      assert log[..|log|] == log;
      assert forall n: nat | n <= |before| :: before[..n] == log[..n];
    }
  }
}
