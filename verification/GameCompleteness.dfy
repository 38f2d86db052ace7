/** The other direction: the service accepts every legal play, and stores every complete legal game as it was played. */
module GameCompleteness {
  import opened Basics
  import opened GameEngine
  import opened Games
  import opened GameTheory

  /** The calls that play a log, with the database up. */
  function MovesOf<A>(g: GameId, log: seq<StoredMove<A>>): seq<Call<A>> {
    if log == [] then [] else [Move(g, log[0].userId, log[0].action, true)] + MovesOf(g, log[1..])
  }

  /** The game is on and its log is this one. */
  ghost predicate Playing<S, A>(reg: Registry<S, A>, w: World<S, A>, g: GameId, log: seq<StoredMove<A>>) {
    && g in w.games
    && Live(w.games[g].state, w.now)
    && Cached(reg, w.games[g])
    && reg[w.games[g].origin.gameType].dataTTL > 0
    && w.games[g].moves == log
  }

  /** The TTL of the game's state starts now. */
  ghost predicate JustRenewed<S, A>(reg: Registry<S, A>, w: World<S, A>, g: GameId) {
    && g in w.games && w.games[g].state.Some? && w.games[g].origin.gameType in reg
    && w.games[g].state.value.expiry == w.now + 1000 * reg[w.games[g].origin.gameType].dataTTL
  }

  /** The game keeps its origin and history flag, and the clock, the rooms and the users are as they were. */
  ghost predicate SameGame<S, A>(w: World<S, A>, w': World<S, A>, g: GameId)
    requires g in w.games && g in w'.games
  {
    && (w'.games[g].origin, w'.games[g].failed) == (w.games[g].origin, w.games[g].failed)
    && (w'.now, w'.rooms, w'.users) == (w.now, w.rooms, w.users)
  }

  /** One more legal move without a result is accepted. */
  lemma {:induction false} MoveAccepted<S, A>(reg: Registry<S, A>, w: World<S, A>, g: GameId, log: seq<StoredMove<A>>,
                                              m: StoredMove<A>)
    requires Playing(reg, w, g, log)
    requires var e, p := reg[w.games[g].origin.gameType], w.games[g].origin.players;
             LegalMoves(e, p, log + [m]) && ResultOf(e, p, log + [m]) == None
    ensures var w' := MakeMove(reg, w, g, m.userId, m.action, true).0;
            && Playing(reg, w', g, log + [m]) && JustRenewed(reg, w', g)
            && SameGame(w, w', g)
  {
    var e, p := reg[w.games[g].origin.gameType], w.games[g].origin.players;
    AppendMove(e, p, log, m);
    CacheMoveExtends(reg, w.games[g], w.now, m);
  }

  /** The first move of an open legal continuation is legal and has no result. */
  lemma {:induction false} FirstOfRest<S, A>(e: Engine<S, A>, p: Players, done: seq<StoredMove<A>>,
                                             rest: seq<StoredMove<A>>)
    requires rest != [] && LegalMoves(e, p, done + rest) && Open(e, p, done + rest)
    ensures LegalMoves(e, p, done + [rest[0]]) && ResultOf(e, p, done + [rest[0]]) == None
    ensures done + [rest[0]] + rest[1..] == done + rest
  {
    Prefixes(e, p, done + rest, |done| + 1);
    assert (done + rest)[..|done| + 1] == done + [rest[0]];
  }

  /** A legal continuation without a result can be played to its end. */
  lemma {:induction false} PlayOn<S, A>(reg: Registry<S, A>, w: World<S, A>, g: GameId, done: seq<StoredMove<A>>,
                                        rest: seq<StoredMove<A>>)
    requires Playing(reg, w, g, done)
    requires var e, p := reg[w.games[g].origin.gameType], w.games[g].origin.players;
             LegalMoves(e, p, done + rest) && Open(e, p, done + rest)
    ensures var w' := Run(reg, w, MovesOf(g, rest));
            && Playing(reg, w', g, done + rest)
            && SameGame(w, w', g)
    decreases |rest|
  {
    if rest == [] {
      assert done + rest == done;
    } else {
      var m, done' := rest[0], done + [rest[0]];
      FirstOfRest(reg[w.games[g].origin.gameType], w.games[g].origin.players, done, rest);
      MoveAccepted(reg, w, g, done, m);
      PlayOn(reg, MakeMove(reg, w, g, m.userId, m.action, true).0, g, done', rest[1..]);
      RunFirst(reg, w, Move(g, m.userId, m.action, true), MovesOf(g, rest[1..]));
    }
  }

  lemma {:induction false} RunFirst<S, A>(reg: Registry<S, A>, w: World<S, A>, c: Call<A>, calls: seq<Call<A>>)
    ensures Run(reg, w, [c] + calls) == Run(reg, Step(reg, w, c).0, calls)
  {
    assert ([c] + calls)[1..] == calls;
  }

  /** The move that reports the result stores the whole log. */
  lemma {:induction false} LastMoveStores<S, A>(reg: Registry<S, A>, w: World<S, A>, g: GameId,
                                                before: seq<StoredMove<A>>, m: StoredMove<A>, result: GameResult)
    requires Playing(reg, w, g, before) && Pointed(w.rooms, g)
    requires var e, p := reg[w.games[g].origin.gameType], w.games[g].origin.players;
             LegalMoves(e, p, before + [m]) && ResultOf(e, p, before + [m]) == Some(result)
    requires forall i | 0 <= i < |before + [m]| :: (before + [m])[i].userId in w.users
    ensures var meta, w' := w.games[g].origin, MakeMove(reg, w, g, m.userId, m.action, true).0;
            && g in w'.games
            && w'.games[g] == Game(GameRow(meta.gameType, Finished, Some(result), Some(w.now)),
                                   Numbered(g, before + [m]), None, None, [], meta, w.games[g].failed)
            && w'.rooms == ClearPointer(w.rooms, g)
  {
    var e, p, log := reg[w.games[g].origin.gameType], w.games[g].origin.players, before + [m];
    AppendMove(e, p, before, m);
    assert [] + Numbered(g, log) == Numbered(g, log);
  }

  lemma {:induction false} RunAppend<S, A>(reg: Registry<S, A>, w: World<S, A>, calls: seq<Call<A>>, more: seq<Call<A>>)
    ensures Run(reg, w, calls + more) == Run(reg, Run(reg, w, calls), more)
    decreases |calls|
  {
    if calls == [] {
      assert calls + more == more;
    } else {
      assert (calls + more)[1..] == calls[1..] + more;
      RunAppend(reg, Step(reg, w, calls[0]).0, calls[1..], more);
    }
  }

  lemma {:induction false} MovesOfAppend<A>(g: GameId, log: seq<StoredMove<A>>, m: StoredMove<A>)
    ensures MovesOf(g, log + [m]) == MovesOf(g, log) + [Move(g, m.userId, m.action, true)]
  {
    if log == [] {
      assert log + [m] == [m];
    } else {
      assert (log + [m])[1..] == log[1..] + [m];
      MovesOfAppend(g, log[1..], m);
    }
  }

  /**
   Every complete legal game can be played from any consistent world, and ends up stored move by move with its
   result, its keys gone and its room free.
   */
  lemma {:induction false} CompleteGameStored<S, A>(reg: Registry<S, A>, w: World<S, A>, room: RoomId, t: GameType,
                                                    p: Players, g: GameId, log: seq<StoredMove<A>>, result: GameResult)
    requires t in reg && reg[t].dataTTL > 0 && room in w.rooms && g !in w.games
    requires CompleteGame(reg[t], p, log, result)
    requires forall i | 0 <= i < |log| :: log[i].userId in w.users
    ensures var w' := Run(reg, w, [Start(room, t, p, g, true)] + MovesOf(g, log));
            && g in w'.games
            && w'.games[g] == Game(GameRow(t, Finished, Some(result), Some(w.now)), Numbered(g, log), None, None, [],
                                   Meta(t, p), false)
            && room in w'.rooms && w'.rooms[room] == None
            && w'.rooms.Keys == w.rooms.Keys
            && (forall r | r in w.rooms && r != room && w.rooms[r] != Some(g) :: w'.rooms[r] == w.rooms[r])
  {
    var start: Call<A> := Start(room, t, p, g, true);
    StartPlays(reg, w, room, t, p, g);
    PlayAll(reg, Step(reg, w, start).0, g, log, result);
    RunFirst(reg, w, start, MovesOf(g, log));
  }

  /**
   A finished game does not stay finished: one more call, asking for its state, answers that the state has expired and
   marks the game abandoned, with result and rows kept.
   */
  lemma {:induction false} FinishedThenAbandoned<S, A>(reg: Registry<S, A>, w: World<S, A>, room: RoomId, t: GameType,
                                                       p: Players, g: GameId, log: seq<StoredMove<A>>,
                                                       result: GameResult)
    requires t in reg && reg[t].dataTTL > 0 && room in w.rooms && g !in w.games
    requires CompleteGame(reg[t], p, log, result)
    requires forall i | 0 <= i < |log| :: log[i].userId in w.users
    ensures var finished := Run(reg, w, [Start(room, t, p, g, true)] + MovesOf(g, log));
            var asked := Run(reg, w, [Start(room, t, p, g, true)] + MovesOf(g, log) + [Get(g, true)]);
            && g in finished.games && finished.games[g].row.status == Finished
            && GetState(finished, g, true).1 == Refused(StateExpired)
            && g in asked.games
            && asked.games[g].row == GameRow(t, Abandoned, Some(result), Some(finished.now))
            && asked.games[g].rows == Numbered(g, log)
  {
    var calls, get: Call<A> := [Start(room, t, p, g, true)] + MovesOf(g, log), Get(g, true);
    CompleteGameStored(reg, w, room, t, p, g, log, result);
    RunAppend(reg, w, calls, [get]);
    var finished := Run(reg, w, calls);
    RunFirst(reg, finished, get, []);
    assert [get] + [] == [get];
  }

  lemma {:induction false} PlayAll<S, A>(reg: Registry<S, A>, w: World<S, A>, g: GameId, log: seq<StoredMove<A>>,
                                         result: GameResult)
    requires Playing(reg, w, g, []) && Pointed(w.rooms, g)
    requires CompleteGame(reg[w.games[g].origin.gameType], w.games[g].origin.players, log, result)
    requires forall i | 0 <= i < |log| :: log[i].userId in w.users
    ensures var meta, w' := w.games[g].origin, Run(reg, w, MovesOf(g, log));
            && g in w'.games
            && w'.games[g] == Game(GameRow(meta.gameType, Finished, Some(result), Some(w.now)), Numbered(g, log), None,
                                   None, [], meta, w.games[g].failed)
            && w'.rooms == ClearPointer(w.rooms, g)
  {
    var n := |log| - 1;
    var before, m := log[..n], log[n];
    var last: Call<A> := Move(g, m.userId, m.action, true);
    assert before + [m] == log && [] + before == before;
    PlayOn(reg, w, g, [], before);
    var w2 := Run(reg, w, MovesOf(g, before));
    LastMoveStores(reg, w2, g, before, m, result);
    MovesOfAppend(g, before, m);
    RunAppend(reg, w, MovesOf(g, before), [last]);
    RunFirst(reg, w2, last, []);
    assert [last] + [] == [last];
  }

  /** The move that reports the result while the database is down: cached with its log, not stored. */
  lemma {:induction false} LastMoveLost<S, A>(reg: Registry<S, A>, w: World<S, A>, g: GameId,
                                              before: seq<StoredMove<A>>, m: StoredMove<A>)
    requires Playing(reg, w, g, before)
    requires var e, p := reg[w.games[g].origin.gameType], w.games[g].origin.players;
             LegalMoves(e, p, before + [m]) && ResultOf(e, p, before + [m]) != None
    ensures var w' := MakeMove(reg, w, g, m.userId, m.action, false).0;
            && Playing(reg, w', g, before + [m])
            && w'.games[g].origin == w.games[g].origin
            && (w'.now, w'.rooms, w'.users) == (w.now, w.rooms, w.users)
  {
    var e, p := reg[w.games[g].origin.gameType], w.games[g].origin.players;
    AppendMove(e, p, before, m);
    CacheMoveExtends(reg, w.games[g], w.now, m);
  }

  /**
   How an illegal record comes about, for any engine that accepts a move after a result: the database fails once, on
   the move that reports the first result. The cache keeps the finished state, the next move is accepted, and when it
   reports a result too, both are stored.
   */
  lemma {:induction false} OverrunStored<S, A>(reg: Registry<S, A>, w: World<S, A>, room: RoomId, t: GameType,
                                               p: Players, g: GameId, open: seq<StoredMove<A>>, m: StoredMove<A>,
                                               extra: StoredMove<A>, result: GameResult)
    requires t in reg && reg[t].dataTTL > 0 && room in w.rooms && g !in w.games
    requires LegalMoves(reg[t], p, open) && Open(reg[t], p, open)
    requires LegalMoves(reg[t], p, open + [m]) && ResultOf(reg[t], p, open + [m]) != None
    requires LegalMoves(reg[t], p, open + [m] + [extra]) && ResultOf(reg[t], p, open + [m] + [extra]) == Some(result)
    requires forall i | 0 <= i < |open| + 2 :: (open + [m] + [extra])[i].userId in w.users
    ensures var calls := [Start(room, t, p, g, true)]
                         + (MovesOf(g, open) + ([Move(g, m.userId, m.action, false)]
                                                + [Move(g, extra.userId, extra.action, true)]));
            var w' := Run(reg, w, calls);
            && g in w'.games
            && w'.games[g].row.result == Some(result)
            && w'.games[g].rows == Numbered(g, open + [m] + [extra])
            && !CompleteGame(reg[t], p, LogIn(w'.games[g].rows), result)
  {
    var start: Call<A> := Start(room, t, p, g, true);
    var tail: seq<Call<A>> := [Move(g, m.userId, m.action, false)] + [Move(g, extra.userId, extra.action, true)];
    StartPlays(reg, w, room, t, p, g);
    var w1 := Step(reg, w, start).0;
    assert [] + open == open;
    PlayOn(reg, w1, g, [], open);
    LostThenStored(reg, Run(reg, w1, MovesOf(g, open)), g, open, m, extra, result);
    RunFirst(reg, w, start, MovesOf(g, open) + tail);
    RunAppend(reg, w1, MovesOf(g, open), tail);
    NotComplete(reg[t], p, g, open, m, extra, result);
  }

  lemma {:induction false} LostThenStored<S, A>(reg: Registry<S, A>, w: World<S, A>, g: GameId,
                                                open: seq<StoredMove<A>>, m: StoredMove<A>, extra: StoredMove<A>,
                                                result: GameResult)
    requires Playing(reg, w, g, open) && Pointed(w.rooms, g)
    requires var e, p := reg[w.games[g].origin.gameType], w.games[g].origin.players;
             && LegalMoves(e, p, open + [m]) && ResultOf(e, p, open + [m]) != None
             && LegalMoves(e, p, open + [m] + [extra]) && ResultOf(e, p, open + [m] + [extra]) == Some(result)
    requires forall i | 0 <= i < |open| + 2 :: (open + [m] + [extra])[i].userId in w.users
    ensures var w' := Run(reg, w, [Move(g, m.userId, m.action, false)] + [Move(g, extra.userId, extra.action, true)]);
            && g in w'.games
            && w'.games[g].row.result == Some(result)
            && w'.games[g].rows == Numbered(g, open + [m] + [extra])
  {
    var lost: Call<A> := Move(g, m.userId, m.action, false);
    var last: Call<A> := Move(g, extra.userId, extra.action, true);
    LastMoveLost(reg, w, g, open, m);
    LastMoveStores(reg, Step(reg, w, lost).0, g, open + [m], extra, result);
    RunFirst(reg, w, lost, [last]);
    RunFirst(reg, Step(reg, w, lost).0, last, []);
    assert [last] + [] == [last];
  }

  /** A log that goes on after a result is not a complete game. */
  lemma {:induction false} NotComplete<S, A>(e: Engine<S, A>, p: Players, g: GameId, open: seq<StoredMove<A>>,
                                             m: StoredMove<A>, extra: StoredMove<A>, result: GameResult)
    requires ResultOf(e, p, open + [m]) != None
    ensures !CompleteGame(e, p, LogIn(Numbered(g, open + [m] + [extra])), result)
  {
    var log := open + [m] + [extra];
    assert LogIn(Numbered(g, log)) == log;
    assert log[..|log| - 1] == open + [m];
  }

  lemma {:induction false} StartPlays<S, A>(reg: Registry<S, A>, w: World<S, A>, room: RoomId, t: GameType, p: Players,
                                            g: GameId)
    requires t in reg && reg[t].dataTTL > 0 && room in w.rooms && g !in w.games
    ensures var w' := StartGame(reg, w, room, t, p, g, true).0;
            && Playing(reg, w', g, []) && JustRenewed(reg, w', g)
            && w'.games[g].origin == Meta(t, p) && !w'.games[g].failed
            && (w'.now, w'.rooms, w'.users) == (w.now, w.rooms[room := Some(g)], w.users)
            && Pointed(w'.rooms, g)
  {
    var w' := StartGame(reg, w, room, t, p, g, true).0;
    NewGameSound(reg, g, Meta(t, p), w.now);
    assert w'.rooms[room] == Some(g);
  }
}
