/**
 The chat window of a room: a Redis list that concurrent senders push to, trim and renew. A sender's three commands
 are separate steps, and steps of any number of senders interleave.
 */
module Chat {
  import opened Basics

  const CHAT_TTL_MS := 1000 * 60 * 60
  const MAX_MESSAGES := 100

  /** A Redis list key; no elements means no key. */
  datatype ListKey<M> = ListKey(items: seq<M>, expiry: Option<int>)

  function NoKey<M>(): ListKey<M> {
    ListKey([], None)
  }

  /** The last n elements, or all if there are fewer. */
  function LastN<M>(s: seq<M>, n: nat): seq<M> {
    if |s| <= n then s else s[|s| - n..]
  }

  function RPush<M>(k: ListKey<M>, m: M): ListKey<M> {
    k.(items := k.items + [m])
  }

  /** LTRIM -100 -1 keeps the newest messages. */
  function LTrim<M>(k: ListKey<M>): ListKey<M> {
    k.(items := LastN(k.items, MAX_MESSAGES))
  }

  /** EXPIRE does nothing to a missing key. */
  function Renew<M>(k: ListKey<M>, now: int): ListKey<M> {
    if k.items == [] then k else k.(expiry := Some(now + CHAT_TTL_MS))
  }

  /** Redis drops a key once its expiry has come. */
  function Aged<M>(k: ListKey<M>, now: int): ListKey<M> {
    if k.expiry.Some? && now >= k.expiry.value then NoKey() else k
  }

  /** The three commands of one addMessage in a row. */
  function AddMessage<M>(k: ListKey<M>, m: M, now: int): ListKey<M> {
    Renew(LTrim(RPush(k, m)), now)
  }

  // ---------- Interleaved senders ----------

  type CallId = nat

  /** What a call in flight has done last. */
  datatype Phase = Pushed | Trimmed

  /**
   `log` and `renewed` are history: the messages pushed since the key was last cleared, by deletion or by expiry, and
   the last instant since then at which some call ran its EXPIRE.
   */
  datatype Room<M> = Room(now: int, key: ListKey<M>, flight: map<CallId, Phase>, log: seq<M>, renewed: Option<int>)

  function Empty<M>(now: int): Room<M> {
    Room(now, NoKey(), map[], [], None)
  }

  datatype Event<M> =
    | Push(call: CallId, message: M)
    | Trim(call: CallId)
    | Expire(call: CallId)
    | Delete
    | Tick(ms: nat)

  /** A command is run only by a call that has got that far; other events are not steps. */
  function Step<M>(c: Room<M>, e: Event<M>): Room<M> {
    match e
    case Push(i, m) =>
      if i in c.flight then c
      else c.(key := RPush(c.key, m), flight := c.flight[i := Pushed], log := c.log + [m])
    case Trim(i) =>
      if i in c.flight && c.flight[i] == Pushed then c.(key := LTrim(c.key), flight := c.flight[i := Trimmed]) else c
    case Expire(i) =>
      if i in c.flight && c.flight[i] == Trimmed then
        c.(key := Renew(c.key, c.now), flight := c.flight - {i}, renewed := if c.log == [] then None else Some(c.now))
      else c
    case Delete => c.(key := NoKey(), log := [], renewed := None)
    case Tick(ms) =>
      var now := c.now + ms;
      if c.key.expiry.Some? && now >= c.key.expiry.value then
        c.(now := now, key := NoKey(), log := [], renewed := None)
      else c.(now := now)
  }

  function Run<M>(c: Room<M>, events: seq<Event<M>>): Room<M>
    decreases |events|
  {
    if events == [] then c else Run(Step(c, events[0]), events[1..])
  }

  /** The calls that have pushed and not yet trimmed. */
  ghost function Untrimmed<M>(c: Room<M>): set<CallId> {
    set i | i in c.flight && c.flight[i] == Pushed
  }

  /** s is what `of` ends with. */
  ghost predicate IsSuffix<M>(s: seq<M>, of: seq<M>) {
    |s| <= |of| && of[|of| - |s|..] == s
  }

  function Min(a: nat, b: nat): nat {
    if a < b then a else b
  }

  /**
   The list is a suffix of what was pushed since the last clear: it has lost nothing of the newest hundred, and exceeds
   a hundred by at most the calls that have yet to trim.
   */
  ghost predicate Windowed<M>(c: Room<M>) {
    && IsSuffix(c.key.items, c.log)
    && Min(|c.log|, MAX_MESSAGES) <= |c.key.items| <= MAX_MESSAGES + |Untrimmed(c)|
  }

  /**
   The list expires exactly an hour after its last renewal; a list that has had none has a call in flight that will
   renew it.
   */
  ghost predicate Expiring<M>(c: Room<M>) {
    && c.key.expiry == (if c.renewed.Some? then Some(c.renewed.value + 1000 * 60 * 60) else None)
    && (c.renewed.Some? ==> c.log != [] && c.renewed.value <= c.now < c.renewed.value + 1000 * 60 * 60)
    && (c.log != [] && c.renewed == None ==> |c.flight| > 0)
  }

  lemma {:induction false} SuffixOfLastN<M>(s: seq<M>, of: seq<M>, n: nat)
    requires IsSuffix(s, of)
    ensures IsSuffix(LastN(s, n), of)
  {
    if |s| > n {
      assert of[|of| - n..] == of[|of| - |s|..][|s| - n..];
    }
  }

  lemma {:induction false} SuffixOfAppend<M>(s: seq<M>, of: seq<M>, m: M)
    requires IsSuffix(s, of)
    ensures IsSuffix(s + [m], of + [m])
  {
    assert (of + [m])[|of| - |s|..] == of[|of| - |s|..] + [m];
  }

  /** A push adds one call that has yet to trim, a trim takes one away, and nothing else changes their number. */
  lemma {:induction false} UntrimmedStep<M>(c: Room<M>, e: Event<M>)
    ensures |Untrimmed(Step(c, e))| ==
            if e.Push? && e.call !in c.flight then |Untrimmed(c)| + 1
            else if e.Trim? && e.call in Untrimmed(c) then |Untrimmed(c)| - 1
            else |Untrimmed(c)|
  {
    var before, after := Untrimmed(c), Untrimmed(Step(c, e));
    if e.Push? && e.call !in c.flight {
      assert after == before + {e.call};
    } else if e.Trim? && e.call in before {
      assert after == before - {e.call};
    } else {
      assert after == before;
    }
  }

  /** Every event leaves the list a suffix of the log, cut no shorter than the newest hundred. */
  lemma {:induction false} ItemsStep<M>(c: Room<M>, e: Event<M>)
    requires IsSuffix(c.key.items, c.log) && Min(|c.log|, MAX_MESSAGES) <= |c.key.items|
    ensures var c' := Step(c, e); IsSuffix(c'.key.items, c'.log) && Min(|c'.log|, MAX_MESSAGES) <= |c'.key.items|
  {
    match e
    case Push(_, m) => SuffixOfAppend(c.key.items, c.log, m);
    case Trim(_) => SuffixOfLastN(c.key.items, c.log, MAX_MESSAGES);
    case _ =>
  }

  lemma {:induction false} StepKeepsWindow<M>(c: Room<M>, e: Event<M>)
    requires Windowed(c)
    ensures Windowed(Step(c, e))
  {
    UntrimmedStep(c, e);
    ItemsStep(c, e);
  }

  /** The list is gone exactly when nothing has been pushed since the last clear. */
  lemma {:induction false} EmptyTogether<M>(c: Room<M>)
    requires Windowed(c)
    ensures c.key.items == [] <==> c.log == []
  {
  }

  lemma {:induction false} StepKeepsExpiry<M>(c: Room<M>, e: Event<M>)
    requires Expiring(c) && (c.key.items == [] <==> c.log == [])
    ensures Expiring(Step(c, e))
  {
    var c' := Step(c, e);
    if (e.Push? && e.call !in c.flight) || (e.Trim? && e.call in c.flight) {
      assert e.call in c'.flight;
      assert c'.flight != map[];
    }
  }

  /** Over every interleaving of senders, deletions and expiries. */
  lemma {:induction false} WindowUnderInterleaving<M>(c: Room<M>, events: seq<Event<M>>)
    requires Windowed(c) && Expiring(c)
    ensures Windowed(Run(c, events)) && Expiring(Run(c, events))
    decreases |events|
  {
    if events != [] {
      StepKeepsWindow(c, events[0]);
      EmptyTogether(c);
      StepKeepsExpiry(c, events[0]);
      WindowUnderInterleaving(Step(c, events[0]), events[1..]);
    }
  }

  /**
   With no trim outstanding the list is exactly the newest hundred messages, in order; and with no call in flight at
   all, a list that is there expires exactly an hour after the last call renewed it.
   */
  ghost predicate Quiet<M>(c: Room<M>) {
    && (Untrimmed(c) == {} ==> c.key.items == LastN(c.log, 100))
    && (c.flight == map[] && c.key.items != [] ==>
          c.renewed.Some? && c.key.expiry == Some(c.renewed.value + 1000 * 60 * 60))
  }

  lemma {:induction false} QuietNow<M>(c: Room<M>)
    requires Windowed(c) && Expiring(c)
    ensures Quiet(c)
  {
    EmptyTogether(c);
    assert c.flight == map[] ==> |c.flight| == 0;
  }

  /** So it is from an empty room after any interleaving. */
  lemma {:induction false} QuietWindow<M>(now: int, events: seq<Event<M>>)
    ensures Quiet(Run(Empty(now), events))
  {
    WindowUnderInterleaving(Empty(now), events);
    QuietNow(Run(Empty(now), events));
  }

  /**
   What an event does to the messages since the last clear. They are lost exactly when the key is deleted, or when an
   hour has passed since the last renewal; a push that starts a call adds its message, and everything else leaves them
   alone. The renewals are the EXPIRE commands of calls that find messages.
   */
  ghost predicate Follows<M>(c: Room<M>, e: Event<M>, c': Room<M>) {
    && c'.log == (if e.Delete? || (e.Tick? && c.renewed.Some? && c.now + e.ms >= c.renewed.value + 1000 * 60 * 60)
                  then []
                  else if e.Push? && e.call !in c.flight then c.log + [e.message] else c.log)
    && c'.renewed == (if c'.log == [] then None
                      else if e.Expire? && e.call in c.flight && c.flight[e.call] == Trimmed then Some(c.now)
                      else c.renewed)
  }

  lemma {:induction false} FollowsStep<M>(c: Room<M>, e: Event<M>)
    requires Expiring(c)
    ensures Follows(c, e, Step(c, e))
  {
  }

  /** After any interleaving from an empty room, messages are lost only by deletion or an hour without renewal. */
  lemma {:induction false} LostOnlyBy<M>(now: int, events: seq<Event<M>>, e: Event<M>)
    ensures Follows(Run(Empty(now), events), e, Step(Run(Empty(now), events), e))
  {
    WindowUnderInterleaving(Empty(now), events);
    FollowsStep(Run(Empty(now), events), e);
  }

  /** What a message sent alone looks like later: it stands at the end of the newest hundred for exactly an hour. */
  lemma {:induction false} StaysAnHour<M>(k: ListKey<M>, m: M, now: int, later: int)
    requires now <= later
    ensures Aged(AddMessage(k, m, now), later).items ==
            if later < now + 1000 * 60 * 60 then LastN(k.items + [m], 100) else []
  {
  }

  /** A call that is never interleaved with is the three commands in a row. */
  lemma {:induction false} AloneIsAtomic<M>(c: Room<M>, i: CallId, m: M)
    requires i !in c.flight
    ensures Run(c, [Push(i, m), Trim(i), Expire(i)]) ==
            c.(key := AddMessage(c.key, m, c.now), log := c.log + [m], renewed := Some(c.now))
  {
    var c1 := Step(c, Push(i, m));
    var c2 := Step(c1, Trim(i));
    var events: seq<Event<M>>, last: seq<Event<M>> := [Push(i, m), Trim(i), Expire(i)], [Expire(i)];
    assert events[1..] == [Trim(i), Expire(i)] && events[1..][1..] == last;
    assert last[1..] == [];
    assert Run(c2, last) == Step(c2, Expire(i));
    assert c2.flight - {i} == c.flight;
  }
}
