/**
 The availability filters beside the user table: events keep them up to date, and a rebuild takes a snapshot of the
 table, builds new filters in a worker, and swaps them in later.
 */
module Availability {
  import opened Basics
  import opened Bloom
  import opened NicknameCandidates
  import opened Users

  datatype Filters = Filters(nicknames: Filter, emails: Filter)

  datatype Names = Names(nicknames: set<string>, emails: set<string>)

  const NO_NAMES := Names({}, {})

  /** The handlers of both user events: the email only if it is a non-empty one. */
  function AddUserIdentifiers(f: Filters, nickname: string, email: Option<string>): Filters {
    Filters(With(f.nicknames, nickname),
            if email.Some? && email.value != "" then With(f.emails, email.value) else f.emails)
  }

  /** The filters the worker posts back for a list of identifiers. */
  function Rebuilt(family: Family, ids: seq<Identifier>): Filters {
    Filters(Built(family, Nicknames(ids)), Built(family, Emails(ids)))
  }

  /**
   `snapshot` is the list a rebuild in flight is working on. The rest is history. `recent` holds the names announced
   since that snapshot, and `lost` those announced between the snapshot and the swap of the last completed rebuild;
   `added` holds the names the present filters were built from, and those they were told of since.
   */
  datatype Directory = Directory(
    users: Table, filters: Filters, snapshot: Option<seq<Identifier>>, recent: Names, lost: Names, added: Names)

  function Note(n: Names, nickname: string, email: Option<string>): Names {
    Names(n.nicknames + {nickname}, if email.Some? then n.emails + {email.value} else n.emails)
  }

  function NamesOf(ids: seq<Identifier>): Names {
    Names(NamesIn(Nicknames(ids)), NamesIn(Emails(ids)))
  }

  /** An event is handled as it is emitted; an empty email is not added. */
  function Announce(d: Directory, e: UserEvent): Directory {
    d.(filters := AddUserIdentifiers(d.filters, e.nickname, e.email),
       recent := Note(d.recent, e.nickname, e.email),
       added := Note(d.added, e.nickname, if e.email == Some("") then None else e.email))
  }

  /** findAllIdentifiers lists the table, in some order. */
  ghost predicate Lists(t: Table, ids: seq<Identifier>) {
    && (forall id | id in t :: Identifier(t[id].nickname, t[id].email) in ids)
    && (forall i | i in ids :: exists id :: id in t && i == Identifier(t[id].nickname, t[id].email))
  }

  datatype Call =
    | SignUp(id: UserId, nickname: string, email: Option<string>, googleId: Option<string>, password: Option<string>)
    | UpdateUser(id: UserId, change: Change)
    | Google(id: UserId, profile: Profile)
    | DeleteUser(id: UserId)
    | TakeSnapshot(ids: seq<Identifier>)
    | Swap
    | WorkerFails

  /** Ids of new users are fresh, and at most one rebuild is in flight; other calls are no steps. */
  ghost function Step(family: Family, d: Directory, c: Call): Directory {
    match c
    case SignUp(id, n, e, g, pw) =>
      if id in d.users then d
      else (match Put(d.users, id, User(n, e, g, pw))
            case Ok(t) => Announce(d.(users := t), UserCreated(id, n, e))
            case Err(_) => d)
    case UpdateUser(id, ch) =>
      (match Update(d.users, id, ch)
       case Ok(t) => Announce(d.(users := t), UserUpdated(id, t[id].nickname, t[id].email))
       case Err(_) => d)
    case Google(id, p) =>
      if id in d.users then d
      else
        var (t, _, events) := GoogleSignIn(d.users, id, p);
        if events == [] then d.(users := t) else Announce(d.(users := t), events[0])
    case DeleteUser(id) => d.(users := d.users - {id})
    case TakeSnapshot(ids) =>
      if d.snapshot.Some? || !Lists(d.users, ids) then d else d.(snapshot := Some(ids), recent := NO_NAMES)
    case Swap =>
      if d.snapshot.None? then d
      else Directory(d.users, Rebuilt(family, d.snapshot.value), None, NO_NAMES, d.recent, NamesOf(d.snapshot.value))
    case WorkerFails => d.(snapshot := None, recent := NO_NAMES)
  }

  ghost function Run(family: Family, d: Directory, calls: seq<Call>): Directory
    decreases |calls|
  {
    if calls == [] then d else Run(family, Step(family, d, calls[0]), calls[1..])
  }

  /** The user with this id has these values after the step, whoever had them before. */
  ghost predicate Stored(family: Family, d: Directory, c: Call, id: UserId, u: User) {
    id in Step(family, d, c).users && Step(family, d, c).users[id] == u
  }

  /**
   Who is in the table after a step. A user who signs up is in it exactly when nobody else has one of the values, and is
   announced; an update that the users service accepts is in it; and users leave only by being deleted.
   */
  lemma {:induction false} TableStep(family: Family, d: Directory, c: Call, id: UserId, u: User)
    ensures id in d.users ==> (id !in Step(family, d, c).users <==> c == DeleteUser(id))
    ensures id !in d.users && c == SignUp(id, u.nickname, u.email, u.googleId, u.password) ==>
              (Stored(family, d, c, id, u) <==> forall column :: !HeldByOther(d.users, id, u, column))
    ensures c.UpdateUser? && c.id == id && Update(d.users, id, c.change).Ok? ==>
              Stored(family, d, c, id, Update(d.users, id, c.change).value[id])
  {
    WriteAnswer(d.users, id, u);
    if c.UpdateUser? && c.id == id {
      UpdateAnswer(d.users, id, c.change);
    }
  }

  /** A rebuild is in flight from its snapshot until it is swapped in or fails; failing changes nothing else. */
  lemma {:induction false} RebuildStep(family: Family, d: Directory, c: Call)
    ensures Step(family, d, c).snapshot ==
            if d.snapshot.Some? then (if c.Swap? || c.WorkerFails? then None else d.snapshot)
            else if c.TakeSnapshot? && Lists(d.users, c.ids) then Some(c.ids)
            else None
    ensures c.WorkerFails? ==>
              (Step(family, d, c).users, Step(family, d, c).filters, Step(family, d, c).lost)
              == (d.users, d.filters, d.lost)
  {
  }

  // ---------- No name is missed ----------

  /** The filters have the user's names, unless the last completed rebuild lost them. */
  ghost predicate Known(d: Directory, u: User) {
    && (Contains(d.filters.nicknames, u.nickname) || u.nickname in d.lost.nicknames)
    && (u.email.Some? && u.email.value != "" ==>
          Contains(d.filters.emails, u.email.value) || u.email.value in d.lost.emails)
  }

  /** A rebuild in flight has the user's names in its snapshot, or they have been announced since. */
  ghost predicate Caught(d: Directory, u: User) {
    d.snapshot.Some? ==>
      && (u.nickname in Nicknames(d.snapshot.value) || u.nickname in d.recent.nicknames)
      && (u.email.Some? ==> u.email.value in Emails(d.snapshot.value) || u.email.value in d.recent.emails)
  }

  ghost predicate UserSound(d: Directory, u: User) {
    Known(d, u) && Caught(d, u)
  }

  ghost predicate Sound(d: Directory) {
    forall id {:trigger d.users[id]} | id in d.users :: UserSound(d, d.users[id])
  }

  /** Announcing keeps what was known and makes the announced names known. */
  lemma {:induction false} AnnounceKeeps(d: Directory, e: UserEvent, u: User)
    requires UserSound(d, u) || (u.nickname == e.nickname && u.email == e.email)
    ensures UserSound(Announce(d, e), u)
  {
  }

  lemma {:induction false} SnapshotCatches(d: Directory, ids: seq<Identifier>, id: UserId)
    requires Lists(d.users, ids) && id in d.users
    ensures d.users[id].nickname in Nicknames(ids)
    ensures d.users[id].email.Some? ==> d.users[id].email.value in Emails(ids)
  {
    ListedNames(ids);
    assert Identifier(d.users[id].nickname, d.users[id].email) in ids;
  }

  lemma {:induction false} SwapKeeps(family: Family, d: Directory, u: User)
    requires d.snapshot.Some? && UserSound(d, u)
    ensures UserSound(Step(family, d, Swap), u)
  {
    var ids := d.snapshot.value;
    NoFalseNegatives(Filter(family(Capacity(|Nicknames(ids)|)), {}), Nicknames(ids), u.nickname);
    if u.email.Some? {
      NoFalseNegatives(Filter(family(Capacity(|Emails(ids)|)), {}), Emails(ids), u.email.value);
    }
  }

  lemma {:induction false} GoogleKeeps(family: Family, d: Directory, id: UserId, p: Profile)
    requires Sound(d) && Unique(d.users) && id !in d.users
    ensures Sound(Step(family, d, Google(id, p)))
  {
    var (t, reply, events) := GoogleSignIn(d.users, id, p);
    var d' := Step(family, d, Google(id, p));
    GoogleAllocation(d.users, id, p);
    forall h | h in d'.users
      ensures UserSound(d', d'.users[h])
    {
      if events != [] {
        assert h != id ==> UserSound(d, d.users[h]);
        AnnounceKeeps(d.(users := t), events[0], t[h]);
      } else {
        assert UserSound(d, d.users[h]);
        assert t[h].nickname == d.users[h].nickname && t[h].email == d.users[h].email;
      }
    }
  }

  lemma {:induction false} StepKeeps(family: Family, d: Directory, c: Call)
    requires Sound(d) && Unique(d.users)
    ensures Sound(Step(family, d, c)) && Unique(Step(family, d, c).users)
  {
    var d' := Step(family, d, c);
    match c
    case SignUp(id, n, e, g, pw) => WriteKeeps(d, id, User(n, e, g, pw), UserCreated(id, n, e));
    case UpdateUser(id, ch) =>
      if id in d.users {
        var u := Applied(d.users[id], ch);
        WriteKeeps(d, id, u, UserUpdated(id, u.nickname, u.email));
      }
    case Google(id, p) =>
      if id !in d.users {
        GoogleKeeps(family, d, id, p);
        GoogleAllocation(d.users, id, p);
      }
    case DeleteUser(id) => DeleteKeeps(d, id);
    case TakeSnapshot(ids) =>
      forall h | h in d'.users ensures UserSound(d', d'.users[h]) {
        assert UserSound(d, d.users[h]);
        if d' != d {
          SnapshotCatches(d, ids, h);
        }
      }
    case Swap =>
      forall h | h in d'.users ensures UserSound(d', d'.users[h]) {
        assert UserSound(d, d.users[h]);
        if d.snapshot.Some? {
          SwapKeeps(family, d, d.users[h]);
        }
      }
    case WorkerFails =>
      forall h | h in d'.users ensures UserSound(d', d'.users[h]) {
        assert UserSound(d, d.users[h]);
      }
  }

  /** Writing one row and announcing its names. */
  lemma {:induction false} WriteKeeps(d: Directory, id: UserId, u: User, e: UserEvent)
    requires Sound(d) && Unique(d.users) && e.nickname == u.nickname && e.email == u.email
    ensures Put(d.users, id, u).Ok? ==>
              Sound(Announce(d.(users := d.users[id := u]), e)) && Unique(d.users[id := u])
  {
    if Put(d.users, id, u).Ok? {
      PutKeepsUnique(d.users, id, u);
      var d1 := d.(users := d.users[id := u]);
      forall h | h in d1.users ensures UserSound(Announce(d1, e), d1.users[h]) {
        assert h != id ==> UserSound(d, d.users[h]) && UserSound(d1, d.users[h]);
        AnnounceKeeps(d1, e, d1.users[h]);
      }
    }
  }

  lemma {:induction false} DeleteKeeps(d: Directory, id: UserId)
    requires Sound(d) && Unique(d.users)
    ensures Sound(d.(users := d.users - {id})) && Unique(d.users - {id})
  {
    var t := d.users - {id};
    forall h | h in t ensures UserSound(d.(users := t), t[h]) && Collisions(t, h, t[h]) == {} {
      assert UserSound(d, d.users[h]) && Collisions(d.users, h, d.users[h]) == {};
    }
  }

  /**
   Over every run of users signing up, changing, leaving and signing in with Google, with rebuilds starting, completing
   and failing in between: every nickname and every non-empty email in the table is in its filter, except names that
   were announced between the snapshot and the swap of the last completed rebuild.
   */
  lemma {:induction false} NoNameMissed(family: Family, d: Directory, calls: seq<Call>)
    requires Sound(d) && Unique(d.users)
    ensures Sound(Run(family, d, calls)) && Unique(Run(family, d, calls).users)
    decreases |calls|
  {
    if calls != [] {
      StepKeeps(family, d, calls[0]);
      NoNameMissed(family, Step(family, d, calls[0]), calls[1..]);
    }
  }

  /** Module start: an empty history, and filters built from the table. */
  ghost predicate Initial(family: Family, d: Directory) {
    exists ids ::
      Lists(d.users, ids) && d == Directory(d.users, Rebuilt(family, ids), None, NO_NAMES, NO_NAMES, NamesOf(ids))
  }

  lemma {:induction false} InitialSound(family: Family, d: Directory)
    requires Initial(family, d)
    ensures Sound(d)
  {
    var ids :|
      Lists(d.users, ids) && d == Directory(d.users, Rebuilt(family, ids), None, NO_NAMES, NO_NAMES, NamesOf(ids));
    var before := d.(snapshot := Some(ids));
    forall h | h in d.users ensures UserSound(d, d.users[h]) {
      SnapshotCatches(d, ids, h);
      NoFalseNegatives(Filter(family(Capacity(|Nicknames(ids)|)), {}), Nicknames(ids), d.users[h].nickname);
      if d.users[h].email.Some? {
        NoFalseNegatives(Filter(family(Capacity(|Emails(ids)|)), {}), Emails(ids), d.users[h].email.value);
      }
    }
  }

  // ---------- Atomic rebuilds ----------

  ghost predicate Complete(d: Directory) {
    forall id {:trigger d.users[id]} | id in d.users ::
      && Contains(d.filters.nicknames, d.users[id].nickname)
      && (d.users[id].email.Some? && d.users[id].email.value != "" ==>
            Contains(d.filters.emails, d.users[id].email.value))
  }

  /** While a rebuild is in flight, only its swap or its failure is a call. */
  ghost predicate Atomic(family: Family, d: Directory, calls: seq<Call>)
    decreases |calls|
  {
    calls != [] ==>
      && (d.snapshot.Some? ==> calls[0].Swap? || calls[0].WorkerFails?)
      && Atomic(family, Step(family, d, calls[0]), calls[1..])
  }

  /** With rebuilds that nothing happens during, the filters miss nothing at all. */
  lemma {:induction false} AtomicRebuildsMissNothing(family: Family, d: Directory, calls: seq<Call>)
    requires Sound(d) && Unique(d.users) && Atomic(family, d, calls)
    requires d.lost == NO_NAMES && (d.snapshot.Some? ==> d.recent == NO_NAMES)
    ensures Complete(Run(family, d, calls))
    decreases |calls|
  {
    if calls == [] {
      forall id | id in d.users
        ensures Contains(d.filters.nicknames, d.users[id].nickname)
        ensures d.users[id].email.Some? && d.users[id].email.value != "" ==>
                  Contains(d.filters.emails, d.users[id].email.value)
      {
        assert UserSound(d, d.users[id]);
      }
    } else {
      StepKeeps(family, d, calls[0]);
      AtomicRebuildsMissNothing(family, Step(family, d, calls[0]), calls[1..]);
    }
  }

  // ---------- What is missed ----------

  /** The filters have exactly the bits of the names that were added to them. */
  ghost predicate Exact(d: Directory) {
    && d.filters.nicknames.bits == Bits(d.filters.nicknames.hash, d.added.nicknames)
    && d.filters.emails.bits == Bits(d.filters.emails.hash, d.added.emails)
  }

  lemma {:induction false} RebuiltExact(family: Family, d: Directory, ids: seq<Identifier>)
    requires d.filters == Rebuilt(family, ids) && d.added == NamesOf(ids)
    ensures Exact(d)
  {
    BuiltBits(family, Nicknames(ids));
    BuiltBits(family, Emails(ids));
  }

  lemma {:induction false} BuiltBits(family: Family, names: seq<string>)
    ensures var f := Built(family, names); f.bits == Bits(f.hash, NamesIn(names))
  {
    var empty := Filter(family(Capacity(|names|)), {});
    AddAllBits(empty, names);
    SameHash(empty, names);
  }

  lemma {:induction false} AnnounceExact(d: Directory, e: UserEvent)
    requires Exact(d)
    ensures Exact(Announce(d, e))
  {
    BitsOfOneMore(d.filters.nicknames.hash, d.added.nicknames, e.nickname);
    if e.email.Some? {
      BitsOfOneMore(d.filters.emails.hash, d.added.emails, e.email.value);
    }
  }

  lemma {:induction false} StepExact(family: Family, d: Directory, c: Call)
    requires Exact(d)
    ensures Exact(Step(family, d, c))
  {
    var d' := Step(family, d, c);
    if c.Swap? && d.snapshot.Some? {
      RebuiltExact(family, d', d.snapshot.value);
    } else if d'.filters != d.filters || d'.added != d.added {
      AnnounceOnly(family, d, c);
    }
  }

  /** Apart from a swap, the filters only change by an event. */
  lemma {:induction false} AnnounceOnly(family: Family, d: Directory, c: Call)
    requires Exact(d) && !c.Swap?
    ensures Exact(Step(family, d, c))
  {
    match c
    case SignUp(id, n, e, g, pw) => AnnounceExact(d.(users := d.users[id := User(n, e, g, pw)]), UserCreated(id, n, e));
    case UpdateUser(id, ch) =>
      if id in d.users {
        var u := Applied(d.users[id], ch);
        AnnounceExact(d.(users := d.users[id := u]), UserUpdated(id, u.nickname, u.email));
      }
    case Google(id, p) =>
      var (t, _, events) := GoogleSignIn(d.users, id, p);
      if events != [] {
        AnnounceExact(d.(users := t), events[0]);
      }
    case _ =>
  }

  lemma {:induction false} RunExact(family: Family, d: Directory, calls: seq<Call>)
    requires Exact(d)
    ensures Exact(Run(family, d, calls))
    decreases |calls|
  {
    if calls != [] {
      StepExact(family, d, calls[0]);
      RunExact(family, Step(family, d, calls[0]), calls[1..]);
    }
  }

  /** A name other than these is hidden among their bits. */
  ghost predicate Covered(f: Filter, names: set<string>, x: string) {
    f.hash(x) <= Bits(f.hash, names)
  }

  /**
   A name was announced during the last rebuild, is not in its snapshot or announced since, and others do not cover
   it.
   */
  ghost predicate Missed(f: Filter, lost: set<string>, added: set<string>, x: string) {
    x in lost && x !in added && !Covered(f, added, x)
  }

  lemma {:induction false} OwnBits(f: Filter, names: set<string>, x: string)
    requires x in names
    ensures Covered(f, names, x)
  {
  }

  /**
   Over every run, exactly which names of users the filters miss: those announced between the snapshot and the swap of
   the last completed rebuild that are not in its snapshot, have not been announced since, and whose bits are not all
   bits of names that are or have.
   */
  lemma {:induction false} MissedExactlyWhen(family: Family, d: Directory, calls: seq<Call>, id: UserId)
    requires Initial(family, d) && Unique(d.users)
    requires id in Run(family, d, calls).users
    ensures var d' := Run(family, d, calls);
            var u, f := d'.users[id], d'.filters;
            && (!Contains(f.nicknames, u.nickname) <==>
                  Missed(f.nicknames, d'.lost.nicknames, d'.added.nicknames, u.nickname))
            && (u.email.Some? && u.email.value != "" ==>
                  (!Contains(f.emails, u.email.value) <==>
                     Missed(f.emails, d'.lost.emails, d'.added.emails, u.email.value)))
  {
    var ids :|
      Lists(d.users, ids) && d == Directory(d.users, Rebuilt(family, ids), None, NO_NAMES, NO_NAMES, NamesOf(ids));
    RebuiltExact(family, d, ids);
    InitialSound(family, d);
    NoNameMissed(family, d, calls);
    RunExact(family, d, calls);
    var d' := Run(family, d, calls);
    var u := d'.users[id];
    assert UserSound(d', u);
    if u.nickname in d'.added.nicknames {
      OwnBits(d'.filters.nicknames, d'.added.nicknames, u.nickname);
    }
    if u.email.Some? && u.email.value in d'.added.emails {
      OwnBits(d'.filters.emails, d'.added.emails, u.email.value);
    }
  }

  /** A swap forgets everything but the snapshot: a name answers yes exactly within the bits of the snapshot's names. */
  lemma {:induction false} SwapKnowsExactly(family: Family, d: Directory, x: string)
    requires d.snapshot.Some?
    ensures var f, names := Step(family, d, Swap).filters, NamesOf(d.snapshot.value);
            && (Contains(f.nicknames, x) <==> Covered(f.nicknames, names.nicknames, x))
            && (Contains(f.emails, x) <==> Covered(f.emails, names.emails, x))
  {
    RebuiltExact(family, Step(family, d, Swap), d.snapshot.value);
  }

  /**
   The exception is real in every directory with a rebuild in flight: a user who signs up now is missing after the swap
   exactly when the names of the snapshot do not cover the new nickname.
   */
  lemma {:induction false} LostDuringRebuild(family: Family, d: Directory, id: UserId, u: User)
    requires d.snapshot.Some? && id !in d.users && Put(d.users, id, u).Ok?
    ensures var d' := Run(family, d, [SignUp(id, u.nickname, u.email, u.googleId, u.password), Swap]);
            && id in d'.users && d'.users[id] == u
            && u.nickname in d'.lost.nicknames
            && (!Contains(d'.filters.nicknames, u.nickname) <==>
                  !Covered(d'.filters.nicknames, NamesIn(Nicknames(d.snapshot.value)), u.nickname))
  {
    var signUp := SignUp(id, u.nickname, u.email, u.googleId, u.password);
    var d1 := Step(family, d, signUp);
    var d2 := Step(family, d1, Swap);
    assert [signUp, Swap][1..] == [Swap] && [Swap][1..] == [];
    assert Run(family, d1, [Swap]) == Run(family, d2, []) == d2;
    SwapKnowsExactly(family, d1, u.nickname);
  }

  // ---------- Google sign-in on top ----------

  /**
   A nickname that the filter calls free is free in the table, unless the last rebuild lost it. So a Google user with a
   new id and email is created under it at the first attempt.
   */
  lemma {:induction false} FirstAttemptSucceeds(d: Directory, id: UserId, p: Profile)
    requires Sound(d) && id !in d.users
    requires !Contains(d.filters.nicknames, p.nickname) && p.nickname !in d.lost.nicknames
    requires forall h :: !HasGoogleId(d.users, p.googleId, h) && !HasEmail(d.users, p.email, h)
    ensures GoogleSignIn(d.users, id, p) ==
            (d.users[id := User(p.nickname, Some(p.email), Some(p.googleId), None)], Created(id),
             [UserCreated(id, p.nickname, Some(p.email))])
  {
    forall h | h in d.users ensures d.users[h].nickname != p.nickname {
      assert UserSound(d, d.users[h]);
    }
    CreatedAtOnce(d.users, id, p);
  }

  /** The answer of createNickname: the first candidate, numbered k, that the filter calls free. */
  ghost predicate Suggests(f: Filter, basis: string, k: nat) {
    FirstFree(x => Contains(f, x), basis, k)
  }

  /** The filter answers yes for exactly these names. */
  ghost predicate Holds(f: Filter, names: set<string>) {
    forall x :: Contains(f, x) <==> x in names
  }

  /** With n names in a filter that makes no mistake, the first free candidate is numbered at most n. */
  lemma {:induction false} SuggestedWithin(f: Filter, names: set<string>, basis: string) returns (k: nat)
    requires Holds(f, names)
    ensures k <= |names| && Suggests(f, basis, k)
    ensures forall j: nat | Suggests(f, basis, j) :: j == k
  {
    k := FreeWithin(x => Contains(f, x), names, basis);
  }

  /**
   In every run from the module start: a new Google user is created at the first attempt under the nickname that
   createNickname suggests, exactly when no user has it; and someone can have it only if the last rebuild lost it.
   */
  lemma {:induction false} SuggestedNameIsCreated(family: Family, d: Directory, calls: seq<Call>, basis: string, k: nat,
                                                  id: UserId, googleId: string, email: string)
    requires Initial(family, d) && Unique(d.users)
    requires var d' := Run(family, d, calls);
             && Suggests(d'.filters.nicknames, basis, k)
             && id !in d'.users
             && forall h :: !HasGoogleId(d'.users, googleId, h) && !HasEmail(d'.users, email, h)
    ensures var d', n := Run(family, d, calls), Candidate(basis, k);
            && (NicknameTaken(d'.users, n) ==> Missed(d'.filters.nicknames, d'.lost.nicknames, d'.added.nicknames, n))
            && (!NicknameTaken(d'.users, n) <==>
                  GoogleSignIn(d'.users, id, Profile(googleId, email, n)) ==
                  (d'.users[id := User(n, Some(email), Some(googleId), None)], Created(id),
                   [UserCreated(id, n, Some(email))]))
  {
    var d', n := Run(family, d, calls), Candidate(basis, k);
    if NicknameTaken(d'.users, n) {
      var h :| h in d'.users && d'.users[h].nickname == n;
      MissedExactlyWhen(family, d, calls, h);
    }
    CreatedAtOnce(d'.users, id, Profile(googleId, email, n));
  }
}
