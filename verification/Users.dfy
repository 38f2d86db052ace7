/** The user table with its unique columns, and the operations of the users service on it. */
module Users {
  import opened Basics
  import opened NicknameCandidates

  type UserId = string

  const MAX_CREATING_GOOGLE_USER_ATTEMPTS := 10

  datatype User = User(nickname: string, email: Option<string>, googleId: Option<string>, password: Option<string>)

  type Table = map<UserId, User>

  datatype UserEvent =
    | UserCreated(userId: UserId, nickname: string, email: Option<string>)
    | UserUpdated(userId: UserId, nickname: string, email: Option<string>)

  datatype Column = NicknameColumn | EmailColumn | GoogleIdColumn

  datatype UserError = NotFound | Taken(columns: set<Column>) | NoNicknameLeft

  /** The fields of an update; an absent field is kept. */
  datatype Change = Change(
    nickname: Option<string>, email: Option<Option<string>>, googleId: Option<string>, password: Option<string>)

  /** The unique columns in which a row would collide with some other row; absent values never collide. */
  function Collisions(t: Table, id: UserId, u: User): set<Column> {
    (if exists h | h in t :: h != id && t[h].nickname == u.nickname then {NicknameColumn} else {})
    + (if u.email.Some? && exists h | h in t :: h != id && t[h].email == u.email then {EmailColumn} else {})
    + (if u.googleId.Some? && exists h | h in t :: h != id && t[h].googleId == u.googleId then {GoogleIdColumn} else {})
  }

  ghost predicate Unique(t: Table) {
    forall id {:trigger Collisions(t, id, t[id])} | id in t :: Collisions(t, id, t[id]) == {}
  }

  /** Writing a row, as create and update do, is refused with the violated columns. */
  function Put(t: Table, id: UserId, u: User): Result<Table, UserError> {
    var taken := Collisions(t, id, u);
    if taken == {} then Ok(t[id := u]) else Err(Taken(taken))
  }

  function Applied(u: User, c: Change): User {
    User(if c.nickname.Some? then c.nickname.value else u.nickname,
         if c.email.Some? then c.email.value else u.email,
         if c.googleId.Some? then c.googleId else u.googleId,
         if c.password.Some? then c.password else u.password)
  }

  function Update(t: Table, id: UserId, c: Change): Result<Table, UserError> {
    if id !in t then Err(NotFound) else Put(t, id, Applied(t[id], c))
  }

  lemma {:induction false} PutKeepsUnique(t: Table, id: UserId, u: User)
    requires Unique(t) && Put(t, id, u).Ok?
    ensures Unique(Put(t, id, u).value)
  {
    var t' := t[id := u];
    forall h | h in t'
      ensures Collisions(t', h, t'[h]) == {}
    {
      if h != id {
        assert Collisions(t, h, t[h]) == {};
        assert id in t' && t'[id] == u;
      }
    }
  }

  /** Some other user has the value the row would have in this column. */
  ghost predicate HeldByOther(t: Table, id: UserId, u: User, column: Column) {
    exists h | h in t && h != id ::
      match column
      case NicknameColumn => t[h].nickname == u.nickname
      case EmailColumn => u.email.Some? && t[h].email == u.email
      case GoogleIdColumn => u.googleId.Some? && t[h].googleId == u.googleId
  }

  /** A write is refused naming exactly the columns whose value somebody else has. */
  lemma {:induction false} WriteAnswer(t: Table, id: UserId, u: User)
    ensures Put(t, id, u) ==
            if forall column :: !HeldByOther(t, id, u, column) then Ok(t[id := u])
            else Err(Taken(set column: Column | HeldByOther(t, id, u, column)))
  {
    var named := set column: Column | HeldByOther(t, id, u, column);
    forall column: Column ensures column in Collisions(t, id, u) <==> HeldByOther(t, id, u, column) {
      CollisionMeans(t, id, u, column);
    }
    assert Collisions(t, id, u) == named;
    if column :| HeldByOther(t, id, u, column) {
      assert column in Collisions(t, id, u);
    }
  }

  lemma {:induction false} CollisionMeans(t: Table, id: UserId, u: User, column: Column)
    ensures column in Collisions(t, id, u) <==> HeldByOther(t, id, u, column)
  {
  }

  /**
   An update of a user that exists puts every present field in the row and keeps every absent one and all other rows,
   unless somebody else has one of the new values; then, and for an unknown user, it is refused.
   */
  lemma {:induction false} UpdateAnswer(t: Table, id: UserId, c: Change)
    ensures Update(t, id, c) == Err(NotFound) <==> id !in t
    ensures Update(t, id, c).Ok? ==>
              var t' := Update(t, id, c).value;
              && id in t && t'.Keys == t.Keys
              && (forall h | h in t && h != id :: t'[h] == t[h])
              && t'[id].nickname == (if c.nickname.Some? then c.nickname.value else t[id].nickname)
              && t'[id].email == (if c.email.Some? then c.email.value else t[id].email)
              && t'[id].googleId == (if c.googleId.Some? then c.googleId else t[id].googleId)
              && t'[id].password == (if c.password.Some? then c.password else t[id].password)
    ensures Unique(t) && id in t ==>
              (Update(t, id, c).Err? <==>
                exists h | h in t && h != id ::
                  || (c.nickname.Some? && t[h].nickname == c.nickname.value)
                  || (c.email.Some? && c.email.value.Some? && t[h].email == c.email.value)
                  || (c.googleId.Some? && t[h].googleId == c.googleId))
  {
    if Unique(t) && id in t {
      assert Collisions(t, id, t[id]) == {};
    }
  }

  // ---------- Signing in with Google ----------

  datatype Profile = Profile(googleId: string, email: string, nickname: string)

  datatype GoogleReply = Found(id: UserId) | Linked(id: UserId) | Created(id: UserId) | Failed(error: UserError)

  ghost predicate HasGoogleId(t: Table, g: string, id: UserId) {
    id in t && t[id].googleId == Some(g)
  }

  ghost predicate HasEmail(t: Table, e: string, id: UserId) {
    id in t && t[id].email == Some(e)
  }

  /** The row an attempt tries to insert. */
  function NewGoogleUser(p: Profile, attempt: nat): User {
    User(Candidate(p.nickname, attempt), Some(p.email), Some(p.googleId), None)
  }

  /** The first attempt, from this one on, whose row can be inserted. */
  function FirstInsertable(t: Table, id: UserId, p: Profile, attempt: nat): Option<nat>
    decreases MAX_CREATING_GOOGLE_USER_ATTEMPTS - attempt
  {
    if attempt >= MAX_CREATING_GOOGLE_USER_ATTEMPTS then None
    else if Collisions(t, id, NewGoogleUser(p, attempt)) == {} then Some(attempt)
    else FirstInsertable(t, id, p, attempt + 1)
  }

  /** Some user has this nickname. */
  ghost predicate NicknameTaken(t: Table, n: string) {
    exists id | id in t :: t[id].nickname == n
  }

  /** The first of the ten candidates from a number on that is nobody's nickname; None if all are taken. */
  ghost predicate FirstUntaken(t: Table, basis: string, from: nat, found: Option<nat>) {
    match found
    case None => forall j: nat | from <= j < 10 :: NicknameTaken(t, Candidate(basis, j))
    case Some(k) =>
      && from <= k < 10 && !NicknameTaken(t, Candidate(basis, k))
      && forall j: nat | from <= j < k :: NicknameTaken(t, Candidate(basis, j))
  }

  lemma {:induction false} OneMoreTaken(t: Table, basis: string, from: nat, found: Option<nat>)
    requires NicknameTaken(t, Candidate(basis, from)) && FirstUntaken(t, basis, from + 1, found)
    ensures FirstUntaken(t, basis, from, found)
  {
    forall j: nat | from <= j && (j < if found.Some? then found.value else 10)
      ensures NicknameTaken(t, Candidate(basis, j))
    {
      if j > from {
        assert from + 1 <= j;
      }
    }
  }

  /** When nobody has the profile's Google id or email, only the nickname of a new row can collide. */
  lemma {:induction false} OnlyNicknameCollides(t: Table, id: UserId, p: Profile, attempt: nat)
    requires id !in t
    requires forall h :: !HasGoogleId(t, p.googleId, h) && !HasEmail(t, p.email, h)
    ensures Collisions(t, id, NewGoogleUser(p, attempt)) ==
            if NicknameTaken(t, Candidate(p.nickname, attempt)) then {NicknameColumn} else {}
  {
    forall h | h in t ensures t[h].email != Some(p.email) && t[h].googleId != Some(p.googleId) {
      assert !HasGoogleId(t, p.googleId, h) && !HasEmail(t, p.email, h);
    }
    var u := NewGoogleUser(p, attempt);
    assert !exists h | h in t :: h != id && t[h].email == u.email;
    assert !exists h | h in t :: h != id && t[h].googleId == u.googleId;
    assert (exists h | h in t :: h != id && t[h].nickname == u.nickname) <==> NicknameTaken(t, u.nickname);
  }

  /** A row can be inserted exactly when nobody has its nickname. */
  lemma {:induction false} InsertableMeans(t: Table, id: UserId, p: Profile, attempt: nat)
    requires id !in t && forall h :: !HasGoogleId(t, p.googleId, h) && !HasEmail(t, p.email, h)
    ensures Collisions(t, id, NewGoogleUser(p, attempt)) == {} <==> !NicknameTaken(t, Candidate(p.nickname, attempt))
  {
    OnlyNicknameCollides(t, id, p, attempt);
  }

  /** The search stops at the first candidate that no user has, and fails exactly when all ten are taken. */
  lemma {:induction false} SearchFindsFirst(t: Table, id: UserId, p: Profile, from: nat)
    requires id !in t && from <= MAX_CREATING_GOOGLE_USER_ATTEMPTS
    requires forall h :: !HasGoogleId(t, p.googleId, h) && !HasEmail(t, p.email, h)
    ensures FirstUntaken(t, p.nickname, from, FirstInsertable(t, id, p, from))
    decreases MAX_CREATING_GOOGLE_USER_ATTEMPTS - from
  {
    if from < MAX_CREATING_GOOGLE_USER_ATTEMPTS {
      InsertableMeans(t, id, p, from);
      if NicknameTaken(t, Candidate(p.nickname, from)) {
        SearchFindsFirst(t, id, p, from + 1);
        OneMoreTaken(t, p.nickname, from, FirstInsertable(t, id, p, from + 1));
      }
    }
  }

  /**
   findOrCreateGoogleUser: the user with the Google id; else the user with the email, linked to the Google id; else a
   new user under the first candidate nickname that can be inserted; else a failure. With the events emitted.
   */
  ghost function GoogleSignIn(t: Table, id: UserId, p: Profile): (Table, GoogleReply, seq<UserEvent>) {
    if exists h :: HasGoogleId(t, p.googleId, h) then
      var h :| HasGoogleId(t, p.googleId, h); (t, Found(h), [])
    else if exists h :: HasEmail(t, p.email, h) then
      var h :| HasEmail(t, p.email, h); (t[h := t[h].(googleId := Some(p.googleId))], Linked(h), [])
    else match FirstInsertable(t, id, p, 0)
         case None => (t, Failed(NoNicknameLeft), [])
         case Some(k) =>
           (t[id := NewGoogleUser(p, k)], Created(id), [UserCreated(id, Candidate(p.nickname, k), Some(p.email))])
  }

  /** A profile with a new Google id and email is created under its own nickname exactly when nobody has it. */
  lemma {:induction false} CreatedAtOnce(t: Table, id: UserId, p: Profile)
    requires id !in t && forall h :: !HasGoogleId(t, p.googleId, h) && !HasEmail(t, p.email, h)
    ensures !NicknameTaken(t, p.nickname) <==>
            GoogleSignIn(t, id, p) == (t[id := User(p.nickname, Some(p.email), Some(p.googleId), None)], Created(id),
                                       [UserCreated(id, p.nickname, Some(p.email))])
  {
    assert Candidate(p.nickname, 0) == p.nickname;
    OnlyNicknameCollides(t, id, p, 0);
    var k := FirstInsertable(t, id, p, 0);
    if k.Some? && k.value != 0 {
      CandidateMoved(p.nickname, k.value);
      assert t[id := NewGoogleUser(p, k.value)][id].nickname != p.nickname;
    }
  }

  lemma {:induction false} CandidateMoved(basis: string, k: nat)
    requires k > 0
    ensures Candidate(basis, k) != basis
  {
    if Candidate(basis, k) == Candidate(basis, 0) {
      CandidatesDiffer(basis, k, 0);
    }
  }

  /** A Google id and an email each belong to one user at most. */
  lemma {:induction false} OneHolder(t: Table, p: Profile, h: UserId, h': UserId)
    requires Unique(t)
    ensures HasGoogleId(t, p.googleId, h) && HasGoogleId(t, p.googleId, h') ==> h == h'
    ensures HasEmail(t, p.email, h) && HasEmail(t, p.email, h') ==> h == h'
  {
    if h in t && h' in t {
      assert Collisions(t, h, t[h]) == {};
    }
  }

  lemma {:induction false} LinkKeepsUnique(t: Table, p: Profile, h: UserId)
    requires Unique(t) && HasEmail(t, p.email, h) && forall g :: !HasGoogleId(t, p.googleId, g)
    ensures Unique(t[h := t[h].(googleId := Some(p.googleId))])
  {
    var linked := t[h].(googleId := Some(p.googleId));
    assert Collisions(t, h, t[h]) == {};
    forall g | g in t ensures t[g].googleId != Some(p.googleId) {
      assert !HasGoogleId(t, p.googleId, g);
    }
    assert Collisions(t, h, linked) == {};
    PutKeepsUnique(t, h, linked);
  }

  /**
   Signing in with Google keeps the columns unique and adds at most one user, announced by exactly one event. It finds
   exactly when someone has the Google id, links exactly when otherwise someone has the email, creates under the first
   candidate nobody has, and fails, with the table unchanged, exactly when all ten candidates are taken.
   */
  lemma {:induction false} GoogleAllocation(t: Table, id: UserId, p: Profile)
    requires Unique(t) && id !in t
    ensures var (t', reply, events) := GoogleSignIn(t, id, p);
            var found, known := exists h :: HasGoogleId(t, p.googleId, h), exists h :: HasEmail(t, p.email, h);
            && Unique(t')
            && (reply.Found? <==> found)
            && (reply.Linked? <==> !found && known)
            && (reply.Failed? <==>
                  (&& !found
                   && !known
                   && forall k: nat | k < 10 ::
                        NicknameTaken(t, Candidate(p.nickname, k))))
            && (reply.Found? ==> HasGoogleId(t, p.googleId, reply.id))
            && (reply.Linked? ==>
                  HasEmail(t, p.email, reply.id) && t' == t[reply.id := t[reply.id].(googleId := Some(p.googleId))])
            && (if reply.Created? then
                  exists k: nat {:trigger Candidate(p.nickname, k)} ::
                    && k < 10
                    && !NicknameTaken(t, Candidate(p.nickname, k))
                    && (forall j: nat | j < k :: NicknameTaken(t, Candidate(p.nickname, j)))
                    && t' == t[id := User(Candidate(p.nickname, k), Some(p.email), Some(p.googleId), None)]
                    && events == [UserCreated(id, Candidate(p.nickname, k), Some(p.email))]
                else events == [] && (t' == t || reply.Linked?))
  {
    var reply := GoogleSignIn(t, id, p).1;
    if reply.Linked? {
      LinkKeepsUnique(t, p, reply.id);
    } else if !reply.Found? {
      SearchFindsFirst(t, id, p, 0);
      if reply.Created? {
        var k := FirstInsertable(t, id, p, 0).value;
        OnlyNicknameCollides(t, id, p, k);
        PutKeepsUnique(t, id, NewGoogleUser(p, k));
        assert Candidate(p.nickname, k) == NewGoogleUser(p, k).nickname;
      }
    }
  }
}
