/** The users service over the user table, with the events it emits. */
module UsersService {
  import opened Basics
  import opened NicknameCandidates
  import opened Users

  class UsersService {
    var users: Table
    var events: seq<UserEvent>

    ghost predicate Valid()
      reads this
    {
      Unique(users)
    }

    constructor ()
      ensures Valid() && users == map[] && events == []
    {
      users, events := map[], [];
    }

    method Create(id: UserId, nickname: string, email: Option<string>, googleId: Option<string>,
                  password: Option<string>)
      returns (reply: Result<User, UserError>)
      requires Valid() && id !in users
      modifies this
      ensures Valid()
      ensures var u := User(nickname, email, googleId, password);
              match Put(old(users), id, u)
              case Ok(t) => reply == Ok(u) && users == t && events == old(events) + [UserCreated(id, nickname, email)]
              case Err(e) => reply == Err(e) && users == old(users) && events == old(events)
    {
      var u := User(nickname, email, googleId, password);
      var written := Put(users, id, u);
      if written.Err? {
        return Err(written.error);
      }
      PutKeepsUnique(users, id, u);
      users := written.value;
      events := events + [UserCreated(id, nickname, email)];
      return Ok(u);
    }

    method Update(id: UserId, c: Change) returns (reply: Result<User, UserError>)
      requires Valid()
      modifies this
      ensures Valid()
      ensures match Users.Update(old(users), id, c)
              case Ok(t) => && id in t && reply == Ok(t[id]) && users == t
                            && events == old(events) + [UserUpdated(id, t[id].nickname, t[id].email)]
              case Err(e) => reply == Err(e) && users == old(users) && events == old(events)
    {
      if id !in users {
        return Err(NotFound);
      }
      var u := Applied(users[id], c);
      var written := Put(users, id, u);
      if written.Err? {
        return Err(written.error);
      }
      PutKeepsUnique(users, id, u);
      users := written.value;
      events := events + [UserUpdated(id, u.nickname, u.email)];
      return Ok(u);
    }

    /** Looks for the Google id, then the email, then tries the candidate nicknames one after the other. */
    method FindOrCreateGoogleUser(p: Profile, id: UserId) returns (reply: GoogleReply)
      requires Valid() && id !in users
      modifies this
      ensures Valid()
      ensures var (t, r, emitted) := GoogleSignIn(old(users), id, p);
              users == t && reply == r && events == old(events) + emitted
    {
      GoogleAllocation(users, id, p);
      if h :| h in users && users[h].googleId == Some(p.googleId) {
        assert HasGoogleId(users, p.googleId, h);
        OneHolder(users, p, h, GoogleSignIn(users, id, p).1.id);
        return Found(h);
      }
      if h :| h in users && users[h].email == Some(p.email) {
        assert HasEmail(users, p.email, h);
        OneHolder(users, p, h, GoogleSignIn(users, id, p).1.id);
        users := users[h := users[h].(googleId := Some(p.googleId))];
        return Linked(h);
      }
      assert forall h :: !HasGoogleId(users, p.googleId, h) && !HasEmail(users, p.email, h);
      reply := CreateGoogleUser(p, id);
    }

    /** The retry loop: a nickname that is taken moves on to the next candidate. */
    method CreateGoogleUser(p: Profile, id: UserId) returns (reply: GoogleReply)
      requires id !in users && forall h :: !HasGoogleId(users, p.googleId, h) && !HasEmail(users, p.email, h)
      modifies this
      ensures match FirstInsertable(old(users), id, p, 0)
              case None => reply == Failed(NoNicknameLeft) && users == old(users) && events == old(events)
              case Some(k) =>
                && reply == Created(id) && users == old(users)[id := NewGoogleUser(p, k)]
                && events == old(events) + [UserCreated(id, Candidate(p.nickname, k), Some(p.email))]
    {
      var attempt := 0;
      while attempt < MAX_CREATING_GOOGLE_USER_ATTEMPTS
        invariant users == old(users) && events == old(events)
        invariant attempt <= MAX_CREATING_GOOGLE_USER_ATTEMPTS
        invariant FirstInsertable(users, id, p, 0) == FirstInsertable(users, id, p, attempt)
      {
        OnlyNicknameCollides(users, id, p, attempt);
        var user := NewGoogleUser(p, attempt);
        var written := Put(users, id, user);
        if written.Ok? {
          users := written.value;
          events := events + [UserCreated(id, user.nickname, user.email)];
          return Created(id);
        }
        if NicknameColumn !in written.error.columns {
          // Rethrown in the source; no other column can collide here.
          assert false;
        }
        attempt := attempt + 1;
      }
      return Failed(NoNicknameLeft);
    }
  }
}
