/** The guard in front of protected routes, reading the blacklist the auth service writes. */
module AuthGuard {
  import opened Basics
  import opened Sessions
  import opened AuthService

  class Request {
    const header: Header
    /** The claims later handlers see. */
    var user: Option<Jwt>

    constructor (header: Header)
      ensures this.header == header && user == None
    {
      this.header, user := header, None;
    }
  }

  class AuthGuard {
    /** Owner of the Redis keys and the clock that the guard reads. */
    const auth: AuthService

    constructor (auth: AuthService)
      ensures this.auth == auth
    {
      this.auth := auth;
    }

    /** Checks for a token, then its signature and expiry, then the blacklist; puts the claims on the request. */
    method CanActivate(request: Request, isPublic: bool) returns (reply: Result<(), GuardError>)
      modifies request
      ensures match Sessions.CanActivate(auth.blacklist, auth.now, isPublic, request.header)
              case Ok(None) => reply == Ok(()) && request.user == old(request.user)
              case Ok(claims) => reply == Ok(()) && request.user == claims
              case Err(e) => reply == Err(e) && request.user == old(request.user)
    {
      if isPublic {
        return Ok(());
      }
      if request.header.NoHeader? {
        return Err(NoToken);
      }
      if request.header.Garbled? || !Verifies(request.header.token, auth.now) {
        return Err(BadToken);
      }
      var token := request.header.token;
      if token.jti in auth.blacklist && auth.now < auth.blacklist[token.jti] {
        return Err(Revoked);
      }
      request.user := Some(token);
      return Ok(());
    }
  }
}
