/** The handlers and the guard together: a token handed out by Register or
    Login opens the protected routes for the user it was issued to. */
module Flows {
  import opened Wrappers
  import opened Json
  import opened Services
  import opened Handlers
  import opened Middleware

  /** A successful registration answers 201 with a token that, presented at
      once (at the instant it was issued) as "Bearer <token>", passes the guard with the new row's key as
      the request's userID. */
  lemma RegisteredTokenOpensGuard(t: UserTable, req: RegisterRequest, crypt: Bcrypt, salt: nat,
                                  jwt: Jwt, now: Time, locals: map<string, nat>)
    requires t.Valid() && jwt.Sound()
    requires RegisterOutcome(t, Some(req), crypt, salt, true, jwt, now).response.status == 201
    ensures var r := RegisterOutcome(t, Some(req), crypt, salt, true, jwt, now);
            && r.response.body.AuthResponse?
            && r.response.body.user.id == t.nextId
            && AuthRequired(jwt, now, BearerPrefix + r.response.body.token, locals)
               == Guarded(Forwarded, locals[UserIdLocal := t.nextId])
  {
  }

  /** The same holds of the token a successful login answers with: the
      guard then attaches the id of the row that matched the credentials. */
  lemma LoginTokenOpensGuard(t: UserTable, req: LoginRequest, crypt: Bcrypt, jwt: Jwt, now: Time,
                             locals: map<string, nat>)
    requires jwt.Sound()
    requires Login(t, Some(req), crypt, jwt, now).status == 200
    ensures var r := Login(t, Some(req), crypt, jwt, now);
            AuthRequired(jwt, now, BearerPrefix + r.body.token, locals)
            == Guarded(Forwarded, locals[UserIdLocal := r.body.user.id])
  {
  }
}
