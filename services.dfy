/** The two library services the handlers and the middleware call, kept
    abstract: password hashing (bcrypt) and session tokens (HS256 JWTs).
    Each is a record of functions; its `Sound()` predicate is the one law the
    model relies on, and the lemmas that need it require it. */
module Services {
  import opened Wrappers
  import opened Json

  /** bcrypt.GenerateFromPassword and bcrypt.CompareHashAndPassword. Hashing
      takes the random salt as an argument and may fail (None). */
  datatype Bcrypt = Bcrypt(
    hash: (string, nat) -> Option<string>,
    compare: (string, string) -> bool)
  {
    /** A hash accepts the password it was made from and is never that
        password itself. */
    ghost predicate Sound()
    {
      forall password, salt :: hash(password, salt).Some? ==>
        compare(hash(password, salt).value, password)
        && hash(password, salt).value != password
    }
  }

  /** The claims a token carries. The two dates are NumericDates: whole
      seconds, each read from its own call to the clock. */
  datatype Claims = Claims(userId: nat, issuedAt: Time, expiresAt: Time)

  /** GenerateJWT and ValidateJWT, both reading the clock, which is passed
      in; issuing may fail (None), and so may validating. */
  datatype Jwt = Jwt(
    issue: (nat, Time) -> Option<string>,
    validate: (string, Time) -> Option<Claims>)
  {
    /** A token issued for a user is non-empty and, validated at the instant
        it was issued, yields claims for that user. Nothing is assumed of the
        dates: the service rounds them to the second and reads the clock
        once for each. */
    ghost predicate Sound()
    {
      forall userId, now :: issue(userId, now).Some? ==>
        |issue(userId, now).value| > 0
        && validate(issue(userId, now).value, now).Some?
        && validate(issue(userId, now).value, now).value.userId == userId
    }
  }
}
