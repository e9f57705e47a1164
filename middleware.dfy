/** The AuthRequired guard: a fixed chain of checks on the Authorization
    header. The first failing check decides the 401 message; a request that
    passes them all goes on to the next handler with the token's user id
    stored under "userID" in the request's locals. */
module Middleware {
  import opened Wrappers
  import opened Json
  import opened Services

  const BearerPrefix := "Bearer "
  const UserIdLocal := "userID"
  const Unauthorized := 401

  const MsgHeaderRequired := "Authorization header required"
  const MsgInvalidFormat := "Invalid authorization format"
  const MsgTokenRequired := "Token required"
  const MsgInvalidToken := "Invalid token"

  /** strings.HasPrefix: exact, case-sensitive. */
  predicate HasPrefix(s: string, prefix: string)
  {
    |prefix| <= |s| && s[..|prefix|] == prefix
  }

  /** strings.TrimPrefix: removes one leading prefix, if present. */
  function TrimPrefix(s: string, prefix: string): (r: string)
    ensures HasPrefix(s, prefix) ==> prefix + r == s
    ensures !HasPrefix(s, prefix) ==> r == s
  {
    if HasPrefix(s, prefix) then s[|prefix|..] else s
  }

  datatype Outcome = Rejected(status: int, error: string) | Forwarded

  /** What the guard decides, and the request's locals afterwards. */
  datatype Guarded = Guarded(outcome: Outcome, locals: map<string, nat>)

  /** The handler AuthRequired returns, applied to one request. */
  function AuthRequired(jwt: Jwt, now: Time, header: string, locals: map<string, nat>): (r: Guarded)
    ensures r.outcome.Rejected? ==>
              && r.outcome.status == Unauthorized
              && r.locals == locals
              && r.outcome.error in {MsgHeaderRequired, MsgInvalidFormat, MsgTokenRequired, MsgInvalidToken}
    ensures r.outcome.Forwarded? ==>
              && HasPrefix(header, BearerPrefix)
              && jwt.validate(header[|BearerPrefix|..], now).Some?
              && r.locals == locals[UserIdLocal := jwt.validate(header[|BearerPrefix|..], now).value.userId]
  {
    if header == "" then
      Guarded(Rejected(Unauthorized, MsgHeaderRequired), locals)
    else if !HasPrefix(header, BearerPrefix) then
      Guarded(Rejected(Unauthorized, MsgInvalidFormat), locals)
    else
      var token := TrimPrefix(header, BearerPrefix);
      if token == "" then
        Guarded(Rejected(Unauthorized, MsgTokenRequired), locals)
      else
        match jwt.validate(token, now)
        case None => Guarded(Rejected(Unauthorized, MsgInvalidToken), locals)
        case Some(claims) => Guarded(Forwarded, locals[UserIdLocal := claims.userId])
  }

  /** A header is in bearer form when it is "Bearer " followed by anything. */
  ghost predicate IsBearer(header: string)
  {
    exists t :: header == BearerPrefix + t
  }

  lemma BearerFormIsPrefix(header: string)
    ensures IsBearer(header) <==> HasPrefix(header, BearerPrefix)
  {
    if HasPrefix(header, BearerPrefix) {
      assert header == BearerPrefix + header[|BearerPrefix|..];
    }
  }

  /** For a header "Bearer " + t the extracted token is t itself: exactly one
      prefix is removed, even when t starts with "Bearer " again. */
  lemma TokenIsRemainder(t: string)
    ensures TrimPrefix(BearerPrefix + t, BearerPrefix) == t
  {
  }

  /** Every header not in bearer form is refused without consulting the
      validator: an empty one as missing, any other as badly formatted. */
  lemma NonBearerRejected(jwt: Jwt, now: Time, header: string, locals: map<string, nat>)
    requires !IsBearer(header)
    ensures AuthRequired(jwt, now, header, locals)
            == Guarded(Rejected(Unauthorized, if header == "" then MsgHeaderRequired else MsgInvalidFormat), locals)
  {
  }

  /** A header "Bearer " + t: an empty t is refused as missing a token, a t
      the validator refuses as an invalid token, and any other t forwards the
      request with the claims' user id in the locals. */
  lemma BearerDecided(jwt: Jwt, now: Time, t: string, locals: map<string, nat>)
    ensures AuthRequired(jwt, now, BearerPrefix + t, locals)
            == if t == "" then Guarded(Rejected(Unauthorized, MsgTokenRequired), locals)
               else if jwt.validate(t, now).None? then Guarded(Rejected(Unauthorized, MsgInvalidToken), locals)
               else Guarded(Forwarded, locals[UserIdLocal := jwt.validate(t, now).value.userId])
  {
  }

  /** The request is forwarded exactly when the header is "Bearer " + t for
      a non-empty t the validator accepts, and only then are the locals
      written. */
  lemma ForwardedIff(jwt: Jwt, now: Time, header: string, locals: map<string, nat>)
    ensures var r := AuthRequired(jwt, now, header, locals);
            (r.outcome.Forwarded? <==>
               exists t :: header == BearerPrefix + t && t != "" && jwt.validate(t, now).Some?)
            && (r.locals != locals ==> r.outcome.Forwarded?)
  {
  }

  /** The boundary cases of the chain: an empty header is missing; "Bearer"
      without the space and a lower-case "bearer x" are badly formatted
      rather than token-less;
      "Bearer " alone has no token; the whitespace token of "Bearer  " and
      the token "Bearer x" of "Bearer Bearer x" go on to the validator. */
  lemma HeaderExamples(jwt: Jwt, now: Time, locals: map<string, nat>)
    ensures AuthRequired(jwt, now, "", locals) == Guarded(Rejected(Unauthorized, MsgHeaderRequired), locals)
    ensures AuthRequired(jwt, now, "Bearer", locals).outcome == Rejected(Unauthorized, MsgInvalidFormat)
    ensures AuthRequired(jwt, now, "bearer x", locals).outcome == Rejected(Unauthorized, MsgInvalidFormat)
    ensures AuthRequired(jwt, now, "Bearer ", locals).outcome == Rejected(Unauthorized, MsgTokenRequired)
    ensures AuthRequired(jwt, now, "Bearer  ", locals).outcome
            == if jwt.validate(" ", now).None? then Rejected(Unauthorized, MsgInvalidToken) else Forwarded
    ensures AuthRequired(jwt, now, "Bearer Bearer x", locals).outcome
            == if jwt.validate("Bearer x", now).None? then Rejected(Unauthorized, MsgInvalidToken) else Forwarded
  {
    assert "bearer x"[0] != BearerPrefix[0];
    BearerDecided(jwt, now, " ", locals);
    BearerDecided(jwt, now, "Bearer x", locals);
  }
}
