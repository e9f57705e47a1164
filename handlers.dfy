/** Registration and login. The users table is an in-memory map from
    primary key to row plus the next key the database will assign; the
    handlers' request bodies arrive already parsed (None when the body
    parser failed), and the password hasher, the token service, the salt,
    the clock and the outcome of the INSERT are parameters. */
module Handlers {
  import opened Wrappers
  import opened Json
  import opened Models
  import opened Services

  datatype RegisterRequest = RegisterRequest(name: string, email: string, password: string, phone: string)

  datatype LoginRequest = LoginRequest(email: string, password: string)

  /** A response body: an error object or an AuthResponse. */
  datatype Body = Error(message: string) | AuthResponse(user: User, token: string)

  datatype Response = Response(status: int, body: Body)

  const MsgInvalidBody := "Invalid request body"
  const MsgUserExists := "User with this email already exists"
  const MsgHashFailed := "Failed to hash password"
  const MsgCreateFailed := "Failed to create user"
  const MsgTokenFailed := "Failed to generate token"
  const MsgInvalidCredentials := "Invalid credentials"

  /** The JSON a response body is written as. */
  function Encode(b: Body): Json
  {
    match b
    case Error(m) => JObj([Member("error", JStr(m))])
    case AuthResponse(u, t) => JObj([Member("user", UserJson(u)), Member("token", JStr(t))])
  }

  /** No response body of either handler ever shows a password hash or a
      deletion marker, although an AuthResponse holds the full user row. */
  lemma EncodeHidesSecrets(b: Body, k: string)
    requires Hidden(k)
    ensures !Mentions(Encode(b), k)
  {
    var ms := Encode(b).members;
    if b.AuthResponse? {
      UserJsonHidesSecrets(b.user, k);
    }
    MembersMentionAt(ms, k);
  }

  // ---------------------------------------------------------------------
  // The users table
  // ---------------------------------------------------------------------

  datatype UserTable = UserTable(rows: map<nat, User>, nextId: nat)
  {
    /** Keys are below the next key to assign and agree with each row's id;
        rows are live (soft-deleted rows are not in the table) and hold only
        columns (the relationship lists are loaded only on request, which
        these handlers never make); no two rows share an email (the unique
        index on email). */
    ghost predicate Valid()
    {
      && nextId >= 1
      && (forall id :: id in rows ==> 1 <= id < nextId && rows[id].id == id && rows[id].deletedAt.None?)
      && (forall id :: id in rows ==> rows[id].createdRides == [] && rows[id].joinedRides == [])
      && (forall i, j :: i in rows && j in rows && rows[i].email == rows[j].email ==> i == j)
    }

    ghost predicate EmailTaken(email: string)
    {
      exists id :: id in rows && rows[id].email == email
    }
  }

  const EmptyTable := UserTable(map[], 1)

  /** The first key in [from, to), in ascending order, whose row has this
      email. */
  function FirstWithEmail(rows: map<nat, User>, email: string, from: nat, to: nat): (r: Option<nat>)
    decreases to - from
    ensures r.Some? ==> from <= r.value < to && r.value in rows && rows[r.value].email == email
    ensures forall id :: from <= id < to && id in rows && rows[id].email == email ==>
              r.Some? && r.value <= id
  {
    if from >= to then None
    else if from in rows && rows[from].email == email then Some(from)
    else FirstWithEmail(rows, email, from + 1, to)
  }

  /** `Where("email = ?", email).First(&user)`: the row with the smallest key
      among those with this email, if any. */
  function FindByEmail(t: UserTable, email: string): Option<nat>
  {
    FirstWithEmail(t.rows, email, 0, t.nextId)
  }

  /** In a valid table the lookup finds a row exactly when the email is taken,
      and then it finds the one row holding it. */
  lemma FindByEmailFinds(t: UserTable, email: string)
    requires t.Valid()
    ensures FindByEmail(t, email).Some? <==> t.EmailTaken(email)
    ensures forall id :: id in t.rows && t.rows[id].email == email ==> FindByEmail(t, email) == Some(id)
  {
  }

  // ---------------------------------------------------------------------
  // Register
  // ---------------------------------------------------------------------

  /** The row Register builds and the INSERT completes: the request's name,
      email and phone, the hash in place of the password, the key the
      database assigns and its creation time; no birth date, no gender. */
  function NewUser(id: nat, req: RegisterRequest, hash: string, now: Time): User
  {
    User(id, now, now, None, req.name, req.email, hash, req.phone, None, "", [], [])
  }

  /** t' is t with one row added under the next key, and nothing else
      changed. */
  ghost predicate AddsOne(t: UserTable, t': UserTable, u: User)
  {
    && u.id == t.nextId
    && u.id !in t.rows
    && t'.rows == t.rows[u.id := u]
    && t'.nextId == t.nextId + 1
  }

  datatype Registration = Registration(response: Response, table: UserTable)

  /** Every step before the INSERT succeeds, and so does the INSERT: the body
      parses, the email is free, the password hashes and the row is stored. */
  ghost predicate Inserts(t: UserTable, body: Option<RegisterRequest>, crypt: Bcrypt, salt: nat, insertOk: bool)
  {
    && body.Some?
    && !t.EmailTaken(body.value.email)
    && crypt.hash(body.value.password, salt).Some?
    && insertOk
  }

  /** What Register answers and what the table holds afterwards. */
  function RegisterOutcome(t: UserTable, body: Option<RegisterRequest>, crypt: Bcrypt, salt: nat,
                           insertOk: bool, jwt: Jwt, now: Time): (r: Registration)
    requires t.Valid()
    ensures r.table.Valid()
    ensures r.response.status in {201, 400, 409, 500}
    ensures r.response.status != 201 <==> r.response.body.Error?
    ensures r.response.status == 400 <==> body.None?
    ensures body.None? ==> r == Registration(Response(400, Error(MsgInvalidBody)), t)
    ensures body.Some? && t.EmailTaken(body.value.email) ==>
              r == Registration(Response(409, Error(MsgUserExists)), t)
    ensures body.Some? && !t.EmailTaken(body.value.email) && crypt.hash(body.value.password, salt).None? ==>
              r == Registration(Response(500, Error(MsgHashFailed)), t)
    ensures body.Some? && !t.EmailTaken(body.value.email) && crypt.hash(body.value.password, salt).Some?
            && !insertOk ==>
              r == Registration(Response(500, Error(MsgCreateFailed)), t)
    ensures r.table != t <==> Inserts(t, body, crypt, salt, insertOk)
    ensures r.response.status == 201 <==> Inserts(t, body, crypt, salt, insertOk) && jwt.issue(t.nextId, now).Some?
    ensures r.table != t ==>
              && body.Some? && !t.EmailTaken(body.value.email)
              && crypt.hash(body.value.password, salt).Some?
              && insertOk
              && AddsOne(t, r.table, NewUser(t.nextId, body.value, crypt.hash(body.value.password, salt).value, now))
    ensures r.response.status == 201 ==>
              && r.table != t
              && jwt.issue(t.nextId, now).Some?
              && r.response.body == AuthResponse(r.table.rows[t.nextId], jwt.issue(t.nextId, now).value)
  {
    match body
    case None => Registration(Response(400, Error(MsgInvalidBody)), t)
    case Some(req) =>
      FindByEmailFinds(t, req.email);
      if FindByEmail(t, req.email).Some? then
        Registration(Response(409, Error(MsgUserExists)), t)
      else
        match crypt.hash(req.password, salt)
        case None => Registration(Response(500, Error(MsgHashFailed)), t)
        case Some(hash) =>
          if !insertOk then
            Registration(Response(500, Error(MsgCreateFailed)), t)
          else
            var user := NewUser(t.nextId, req, hash, now);
            var t' := UserTable(t.rows[user.id := user], t.nextId + 1);
            match jwt.issue(user.id, now)
            case None => Registration(Response(500, Error(MsgTokenFailed)), t')
            case Some(token) => Registration(Response(201, AuthResponse(user, token)), t')
  }

  /** A registration that stores a row stores the request's profile and a
      password hash that bcrypt accepts for the request's password, never the
      password itself; the new email is now taken. */
  lemma RegisterStoresHash(t: UserTable, req: RegisterRequest, crypt: Bcrypt, salt: nat,
                           insertOk: bool, jwt: Jwt, now: Time)
    requires t.Valid() && crypt.Sound()
    requires RegisterOutcome(t, Some(req), crypt, salt, insertOk, jwt, now).table != t
    ensures var t' := RegisterOutcome(t, Some(req), crypt, salt, insertOk, jwt, now).table;
            var u := t'.rows[t.nextId];
            && t'.rows.Keys == t.rows.Keys + {t.nextId}
            && (forall id :: id in t.rows ==> t'.rows[id] == t.rows[id])
            && u.name == req.name && u.email == req.email && u.phone == req.phone
            && crypt.compare(u.password, req.password)
            && u.password != req.password
            && t'.EmailTaken(req.email)
  {
  }

  /** Register answers 409 exactly when the email is already in the table,
      and then leaves the table as it was. */
  lemma RegisterConflictIff(t: UserTable, req: RegisterRequest, crypt: Bcrypt, salt: nat,
                            insertOk: bool, jwt: Jwt, now: Time)
    requires t.Valid()
    ensures var r := RegisterOutcome(t, Some(req), crypt, salt, insertOk, jwt, now);
            (r.response.status == 409 <==> t.EmailTaken(req.email))
            && (r.response.status == 409 ==> r.table == t && r.response.body == Error(MsgUserExists))
  {
  }

  /** When the token cannot be generated after the INSERT, the client gets
      500 but the new row stays: there is no rollback. */
  lemma TokenFailureKeepsUser(t: UserTable, req: RegisterRequest, crypt: Bcrypt, salt: nat,
                              jwt: Jwt, now: Time)
    requires t.Valid()
    requires !t.EmailTaken(req.email)
    requires crypt.hash(req.password, salt).Some?
    requires jwt.issue(t.nextId, now).None?
    ensures var r := RegisterOutcome(t, Some(req), crypt, salt, true, jwt, now);
            && r.response == Response(500, Error(MsgTokenFailed))
            && r.table.EmailTaken(req.email)
            && r.table.rows.Keys == t.rows.Keys + {t.nextId}
  {
    FindByEmailFinds(t, req.email);
    var r := RegisterOutcome(t, Some(req), crypt, salt, true, jwt, now);
    assert r.table.rows[t.nextId].email == req.email;
  }

  /** Of two registrations with one email, the second is refused with 409
      once the first has stored its row, whatever the rest of either request. */
  lemma RegisterTwiceConflicts(t: UserTable, req1: RegisterRequest, req2: RegisterRequest,
                               crypt: Bcrypt, salt1: nat, salt2: nat, insertOk2: bool,
                               jwt: Jwt, now1: Time, now2: Time)
    requires t.Valid()
    requires req2.email == req1.email
    requires RegisterOutcome(t, Some(req1), crypt, salt1, true, jwt, now1).table != t
    ensures var t1 := RegisterOutcome(t, Some(req1), crypt, salt1, true, jwt, now1).table;
            RegisterOutcome(t1, Some(req2), crypt, salt2, insertOk2, jwt, now2)
              == Registration(Response(409, Error(MsgUserExists)), t1)
  {
    var t1 := RegisterOutcome(t, Some(req1), crypt, salt1, true, jwt, now1).table;
    assert t1.rows[t.nextId].email == req1.email;
  }

  /** The field rules of the request's `validate` tags are not enforced: a
      parsed body with every field empty registers like any other. */
  lemma EmptyFieldsRegister(crypt: Bcrypt, salt: nat, jwt: Jwt, now: Time)
    requires crypt.hash("", salt).Some? && jwt.issue(1, now).Some?
    ensures RegisterOutcome(EmptyTable, Some(RegisterRequest("", "", "", "")), crypt, salt, true, jwt, now)
              .response.status == 201
  {
  }

  // ---------------------------------------------------------------------
  // Login
  // ---------------------------------------------------------------------

  /** What Login answers; it only reads the table. */
  function Login(t: UserTable, body: Option<LoginRequest>, crypt: Bcrypt, jwt: Jwt, now: Time): (r: Response)
    ensures r.status in {200, 400, 401, 500}
    ensures r.status == 400 <==> body.None?
    ensures r.status != 200 ==> r.body == Error(
              if r.status == 400 then MsgInvalidBody
              else if r.status == 401 then MsgInvalidCredentials
              else MsgTokenFailed)
    ensures r.status == 200 ==>
              && body.Some?
              && r.body.AuthResponse?
              && r.body.user in t.rows.Values
              && r.body.user.email == body.value.email
              && crypt.compare(r.body.user.password, body.value.password)
              && jwt.issue(r.body.user.id, now) == Some(r.body.token)
  {
    match body
    case None => Response(400, Error(MsgInvalidBody))
    case Some(req) =>
      match FindByEmail(t, req.email)
      case None => Response(401, Error(MsgInvalidCredentials))
      case Some(id) =>
        var user := t.rows[id];
        if !crypt.compare(user.password, req.password) then
          Response(401, Error(MsgInvalidCredentials))
        else
          match jwt.issue(user.id, now)
          case None => Response(500, Error(MsgTokenFailed))
          case Some(token) => Response(200, AuthResponse(user, token))
  }

  /** Credentials are accepted exactly when some row has the email and a hash
      bcrypt accepts for the password; otherwise the answer is 401. */
  lemma LoginAcceptsIff(t: UserTable, req: LoginRequest, crypt: Bcrypt, jwt: Jwt, now: Time)
    requires t.Valid()
    ensures var r := Login(t, Some(req), crypt, jwt, now);
            && (r.status == 401 <==>
                  !exists id :: id in t.rows && t.rows[id].email == req.email
                                && crypt.compare(t.rows[id].password, req.password))
            && (r.status == 200 <==>
                  exists id :: id in t.rows && t.rows[id].email == req.email
                               && crypt.compare(t.rows[id].password, req.password)
                               && jwt.issue(id, now).Some?)
  {
  }

  /** A user returned by a successful login, read without its
      relationships, is shown with exactly the eight profile keys. */
  lemma LoginUserShowsProfileKeys(t: UserTable, req: LoginRequest, crypt: Bcrypt, jwt: Jwt, now: Time)
    requires t.Valid()
    requires Login(t, Some(req), crypt, jwt, now).status == 200
    ensures Keys(UserJson(Login(t, Some(req), crypt, jwt, now).body.user).members) == UserKeys
  {
    var u := Login(t, Some(req), crypt, jwt, now).body.user;
    UserJsonKeys(u);
  }

  /** An unknown email and a wrong password for a known one get the very same
      response, so a client cannot tell which emails are registered. */
  lemma LoginAntiEnumeration(t: UserTable, unknown: string, p1: string, id: nat, p2: string,
                             crypt: Bcrypt, jwt: Jwt, now: Time)
    requires t.Valid()
    requires !t.EmailTaken(unknown)
    requires id in t.rows && !crypt.compare(t.rows[id].password, p2)
    ensures Login(t, Some(LoginRequest(unknown, p1)), crypt, jwt, now)
            == Login(t, Some(LoginRequest(t.rows[id].email, p2)), crypt, jwt, now)
            == Response(401, Error(MsgInvalidCredentials))
  {
  }

  /** Logging in with the email and password just registered finds the new
      row and issues a token for its key (unless the token service fails). */
  lemma RegisterThenLogin(t: UserTable, req: RegisterRequest, crypt: Bcrypt, salt: nat,
                          jwt: Jwt, now: Time, later: Time)
    requires t.Valid() && crypt.Sound()
    requires RegisterOutcome(t, Some(req), crypt, salt, true, jwt, now).table != t
    ensures var t' := RegisterOutcome(t, Some(req), crypt, salt, true, jwt, now).table;
            var r := Login(t', Some(LoginRequest(req.email, req.password)), crypt, jwt, later);
            && (jwt.issue(t.nextId, later).Some? ==>
                  r == Response(200, AuthResponse(t'.rows[t.nextId], jwt.issue(t.nextId, later).value)))
            && (jwt.issue(t.nextId, later).None? ==> r == Response(500, Error(MsgTokenFailed)))
  {
    var t' := RegisterOutcome(t, Some(req), crypt, salt, true, jwt, now).table;
    RegisterStoresHash(t, req, crypt, salt, true, jwt, now);
    FindByEmailFinds(t', req.email);
  }

  // ---------------------------------------------------------------------
  // The store the handlers share
  // ---------------------------------------------------------------------

  /** The users table as the handlers see it through the shared database
      handle: Register inserts into it in place. */
  class UserStore {
    var rows: map<nat, User>
    var nextId: nat

    function Table(): UserTable
      reads this
    {
      UserTable(rows, nextId)
    }

    ghost predicate Valid()
      reads this
    {
      Table().Valid()
    }

    constructor ()
      ensures Valid() && Table() == EmptyTable
    {
      rows := map[];
      nextId := 1;
    }

    /** The Register handler: checks, hashes, inserts (the INSERT assigns the
        key and the timestamps to the row in place), then issues the token.
        It takes the same steps as RegisterOutcome, on the fields of this
        store, and is proved to end in the same response and table. */
    method Register(body: Option<RegisterRequest>, crypt: Bcrypt, salt: nat, insertOk: bool,
                    jwt: Jwt, now: Time) returns (resp: Response)
      requires Valid()
      modifies this
      ensures Valid()
      ensures Registration(resp, Table())
              == RegisterOutcome(old(Table()), body, crypt, salt, insertOk, jwt, now)
    {
      if body.None? {
        return Response(400, Error(MsgInvalidBody));
      }
      var req := body.value;
      var existing := FindByEmail(Table(), req.email);
      if existing.Some? {
        return Response(409, Error(MsgUserExists));
      }
      var hashed := crypt.hash(req.password, salt);
      if hashed.None? {
        return Response(500, Error(MsgHashFailed));
      }
      var user := User(0, ZeroTime, ZeroTime, None, req.name, req.email, hashed.value, req.phone, None, "", [], []);
      if !insertOk {
        return Response(500, Error(MsgCreateFailed));
      }
      user := user.(id := nextId, createdAt := now, updatedAt := now);
      rows := rows[user.id := user];
      nextId := nextId + 1;
      var token := jwt.issue(user.id, now);
      if token.None? {
        return Response(500, Error(MsgTokenFailed));
      }
      resp := Response(201, AuthResponse(user, token.value));
    }
  }
}
