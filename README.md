# halbheru-backend: registration, login and the bearer guard, in Dafny

This project models the part of the halbheru ride-sharing backend whose behaviour can be stated:

- the `Register` and `Login` handlers over the users table;
- the `AuthRequired` middleware that guards the protected routes by checking the `Authorization` header;
- the `User`, `Ride` and `RidePassenger` records, with the JSON view their tags give and the constraints their `gorm` tags declare.

Modules:

- `Wrappers`: the `Option` type. Nullable Go fields and fallible calls use it.
- `Json`: JSON values as `encoding/json` writes them, with member order kept. `Mentions(j, k)` says whether key `k` appears anywhere in `j`. `time.Time` and `float64` are opaque scalars.
- `Models`: the three records and their views `UserJson`, `RideJson` and `RidePassengerJson`. Also the insert-time defaults (`default:'active'`, `default:1`, `default:'confirmed'`, `autoCreateTime`) and the `ride_passengers` table with its composite key (ride_id, user_id).
- `Services`: bcrypt and the JWT service, kept abstract. Each is a record of functions. Each `Sound()` predicate states the one law the model relies on:
  - a bcrypt hash is accepted by `CompareHashAndPassword` for its own password and never equals that password;
  - a freshly issued token is non-empty and validates, at the instant it was issued, to claims for the same user. The law says nothing about the claims' dates, which the service rounds to the second.
- `Handlers`: the users table is a value `UserTable(rows, nextId)`: a map from primary key to row, plus the key the database assigns next. Its invariant `Valid()` says:
  - keys are in range and match each row's id;
  - rows are live;
  - rows hold only columns: the relationship lists are empty, because `First` runs without `Preload`;
  - emails are unique, which is the `uniqueIndex` on email.

  The module also holds:
  - `FindByEmail`, which models `Where("email = ?").First`: the matching row with the smallest key;
  - `RegisterOutcome`, the response and new table that `Register` produces;
  - `Login`, a function of the table, so it cannot change the table;
  - the class `UserStore`, whose method `Register` updates `rows` and `nextId` in place and is proved equal to `RegisterOutcome`.
- `Middleware`: `AuthRequired` as a function from the header and the request's locals to an outcome and the new locals. The outcome is either a 401 with one of four messages, or forwarding to the next handler.
- `Flows`: lemmas that chain the handlers and the guard. A token returned by `Register` or `Login` passes the guard with the right user id.

## Model

| member | source | states |
|---|---|---|
| `Models.UserJsonKeys` | models/models.go:11-25 | The JSON of a user has exactly the keys id, created_at, updated_at, name, email, phone, date_of_birth and gender, in that order. created_rides and joined_rides follow only when those lists are non-empty. |
| `Models.UserJsonHidesSecrets` | models/models.go:14-18 | No key "password" or "deleted_at" appears anywhere in a user's JSON. This includes the rides it embeds and their drivers and passengers. |
| `Models.RideJsonHidesSecrets` | models/models.go:33-56 | No key "password" or "deleted_at" appears anywhere in a ride's JSON, including its embedded driver and passengers. |
| `Models.UserJsonIgnoresSecrets` | models/models.go:14-18 | A user's JSON is the same as that of the user with every password and deletion marker blanked, at every depth. So no hash or marker reaches the view under any key or as any value. |
| `Models.RideJsonIgnoresSecrets` | models/models.go:33-56 | The same holds for a ride's JSON, through its driver and passengers. |
| `Models.RideJsonKeys` | models/models.go:30-56 | The JSON of a ride has exactly its seventeen column and driver keys in field order. "passengers" follows only when that list is non-empty. |
| `Models.RidePassengerJsonKeys` | models/models.go:61-65 | The JSON of a join row has exactly ride_id, user_id, joined_at, seats_booked and status, in that order. |
| `Models.RideDefaultsKeepStatusDomain` | models/models.go:47 | A ride inserted with an empty or documented status (active, completed, cancelled) is stored with a documented status. Applying the defaults twice gives the same result as once. |
| `Models.PassengerDefaultsKeepStatusDomain` | models/models.go:64-65 | A booking inserted with an empty or documented status (confirmed, cancelled) is stored with a documented status and a non-zero seat count. Applying the defaults twice gives the same result as once. |
| `Models.NewPassengerDefaults` | models/models.go:63-65 | A booking built with only its key is stored with 1 seat, status "confirmed" (a documented status) and the insert time. |
| `Models.InsertPassenger` | models/models.go:61-62 | The composite primary key refuses an insert exactly when the (ride_id, user_id) pair is already present; the foreign keys are not modelled (see "Left out"). Otherwise the row is appended with its defaults. No two rows ever share a pair. |
| `Handlers.EncodeHidesSecrets` | handlers/auth.go:26-29 | No response body of either handler mentions "password" or "deleted_at", although an AuthResponse holds the full user row with its hash. |
| `Handlers.FirstWithEmail` | handlers/auth.go:42 | The lookup returns a key in range whose row has the email, and no smaller key in range does. None means no row in range has the email. |
| `Handlers.FindByEmailFinds` | handlers/auth.go:95 | In a valid table the lookup succeeds exactly when the email is taken, and it returns the one row holding it. |
| `Handlers.RegisterOutcome` | handlers/auth.go:32-82 | Status is one of 201, 400, 409 or 500, and error bodies go with exactly the non-201 statuses. 400 happens exactly for an unparsed body. A taken email gives 409. A failed hash gives 500 "Failed to hash password", and a failed INSERT gives 500 "Failed to create user"; each of these leaves the table unchanged. The table changes exactly when the body parses, the email is free, the hash succeeds and the INSERT succeeds. The change is one row added under the next key, holding the request's fields and the hash. 201 happens exactly when, in addition, a token is issued for that key, and it carries that row and that token. Email uniqueness and the rest of `Valid()` are preserved. |
| `Handlers.RegisterStoresHash` | handlers/auth.go:49-68 | Given sound hashing, a stored row holds the request's name, email and phone. Its password is a hash that bcrypt accepts for the request password and is never the plaintext. All other rows are unchanged. |
| `Handlers.RegisterConflictIff` | handlers/auth.go:41-46 | 409 "User with this email already exists" happens exactly when some row has the same email (exact string equality). The table is then unchanged. |
| `Handlers.TokenFailureKeepsUser` | handlers/auth.go:64-76 | When token generation fails after the insert, the answer is 500 "Failed to generate token" and the new row stays. There is no rollback. |
| `Handlers.RegisterTwiceConflicts` | handlers/auth.go:41-46 | Once a registration has stored its row, a second one with the same email gets 409 and leaves the table as it was. |
| `Handlers.EmptyFieldsRegister` | handlers/auth.go:14-19 | The `validate` tag rules are not enforced. A parsed request with every field empty registers with 201. |
| `Handlers.Login` | handlers/auth.go:85-120 | Status is one of 200, 400, 401 or 500, and 400 happens exactly for an unparsed body. Each error status carries its message. 200 returns a row of the table with the request's email and a hash bcrypt accepts for the password, plus the token issued for that row's id. |
| `Handlers.LoginAcceptsIff` | handlers/auth.go:93-106 | In a valid table, 401 happens exactly when no row has both the email and a matching hash. 200 happens exactly when such a row exists and a token is issued for it. |
| `Handlers.LoginUserShowsProfileKeys` | handlers/auth.go:94-119 | The user a successful login returns is read without its relationships, so its JSON has exactly the eight profile keys. |
| `Handlers.LoginAntiEnumeration` | handlers/auth.go:95-106 | An unknown email and a known email with a wrong password get the identical response: 401 "Invalid credentials". |
| `Handlers.RegisterThenLogin` | handlers/auth.go:49-119 | After a successful registration, logging in with the same email and password returns the new row and a token for its key, or 500 if the token service fails. |
| `Handlers.UserStore.Register` | handlers/auth.go:32-82 | The in-place handler keeps the table valid. Its response and new table are exactly `RegisterOutcome` of the old table. |
| `Middleware.TrimPrefix` | middleware/auth.go:30 | With the prefix present, prefix + result is the input. Without it, the input is returned unchanged. |
| `Middleware.AuthRequired` | middleware/auth.go:12-50 | Every rejection is 401 with one of the four messages and leaves the locals untouched. Forwarding happens only for a "Bearer "-prefixed header whose remainder validates, and it writes that claims' user id under "userID". |
| `Middleware.BearerFormIsPrefix` | middleware/auth.go:23 | "Starts with `Bearer `" (case-sensitive, with the space) is the same as "is `Bearer ` + some t". |
| `Middleware.TokenIsRemainder` | middleware/auth.go:30 | The token extracted from "Bearer " + t is t, even when t itself starts with "Bearer ". |
| `Middleware.NonBearerRejected` | middleware/auth.go:15-28 | A header not of the form "Bearer " + t is rejected without validation: "Authorization header required" if empty, otherwise "Invalid authorization format". |
| `Middleware.BearerDecided` | middleware/auth.go:30-48 | For "Bearer " + t: an empty t gives "Token required", a t the validator refuses gives "Invalid token", and any other t forwards with the claims' user id in the locals. |
| `Middleware.ForwardedIff` | middleware/auth.go:15-48 | The request is forwarded exactly when the header is "Bearer " + t for a non-empty t that validates. The locals change only when it is forwarded. |
| `Middleware.HeaderExamples` | middleware/auth.go:15-35 | "" is missing. "Bearer" and "bearer x" are badly formatted. "Bearer " has no token. "Bearer  " and "Bearer Bearer x" reach the validator with " " and "Bearer x". |
| `Flows.RegisteredTokenOpensGuard` | handlers/auth.go:71-81 | The token from a 201 registration, sent as "Bearer <token>" at the instant it was issued, passes the guard with the new row's key as userID. |
| `Flows.LoginTokenOpensGuard` | handlers/auth.go:108-119 | The token from a 200 login, sent as "Bearer <token>" at the instant it was issued, passes the guard with the matched row's id as userID. |

Two facts about the source that the model keeps:

- The `validate` tags on the request types (handlers/auth.go:15-17, 22-23) are never evaluated. Only a body-parse failure gives 400 (`Handlers.EmptyFieldsRegister`).
- Register keeps the inserted row when token generation fails afterwards (`Handlers.TokenFailureKeepsUser`).

## Left out

- Request parsing (`BodyParser`) is out: a request body arrives as `Some(request)` or as `None` when parsing failed.
- Database connection, DSN building, AutoMigrate and Close (database/database.go) are out: the users table is the in-memory `UserTable`. Whether the INSERT succeeds is the parameter `insertOk`.
- Database errors other than "not found" on the email lookups are out. In the source, such an error makes Register go on to insert and makes Login answer 401. The in-memory table never fails a lookup.
- Soft deletion is out: the table holds only live rows, so GORM's filtering of deleted rows has nothing to filter. The unique index is modelled over those live rows only.
- Concurrent registrations are out. The database's unique index arbitrates between them, not this code.
- Postgres sequence gaps are out: a failed INSERT does not use up a key in the model.
- HMAC signing, token encoding, the `JWT_SECRET` setting and its `"default-secret-key"` fallback, and the clock check against the 24-hour expiry (utils/jwt.go) are out. The token service is the abstract `Jwt`, and the clock is the parameter `now`.
- Services.Jwt.Sound: does not state the claims' dates. The service sets issued-at and expires-at (24 hours on) from two separate clock reads, each rounded down to the second, so no law in terms of one `now` holds for them. For the same reason the `Flows` lemmas present the token at the instant it was issued; validity for the rest of the 24 hours is not modelled.
- Models.InsertPassenger: models only the composite primary key, not the foreign keys of `ride_passengers`. The table is also the join table of the two `many2many:ride_passengers` relations, so the database refuses a row naming a missing ride or user; the model accepts it.
- bcrypt's cost factor, salting and 72-byte limit are out. Hashing is the abstract `Bcrypt`, the salt is a parameter, and hashing may fail.
- Go's `uint` width is out: ids are unbounded `nat`. Header and token bytes are modelled as characters.
- `time.Time` and `float64` values are opaque, and their JSON text is not modelled.
- main.go and main_simple.go are out: application setup, CORS, logging, recovery, route wiring, the port default and the placeholder ride and profile handlers carry no behaviour to model.
- Enforcing the status domains on every insert is out. The ride and booking status domains are only comments in the source. The model proves only that the defaults land inside them.
