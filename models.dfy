/** The three persisted records of the ride-sharing backend (users, rides and
    the ride/passenger join rows), the JSON view that encoding/json gives of
    them through their `json` tags, and the schema facts their `gorm` tags
    state: the unique email, the composite key of the join table and the
    column defaults applied on insert. */
module Models {
  import opened Wrappers
  import opened Json

  /** Go's zero time.Time (January 1, year 1, 00:00:00 UTC). */
  const ZeroTime: Time := Time(-62135596800 * 1000000000)

  datatype User = User(
    id: nat,
    createdAt: Time,
    updatedAt: Time,
    deletedAt: Option<Time>,
    name: string,
    email: string,
    password: string,
    phone: string,
    dateOfBirth: Option<Time>,
    gender: string,
    createdRides: seq<Ride>,
    joinedRides: seq<Ride>)

  datatype Ride = Ride(
    id: nat,
    createdAt: Time,
    updatedAt: Time,
    deletedAt: Option<Time>,
    driverId: nat,
    driver: User,
    origin: string,
    destination: string,
    departureTime: Time,
    arrivalTime: Option<Time>,
    availableSeats: int,
    pricePerSeat: Float64,
    description: string,
    status: string,
    originLat: Option<Float64>,
    originLng: Option<Float64>,
    destinationLat: Option<Float64>,
    destinationLng: Option<Float64>,
    passengers: seq<User>)

  datatype RidePassenger = RidePassenger(
    rideId: nat,
    userId: nat,
    joinedAt: Time,
    seatsBooked: int,
    status: string)

  // ---------------------------------------------------------------------
  // Outward JSON view
  // ---------------------------------------------------------------------

  /** The keys the JSON view of a user always carries, in field order. */
  const UserKeys: seq<string> :=
    ["id", "created_at", "updated_at", "name", "email", "phone", "date_of_birth", "gender"]

  /** The keys `json:"-"` keeps out of every outward view. */
  predicate Hidden(k: string)
  {
    k == "password" || k == "deleted_at"
  }

  function OptTime(t: Option<Time>): Json
  {
    match t
    case None => JNull
    case Some(v) => JTime(v)
  }

  function OptFloat(f: Option<Float64>): Json
  {
    match f
    case None => JNull
    case Some(v) => JFloat(v)
  }

  /** A relationship list tagged `omitempty`: no member at all when empty.
      The fragment mentions a key exactly when the list is non-empty and the
      key is the tag's own name or is mentioned inside the items. */
  function OmitEmpty(key: string, items: seq<Json>): (ms: seq<Member>)
    ensures |ms| <= 1
    ensures ms == [] <==> items == []
    ensures ms != [] ==> ms[0] == Member(key, JArr(items))
    ensures forall k :: MembersMention(ms, k) <==>
              items != [] && (k == key || ItemsMention(items, k))
  {
    if items == [] then [] else [Member(key, JArr(items))]
  }

  /** What encoding/json writes for a User. */
  function UserJson(u: User): Json
    decreases u, 1
  {
    JObj([ Member("id", JInt(u.id)),
           Member("created_at", JTime(u.createdAt)),
           Member("updated_at", JTime(u.updatedAt)),
           Member("name", JStr(u.name)),
           Member("email", JStr(u.email)),
           Member("phone", JStr(u.phone)),
           Member("date_of_birth", OptTime(u.dateOfBirth)),
           Member("gender", JStr(u.gender)) ]
         + OmitEmpty("created_rides", RidesJson(u.createdRides))
         + OmitEmpty("joined_rides", RidesJson(u.joinedRides)))
  }

  function RidesJson(rs: seq<Ride>): (js: seq<Json>)
    decreases rs, 0
    ensures |js| == |rs|
  {
    if rs == [] then [] else [RideJson(rs[0])] + RidesJson(rs[1..])
  }

  /** What encoding/json writes for a Ride, field group by field group; the
      driver is embedded in full. */
  function RideJson(r: Ride): Json
    decreases r, 1
  {
    JObj(RideIdentity(r) + RideRoute(r) + RideOffer(r) + RideCoordinates(r)
         + OmitEmpty("passengers", UsersJson(r.passengers)))
  }

  function RideIdentity(r: Ride): seq<Member>
    decreases r, 0
  {
    [ Member("id", JInt(r.id)),
      Member("created_at", JTime(r.createdAt)),
      Member("updated_at", JTime(r.updatedAt)),
      Member("driver_id", JInt(r.driverId)),
      Member("driver", UserJson(r.driver)) ]
  }

  function RideRoute(r: Ride): seq<Member>
  {
    [ Member("origin", JStr(r.origin)),
      Member("destination", JStr(r.destination)),
      Member("departure_time", JTime(r.departureTime)),
      Member("arrival_time", OptTime(r.arrivalTime)) ]
  }

  function RideOffer(r: Ride): seq<Member>
  {
    [ Member("available_seats", JInt(r.availableSeats)),
      Member("price_per_seat", JFloat(r.pricePerSeat)),
      Member("description", JStr(r.description)),
      Member("status", JStr(r.status)) ]
  }

  function RideCoordinates(r: Ride): seq<Member>
  {
    [ Member("origin_lat", OptFloat(r.originLat)),
      Member("origin_lng", OptFloat(r.originLng)),
      Member("destination_lat", OptFloat(r.destinationLat)),
      Member("destination_lng", OptFloat(r.destinationLng)) ]
  }

  function UsersJson(us: seq<User>): (js: seq<Json>)
    decreases us, 0
    ensures |js| == |us|
  {
    if us == [] then [] else [UserJson(us[0])] + UsersJson(us[1..])
  }

  /** What encoding/json writes for a join row. */
  function RidePassengerJson(p: RidePassenger): Json
  {
    JObj([ Member("ride_id", JInt(p.rideId)),
           Member("user_id", JInt(p.userId)),
           Member("joined_at", JTime(p.joinedAt)),
           Member("seats_booked", JInt(p.seatsBooked)),
           Member("status", JStr(p.status)) ])
  }

  /** The view of a user lists exactly the eight profile keys, followed by
      created_rides and joined_rides only when those lists are non-empty. */
  lemma UserJsonKeys(u: User)
    ensures UserJson(u).JObj?
    ensures Keys(UserJson(u).members)
            == UserKeys
               + (if u.createdRides == [] then [] else ["created_rides"])
               + (if u.joinedRides == [] then [] else ["joined_rides"])
  {
    var fixed := UserJson(u).members[..8];
    var created := OmitEmpty("created_rides", RidesJson(u.createdRides));
    var joined := OmitEmpty("joined_rides", RidesJson(u.joinedRides));
    assert UserJson(u).members == fixed + created + joined;
    assert Keys(fixed) == UserKeys;
    KeysAppend(fixed, created);
    KeysAppend(fixed + created, joined);
  }

  /** The keys a ride's view always carries, in field order, group by group. */
  const RideIdentityKeys: seq<string> := ["id", "created_at", "updated_at", "driver_id", "driver"]
  const RideRouteKeys: seq<string> := ["origin", "destination", "departure_time", "arrival_time"]
  const RideOfferKeys: seq<string> := ["available_seats", "price_per_seat", "description", "status"]
  const RideCoordinateKeys: seq<string> := ["origin_lat", "origin_lng", "destination_lat", "destination_lng"]
  const RideKeys: seq<string> := RideIdentityKeys + RideRouteKeys + RideOfferKeys + RideCoordinateKeys

  /** The view of a ride lists its seventeen column and driver keys, followed
      by passengers only when that list is non-empty. */
  lemma RideJsonKeys(r: Ride)
    ensures RideJson(r).JObj?
    ensures Keys(RideJson(r).members)
            == RideKeys + (if r.passengers == [] then [] else ["passengers"])
  {
    var cols := RideIdentity(r) + RideRoute(r) + RideOffer(r) + RideCoordinates(r);
    var rest := OmitEmpty("passengers", UsersJson(r.passengers));
    RideColumnKeys(r);
    KeysAppend(cols, rest);
    assert Keys(rest) == if r.passengers == [] then [] else ["passengers"];
  }

  lemma RideColumnKeys(r: Ride)
    ensures Keys(RideIdentity(r) + RideRoute(r) + RideOffer(r) + RideCoordinates(r)) == RideKeys
  {
    var head, route, offer, coords := RideIdentity(r), RideRoute(r), RideOffer(r), RideCoordinates(r);
    KeysAppend(head, route);
    KeysAppend(head + route, offer);
    KeysAppend(head + route + offer, coords);
    assert Keys(head) == RideIdentityKeys;
    assert Keys(route) == RideRouteKeys;
    assert Keys(offer) == RideOfferKeys;
    assert Keys(coords) == RideCoordinateKeys;
  }

  /** The view of a join row lists its five columns in field order. */
  lemma RidePassengerJsonKeys(p: RidePassenger)
    ensures RidePassengerJson(p).JObj?
    ensures Keys(RidePassengerJson(p).members)
            == ["ride_id", "user_id", "joined_at", "seats_booked", "status"]
  {
  }

  lemma {:induction false} KeysAppend(a: seq<Member>, b: seq<Member>)
    ensures Keys(a + b) == Keys(a) + Keys(b)
  {
    if a == [] {
      assert a + b == b;
    } else {
      assert (a + b)[1..] == a[1..] + b;
      KeysAppend(a[1..], b);
    }
  }

  /** Neither the password hash nor the deletion marker is ever part of the
      outward view of a user, at any depth (through the rides it embeds and
      the drivers and passengers those embed in turn). */
  lemma {:induction false} UserJsonHidesSecrets(u: User, k: string)
    requires Hidden(k)
    ensures !Mentions(UserJson(u), k)
    decreases u, 1
  {
    RidesJsonHideSecrets(u.createdRides, k);
    RidesJsonHideSecrets(u.joinedRides, k);
    var ms := UserJson(u).members;
    MembersMentionAt(ms, k);
    forall i | 0 <= i < |ms| ensures ms[i].key != k && !Mentions(ms[i].value, k) {
      if i >= 8 {
        var created := OmitEmpty("created_rides", RidesJson(u.createdRides));
        if i < 8 + |created| {
          assert ms[i] == Member("created_rides", JArr(RidesJson(u.createdRides)));
        } else {
          assert ms[i] == Member("joined_rides", JArr(RidesJson(u.joinedRides)));
        }
      }
    }
  }

  lemma {:induction false} RidesJsonHideSecrets(rs: seq<Ride>, k: string)
    requires Hidden(k)
    ensures !ItemsMention(RidesJson(rs), k)
    decreases rs, 0
  {
    if rs != [] {
      RideJsonHidesSecrets(rs[0], k);
      RidesJsonHideSecrets(rs[1..], k);
    }
  }

  /** The same holds of the view of a ride. */
  lemma {:induction false} RideJsonHidesSecrets(r: Ride, k: string)
    requires Hidden(k)
    ensures !Mentions(RideJson(r), k)
    decreases r, 1
  {
    UserJsonHidesSecrets(r.driver, k);
    UsersJsonHideSecrets(r.passengers, k);
    var head, route, offer, coords := RideIdentity(r), RideRoute(r), RideOffer(r), RideCoordinates(r);
    var rest := OmitEmpty("passengers", UsersJson(r.passengers));
    NoMemberMentions(head, k);
    NoMemberMentions(route, k);
    NoMemberMentions(offer, k);
    NoMemberMentions(coords, k);
    NoMemberMentions(rest, k);
    MembersMentionAppend(head, route, k);
    MembersMentionAppend(head + route, offer, k);
    MembersMentionAppend(head + route + offer, coords, k);
    MembersMentionAppend(head + route + offer + coords, rest, k);
  }

  /** A list of members none of which is named k or mentions k. */
  lemma NoMemberMentions(ms: seq<Member>, k: string)
    requires forall i :: 0 <= i < |ms| ==> ms[i].key != k && !Mentions(ms[i].value, k)
    ensures !MembersMention(ms, k)
  {
  }

  lemma {:induction false} MembersMentionAppend(a: seq<Member>, b: seq<Member>, k: string)
    ensures MembersMention(a + b, k) <==> MembersMention(a, k) || MembersMention(b, k)
  {
    if a == [] {
      assert a + b == b;
    } else {
      assert (a + b)[0] == a[0];
      assert (a + b)[1..] == a[1..] + b;
      MembersMentionAppend(a[1..], b, k);
    }
  }

  lemma {:induction false} UsersJsonHideSecrets(us: seq<User>, k: string)
    requires Hidden(k)
    ensures !ItemsMention(UsersJson(us), k)
    decreases us, 0
  {
    if us != [] {
      UserJsonHidesSecrets(us[0], k);
      UsersJsonHideSecrets(us[1..], k);
    }
  }

  /** A user with its password and deletion marker blanked, at every depth. */
  function Scrub(u: User): User
    decreases u, 1
  {
    u.(password := "", deletedAt := None,
       createdRides := ScrubRides(u.createdRides), joinedRides := ScrubRides(u.joinedRides))
  }

  function ScrubRides(rs: seq<Ride>): (rs': seq<Ride>)
    decreases rs, 0
    ensures |rs'| == |rs|
  {
    if rs == [] then [] else [ScrubRide(rs[0])] + ScrubRides(rs[1..])
  }

  /** A ride with its deletion marker blanked, and its driver and passengers
      scrubbed. */
  function ScrubRide(r: Ride): Ride
    decreases r, 1
  {
    r.(deletedAt := None, driver := Scrub(r.driver), passengers := ScrubUsers(r.passengers))
  }

  function ScrubUsers(us: seq<User>): (us': seq<User>)
    decreases us, 0
    ensures |us'| == |us|
  {
    if us == [] then [] else [Scrub(us[0])] + ScrubUsers(us[1..])
  }

  /** The view of a user does not depend on any password or deletion marker
      it holds, at any depth: not under another key, and not as a value. */
  lemma {:induction false} UserJsonIgnoresSecrets(u: User)
    ensures UserJson(u) == UserJson(Scrub(u))
    decreases u, 1
  {
    RidesJsonIgnoreSecrets(u.createdRides);
    RidesJsonIgnoreSecrets(u.joinedRides);
  }

  lemma {:induction false} RidesJsonIgnoreSecrets(rs: seq<Ride>)
    ensures RidesJson(rs) == RidesJson(ScrubRides(rs))
    decreases rs, 0
  {
    if rs != [] {
      RideJsonIgnoresSecrets(rs[0]);
      RidesJsonIgnoreSecrets(rs[1..]);
      assert ScrubRides(rs)[0] == ScrubRide(rs[0]);
      assert ScrubRides(rs)[1..] == ScrubRides(rs[1..]);
    }
  }

  /** The same holds of the view of a ride. */
  lemma {:induction false} RideJsonIgnoresSecrets(r: Ride)
    ensures RideJson(r) == RideJson(ScrubRide(r))
    decreases r, 1
  {
    UserJsonIgnoresSecrets(r.driver);
    UsersJsonIgnoreSecrets(r.passengers);
  }

  lemma {:induction false} UsersJsonIgnoreSecrets(us: seq<User>)
    ensures UsersJson(us) == UsersJson(ScrubUsers(us))
    decreases us, 0
  {
    if us != [] {
      UserJsonIgnoresSecrets(us[0]);
      UsersJsonIgnoreSecrets(us[1..]);
      assert ScrubUsers(us)[0] == Scrub(us[0]);
      assert ScrubUsers(us)[1..] == ScrubUsers(us[1..]);
    }
  }

  // ---------------------------------------------------------------------
  // Column defaults and status domains
  // ---------------------------------------------------------------------

  const DefaultRideStatus := "active"
  const DefaultPassengerStatus := "confirmed"
  const DefaultSeatsBooked := 1

  /** The statuses a ride's comment names: active, completed, cancelled. */
  predicate IsRideStatus(s: string)
  {
    s == "active" || s == "completed" || s == "cancelled"
  }

  /** The statuses a booking's comment names: confirmed, cancelled. */
  predicate IsPassengerStatus(s: string)
  {
    s == "confirmed" || s == "cancelled"
  }

  /** What an insert stores for a ride: the `default:'active'` tag replaces a
      zero (empty) status and touches nothing else. So a ride is never
      stored without a status, a status given by the caller is kept, and the
      only status the insert can introduce is the default. */
  function WithRideDefaults(r: Ride): (r': Ride)
    ensures r' == r.(status := r'.status)
    ensures r'.status != ""
    ensures r.status != "" ==> r' == r
    ensures r'.status == r.status || r'.status == DefaultRideStatus
  {
    if r.status == "" then r.(status := DefaultRideStatus) else r
  }

  /** A ride inserted with no status, or with one of the documented ones,
      is stored with a documented status; applying the defaults twice
      changes nothing. */
  lemma RideDefaultsKeepStatusDomain(r: Ride)
    requires r.status == "" || IsRideStatus(r.status)
    ensures IsRideStatus(WithRideDefaults(r).status)
    ensures WithRideDefaults(WithRideDefaults(r)) == WithRideDefaults(r)
  {
  }

  /** What an insert stores for a join row: `default:1` replaces zero seats,
      `default:'confirmed'` an empty status, and `autoCreateTime` a zero
      joined_at with the time of the insert. So the stored row keeps its key,
      never has zero seats or an empty status, keeps every field the caller
      set, and introduces no value but the defaults and the insert time. */
  function WithPassengerDefaults(p: RidePassenger, now: Time): (p': RidePassenger)
    ensures p'.rideId == p.rideId && p'.userId == p.userId
    ensures p'.seatsBooked != 0 && p'.status != ""
    ensures p.seatsBooked != 0 && p.status != "" && p.joinedAt != ZeroTime ==> p' == p
    ensures p.seatsBooked != 0 ==> p'.seatsBooked == p.seatsBooked
    ensures p.status != "" ==> p'.status == p.status
    ensures p.joinedAt != ZeroTime ==> p'.joinedAt == p.joinedAt
    ensures p'.seatsBooked == p.seatsBooked || p'.seatsBooked == DefaultSeatsBooked
    ensures p'.status == p.status || p'.status == DefaultPassengerStatus
    ensures p'.joinedAt == p.joinedAt || p'.joinedAt == now
    ensures p'.joinedAt != ZeroTime || now == ZeroTime
  {
    RidePassenger(
      p.rideId,
      p.userId,
      if p.joinedAt == ZeroTime then now else p.joinedAt,
      if p.seatsBooked == 0 then DefaultSeatsBooked else p.seatsBooked,
      if p.status == "" then DefaultPassengerStatus else p.status)
  }

  /** A new booking, built with only its key set, is stored with one seat,
      status confirmed and the insert time. */
  lemma NewPassengerDefaults(rideId: nat, userId: nat, now: Time)
    ensures var p := WithPassengerDefaults(RidePassenger(rideId, userId, ZeroTime, 0, ""), now);
            p.seatsBooked == 1 && p.status == "confirmed" && IsPassengerStatus(p.status)
            && p.joinedAt == now
  {
  }

  /** A booking inserted with no status, or with one of the documented ones,
      is stored with a documented status and at least one seat unless a
      non-zero count was given; applying the defaults twice changes nothing. */
  lemma PassengerDefaultsKeepStatusDomain(p: RidePassenger, now: Time)
    requires p.status == "" || IsPassengerStatus(p.status)
    ensures IsPassengerStatus(WithPassengerDefaults(p, now).status)
    ensures WithPassengerDefaults(p, now).seatsBooked != 0
    ensures WithPassengerDefaults(WithPassengerDefaults(p, now), now) == WithPassengerDefaults(p, now)
  {
  }

  // ---------------------------------------------------------------------
  // The ride_passengers table and its composite primary key
  // ---------------------------------------------------------------------

  /** No two rows of the join table share a (ride_id, user_id) key. */
  ghost predicate PairsUnique(rows: seq<RidePassenger>)
  {
    forall i, j :: 0 <= i < j < |rows| ==>
      (rows[i].rideId, rows[i].userId) != (rows[j].rideId, rows[j].userId)
  }

  /** True when some row already holds the key (rideId, userId). */
  predicate HasPair(rows: seq<RidePassenger>, rideId: nat, userId: nat)
  {
    exists i :: 0 <= i < |rows| && rows[i].rideId == rideId && rows[i].userId == userId
  }

  /** An insert into the join table: refused when the composite primary key
      is taken, otherwise the row, with its defaults applied, is appended. */
  function InsertPassenger(rows: seq<RidePassenger>, p: RidePassenger, now: Time): (r: Option<seq<RidePassenger>>)
    ensures r.None? <==> HasPair(rows, p.rideId, p.userId)
    ensures r.Some? ==> r.value == rows + [WithPassengerDefaults(p, now)]
    ensures r.Some? && PairsUnique(rows) ==> PairsUnique(r.value)
  {
    if HasPair(rows, p.rideId, p.userId) then None
    else Some(rows + [WithPassengerDefaults(p, now)])
  }
}
