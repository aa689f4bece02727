/** The ride serializers: offering a ride, joining one, editing one before it departs, and the
    time check that ending a ride needs.  Every write that a successful operation makes to the
    ride and to the ride counters of the circle, the membership and the profile is spelled out. */
module RideBoard {
  import opened Tables

  /** An offered ride must depart at least ten minutes after the request. */
  const LeadTime: int := 600
  const MinSeats: int := 1
  const MaxSeats: int := 15

  datatype RideError =
    | SeatsOutOfRange
    | DepartureTooSoon
    | NotActiveMember
    | ArrivalNotAfterDeparture
    | UnknownPassenger
    | RideStarted
    | RideFull
    | AlreadyPassenger
    | RideLocked
    | NotStarted

  /** The writable fields of a ride offer; the offerer is always the requesting user. */
  datatype RideInput = RideInput(
    departureDate: Time,
    arrivalDate: Time,
    availableSeats: int,
    departureLocation: string,
    arrivalLocation: string,
    comments: string)

  // ---------------------------------------------------------------------------
  // Offering a ride.

  /** `CreateRideSerializer` validation: the seat bound and the lead time on the fields, then the
      active membership of the offerer and the order of the two dates.  On success the result is
      the offerer's active membership, which the stat update needs.  The check that the offerer is
      the requester builds an error without raising it; the offerer is the requester by
      construction, so nothing is lost. */
  function CheckCreate(db: Db, circle: Id, user: UserId, input: RideInput, now: Time): (r: Result<Id, RideError>)
    requires OneMembershipPerUser(db)
    ensures r.Success? <==>
      && MinSeats <= input.availableSeats <= MaxSeats
      && input.departureDate >= now + LeadTime
      && IsActiveMember(db, user, circle)
      && input.arrivalDate > input.departureDate
    ensures r.Success? ==>
      && r.value in db.memberships && db.memberships[r.value].isActive
      && db.memberships[r.value].user == user && db.memberships[r.value].circle == circle
    ensures !(MinSeats <= input.availableSeats <= MaxSeats) ==> r == Failure(SeatsOutOfRange)
    ensures MinSeats <= input.availableSeats <= MaxSeats && input.departureDate < now + LeadTime ==>
      r == Failure(DepartureTooSoon)
  {
    if !(MinSeats <= input.availableSeats <= MaxSeats) then
      Failure(SeatsOutOfRange)
    else if input.departureDate < now + LeadTime then
      Failure(DepartureTooSoon)
    else
      match ActiveMembershipOf(db, user, circle)
      case None => Failure(NotActiveMember)
      case Some(member) =>
        if input.arrivalDate <= input.departureDate then Failure(ArrivalNotAfterDeparture)
        else Success(member)
  }

  /** The ride row a successful offer creates: no passengers, no rating, active. */
  function NewRide(circle: Id, user: UserId, input: RideInput): (r: Ride)
    requires input.availableSeats >= 0
    ensures r.circle == circle && r.offeredBy == user && r.passengers == {} && r.rating == None && r.isActive
    ensures r.departureDate == input.departureDate && r.arrivalDate == input.arrivalDate
    ensures r.availableSeats == input.availableSeats
  {
    Ride(circle, user, input.departureDate, input.arrivalDate, input.availableSeats as nat, {},
      input.departureLocation, input.arrivalLocation, input.comments, None, true)
  }

  /** `CreateRideSerializer.create`: the ride row, then one more ride offered on the circle, on
      the offerer's membership and on the offerer's profile. */
  function CommitCreate(db: Db, circle: Id, user: UserId, member: Id, input: RideInput): (after: Db)
    requires circle in db.circles && user in db.profiles && member in db.memberships
    requires input.availableSeats >= MinSeats
    ensures after.nextId == db.nextId + 1
    ensures after.rides == db.rides[db.nextId := NewRide(circle, user, input)]
    ensures after.circles == db.circles[circle := db.circles[circle].(ridesOffered := db.circles[circle].ridesOffered + 1)]
    ensures after.memberships ==
      db.memberships[member := db.memberships[member].(ridesOffered := db.memberships[member].ridesOffered + 1)]
    ensures after.profiles == db.profiles[user := db.profiles[user].(ridesOffered := db.profiles[user].ridesOffered + 1)]
    ensures after.invitations == db.invitations && after.ratings == db.ratings
  {
    var c := db.circles[circle];
    var m := db.memberships[member];
    var p := db.profiles[user];
    db.(rides := db.rides[db.nextId := NewRide(circle, user, input)],
        circles := db.circles[circle := c.(ridesOffered := c.ridesOffered + 1)],
        memberships := db.memberships[member := m.(ridesOffered := m.ridesOffered + 1)],
        profiles := db.profiles[user := p.(ridesOffered := p.ridesOffered + 1)],
        nextId := db.nextId + 1)
  }

  /** Offering a ride keeps the store invariant. */
  lemma {:induction false} CreatePreservesValid(db: Db, circle: Id, user: UserId, member: Id, input: RideInput)
    requires Valid(db)
    requires member in db.memberships && db.memberships[member].user == user && db.memberships[member].circle == circle
    requires input.availableSeats >= MinSeats
    ensures circle in db.circles && user in db.profiles
    ensures Valid(CommitCreate(db, circle, user, member, input))
  {
    var after := CommitCreate(db, circle, user, member, input);
    var bumped := after.(rides := db.rides, nextId := db.nextId);
    ValidUnderRelink(db, bumped);
    forall id | id in after.invitations
      ensures HasMembership(after, after.invitations[id].issuedBy, after.invitations[id].circle)
    {
      var inv := after.invitations[id];
      var m :| m in bumped.memberships && bumped.memberships[m].user == inv.issuedBy && bumped.memberships[m].circle == inv.circle;
      assert after.memberships[m] == bumped.memberships[m];
    }
  }

  // ---------------------------------------------------------------------------
  // Joining a ride.

  /** Whether `user` travels on any ride at all. */
  predicate OnSomeRide(db: Db, user: UserId) {
    exists id :: id in db.rides && user in db.rides[id].passengers
  }

  /** `JoinRideSerializer` validation: the passenger must be a known user with an active
      membership in the circle; the ride must not have departed and must have a free seat; and the
      passenger must not already travel.  The last check is not restricted to this ride, so a user
      on any ride is refused.  The membership test that forgets to call `exists` has no effect; the
      lookup that follows it makes the same demand. */
  function CheckJoin(db: Db, circle: Id, ride: Id, passenger: UserId, now: Time): (r: Result<Id, RideError>)
    requires OneMembershipPerUser(db) && ride in db.rides
    ensures r.Success? <==>
      && passenger in db.profiles
      && IsActiveMember(db, passenger, circle)
      && db.rides[ride].departureDate > now
      && db.rides[ride].availableSeats >= 1
      && !OnSomeRide(db, passenger)
    ensures r.Success? ==>
      && r.value in db.memberships && db.memberships[r.value].isActive
      && db.memberships[r.value].user == passenger && db.memberships[r.value].circle == circle
    ensures passenger in db.profiles && IsActiveMember(db, passenger, circle) && db.rides[ride].departureDate <= now ==>
      r == Failure(RideStarted)
    ensures (passenger in db.profiles && IsActiveMember(db, passenger, circle) && db.rides[ride].departureDate > now &&
      db.rides[ride].availableSeats < 1) ==> r == Failure(RideFull)
  {
    if passenger !in db.profiles then
      Failure(UnknownPassenger)
    else
      match ActiveMembershipOf(db, passenger, circle)
      case None => Failure(NotActiveMember)
      case Some(member) =>
        var r := db.rides[ride];
        if r.departureDate <= now then Failure(RideStarted)
        else if r.availableSeats < 1 then Failure(RideFull)
        else if OnSomeRide(db, passenger) then Failure(AlreadyPassenger)
        else Success(member)
  }

  /** `JoinRideSerializer.update`: the passenger boards, one seat fewer, and one more ride taken on
      the passenger's profile and membership and on the circle.  The source decrements a misspelt
      seat attribute; reading it raises AttributeError, so as written the request fails right after
      the passenger is added, and no seat count or ride counter changes.  The intended updates are
      modelled. */
  function CommitJoin(db: Db, circle: Id, ride: Id, passenger: UserId, member: Id): (after: Db)
    requires circle in db.circles && ride in db.rides && passenger in db.profiles && member in db.memberships
    requires db.rides[ride].availableSeats >= 1
    ensures after.rides == db.rides[ride := db.rides[ride].(
      passengers := db.rides[ride].passengers + {passenger},
      availableSeats := db.rides[ride].availableSeats - 1)]
    ensures after.profiles == db.profiles[passenger := db.profiles[passenger].(ridesTaken := db.profiles[passenger].ridesTaken + 1)]
    ensures after.memberships ==
      db.memberships[member := db.memberships[member].(ridesTaken := db.memberships[member].ridesTaken + 1)]
    ensures after.circles == db.circles[circle := db.circles[circle].(ridesTaken := db.circles[circle].ridesTaken + 1)]
    ensures after.invitations == db.invitations && after.ratings == db.ratings && after.nextId == db.nextId
  {
    var r := db.rides[ride];
    var p := db.profiles[passenger];
    var m := db.memberships[member];
    var c := db.circles[circle];
    db.(rides := db.rides[ride := r.(passengers := r.passengers + {passenger}, availableSeats := r.availableSeats - 1)],
        profiles := db.profiles[passenger := p.(ridesTaken := p.ridesTaken + 1)],
        memberships := db.memberships[member := m.(ridesTaken := m.ridesTaken + 1)],
        circles := db.circles[circle := c.(ridesTaken := c.ridesTaken + 1)])
  }

  /** Joining keeps the store invariant when the passenger is not the offerer. */
  lemma JoinPreservesValid(db: Db, circle: Id, ride: Id, passenger: UserId, member: Id)
    requires Valid(db) && ride in db.rides && db.rides[ride].availableSeats >= 1
    requires member in db.memberships && db.memberships[member].user == passenger && db.memberships[member].circle == circle
    requires passenger != db.rides[ride].offeredBy
    ensures circle in db.circles && passenger in db.profiles
    ensures Valid(CommitJoin(db, circle, ride, passenger, member))
  {
    ValidUnderRelink(db, CommitJoin(db, circle, ride, passenger, member));
  }

  /** A join moves exactly one seat from free to taken: seats plus passengers stay constant on the
      ride, and no other ride changes. */
  lemma JoinMovesOneSeat(db: Db, circle: Id, ride: Id, passenger: UserId, now: Time)
    requires Valid(db) && ride in db.rides
    requires CheckJoin(db, circle, ride, passenger, now).Success?
    ensures circle in db.circles
    ensures var after := CommitJoin(db, circle, ride, passenger, CheckJoin(db, circle, ride, passenger, now).value);
      && after.rides[ride].availableSeats + |after.rides[ride].passengers| ==
         db.rides[ride].availableSeats + |db.rides[ride].passengers|
      && passenger in after.rides[ride].passengers
      && forall id :: id in db.rides && id != ride ==> after.rides[id] == db.rides[id]
  {
    assert passenger !in db.rides[ride].passengers;
  }

  /** Once a user has joined a ride, every further join by that user is refused, on this ride
      and on any other. */
  lemma {:induction false} JoinedPassengerRejected(db: Db, circle: Id, ride: Id, passenger: UserId, member: Id,
                                                  other: Id, otherCircle: Id, later: Time)
    requires Valid(db) && ride in db.rides && db.rides[ride].availableSeats >= 1
    requires member in db.memberships && db.memberships[member].user == passenger && db.memberships[member].circle == circle
    requires passenger != db.rides[ride].offeredBy
    requires other in db.rides
    ensures var after := CommitJoin(db, circle, ride, passenger, member);
      OneMembershipPerUser(after) && other in after.rides &&
      CheckJoin(after, otherCircle, other, passenger, later).Failure?
  {
    JoinPreservesValid(db, circle, ride, passenger, member);
    var after := CommitJoin(db, circle, ride, passenger, member);
    assert passenger in after.rides[ride].passengers;
    assert OnSomeRide(after, passenger);
  }

  /** Taking the last seat closes the ride to every later join. */
  lemma LastSeatTaken(db: Db, circle: Id, ride: Id, passenger: UserId, member: Id, other: UserId, later: Time)
    requires Valid(db) && ride in db.rides && db.rides[ride].availableSeats == 1
    requires member in db.memberships && db.memberships[member].user == passenger && db.memberships[member].circle == circle
    requires passenger != db.rides[ride].offeredBy
    ensures var after := CommitJoin(db, circle, ride, passenger, member);
      OneMembershipPerUser(after) && ride in after.rides && after.rides[ride].availableSeats == 0 &&
      CheckJoin(after, circle, ride, other, later).Failure?
  {
    JoinPreservesValid(db, circle, ride, passenger, member);
  }

  // ---------------------------------------------------------------------------
  // Editing a ride.

  /** The fields an edit may write; None leaves the stored value. The offerer, the circle, the
      passengers and the rating are read-only. */
  datatype RideEdit = RideEdit(
    departureDate: Option<Time>,
    arrivalDate: Option<Time>,
    availableSeats: Option<nat>,
    departureLocation: Option<string>,
    arrivalLocation: Option<string>,
    comments: Option<string>,
    isActive: Option<bool>)

  function Pick<T>(v: Option<T>, stored: T): T {
    if v.Some? then v.value else stored
  }

  /** `RideModelSerializer.update`: a ride that has departed (stored departure at or before now) is
      locked; otherwise every given field is written and the rest are kept. */
  function Edit(r: Ride, edit: RideEdit, now: Time): (res: Result<Ride, RideError>)
    ensures res.Failure? <==> r.departureDate <= now
    ensures res.Failure? ==> res.error == RideLocked
    ensures res.Success? ==>
      && res.value.circle == r.circle && res.value.offeredBy == r.offeredBy
      && res.value.passengers == r.passengers && res.value.rating == r.rating
      && res.value.departureDate == Pick(edit.departureDate, r.departureDate)
      && res.value.arrivalDate == Pick(edit.arrivalDate, r.arrivalDate)
      && res.value.availableSeats == Pick(edit.availableSeats, r.availableSeats)
      && res.value.departureLocation == Pick(edit.departureLocation, r.departureLocation)
      && res.value.arrivalLocation == Pick(edit.arrivalLocation, r.arrivalLocation)
      && res.value.comments == Pick(edit.comments, r.comments)
      && res.value.isActive == Pick(edit.isActive, r.isActive)
  {
    if r.departureDate <= now then
      Failure(RideLocked)
    else
      Success(r.(
        departureDate := Pick(edit.departureDate, r.departureDate),
        arrivalDate := Pick(edit.arrivalDate, r.arrivalDate),
        availableSeats := Pick(edit.availableSeats, r.availableSeats),
        departureLocation := Pick(edit.departureLocation, r.departureLocation),
        arrivalLocation := Pick(edit.arrivalLocation, r.arrivalLocation),
        comments := Pick(edit.comments, r.comments),
        isActive := Pick(edit.isActive, r.isActive)))
  }

  /** An edit that writes nothing leaves a ride that is still open as it was. */
  lemma EmptyEditKeepsRide(r: Ride, now: Time)
    requires r.departureDate > now
    ensures Edit(r, RideEdit(None, None, None, None, None, None, None), now) == Success(r)
  {
  }

  /** The lock is permanent: a ride locked at some instant stays locked at every later one,
      whatever the edit. */
  lemma LockIsPermanent(r: Ride, edit: RideEdit, now: Time, later: Time)
    requires Edit(r, edit, now).Failure? && now <= later
    ensures Edit(r, edit, later).Failure?
  {
  }

  /** Storing an edited ride keeps the store invariant. */
  lemma EditPreservesValid(db: Db, ride: Id, edit: RideEdit, now: Time)
    requires Valid(db) && ride in db.rides && Edit(db.rides[ride], edit, now).Success?
    ensures Valid(db.(rides := db.rides[ride := Edit(db.rides[ride], edit, now).value]))
  {
    ValidUnderRelink(db, db.(rides := db.rides[ride := Edit(db.rides[ride], edit, now).value]));
  }

  // ---------------------------------------------------------------------------
  // Ending a ride.

  /** `EndRideSerializer.validate_current_time`: a ride can be ended only once it has departed. */
  function CheckEnd(r: Ride, currentTime: Time): (res: Result<Time, RideError>)
    ensures res.Failure? <==> currentTime <= r.departureDate
    ensures res.Failure? ==> res.error == NotStarted
    ensures res.Success? ==> res.value == currentTime
  {
    if currentTime <= r.departureDate then Failure(NotStarted) else Success(currentTime)
  }

  /** At any instant a ride is either open to joining and not yet endable, or endable and closed
      to joining; never both. */
  lemma JoinAndEndExclusive(db: Db, circle: Id, ride: Id, passenger: UserId, t: Time)
    requires OneMembershipPerUser(db) && ride in db.rides
    ensures !(CheckJoin(db, circle, ride, passenger, t).Success? && CheckEnd(db.rides[ride], t).Success?)
    ensures CheckEnd(db.rides[ride], t).Success? ==> CheckJoin(db, circle, ride, passenger, t).Failure?
  {
  }

  /** Likewise an editable ride cannot be ended and an endable ride cannot be edited; at the
      departure instant itself both are refused. */
  lemma EditAndEndExclusive(r: Ride, edit: RideEdit, t: Time)
    ensures Edit(r, edit, t).Success? ==> CheckEnd(r, t).Failure?
    ensures CheckEnd(r, t).Success? ==> Edit(r, edit, t).Failure?
    ensures t == r.departureDate ==> Edit(r, edit, t).Failure? && CheckEnd(r, t).Failure?
  {
  }
}
