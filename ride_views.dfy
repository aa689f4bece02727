/** The ride view set of a circle: which rides it shows and looks up, and which permissions each
    action demands.  The ride owner permissions are not part of this model; they are taken to
    compare the requesting user with the ride's offerer. */
module RideViews {
  import opened Tables
  import RideBoard

  /** `get_queryset`: rides of the circle that depart at least ten minutes from now and still
      have a seat.  The seat filter is written with a single underscore in the source, which the
      ORM rejects; the intended lookup "at least one seat" is modelled. */
  function VisibleRides(db: Db, circle: Id, now: Time): (r: set<Id>)
    ensures forall id :: id in r <==>
      && id in db.rides
      && db.rides[id].circle == circle
      && db.rides[id].departureDate >= now + RideBoard.LeadTime
      && db.rides[id].availableSeats >= 1
  {
    set id | id in db.rides && db.rides[id].circle == circle &&
      db.rides[id].departureDate >= now + RideBoard.LeadTime && db.rides[id].availableSeats >= 1
  }

  datatype RideAction = ListRides | CreateRide | UpdateRide | PartialUpdateRide | JoinRide

  datatype Permission = Authenticated | ActiveCircleMember | RideOwner | NotRideOwner

  /** `get_permissions`: every action needs an authenticated active member; edits add ownership of
      the ride and joining adds its opposite. */
  function RequiredPermissions(action: RideAction): (ps: set<Permission>)
    ensures Authenticated in ps && ActiveCircleMember in ps
    ensures RideOwner in ps <==> action == UpdateRide || action == PartialUpdateRide
    ensures NotRideOwner in ps <==> action == JoinRide
  {
    var base := {Authenticated, ActiveCircleMember};
    match action
    case UpdateRide | PartialUpdateRide => base + {RideOwner}
    case JoinRide => base + {NotRideOwner}
    case ListRides | CreateRide => base
  }

  /** Whether one permission lets `user` act, given the ride the action targets (None for the
      list and create actions, which have no object). */
  predicate Grants(db: Db, circle: Id, user: UserId, ride: Option<Ride>, p: Permission) {
    match p
    case Authenticated => user in db.profiles
    case ActiveCircleMember => IsActiveMember(db, user, circle)
    case RideOwner => ride.Some? ==> ride.value.offeredBy == user
    case NotRideOwner => ride.Some? ==> ride.value.offeredBy != user
  }

  predicate Allowed(db: Db, circle: Id, user: UserId, action: RideAction, ride: Option<Ride>) {
    forall p :: p in RequiredPermissions(action) ==> Grants(db, circle, user, ride, p)
  }

  /** The permission checks made before the ride is looked up are implied by those made on it. */
  lemma ObjectCheckRefinesViewCheck(db: Db, circle: Id, user: UserId, action: RideAction, r: Ride)
    ensures Allowed(db, circle, user, action, Some(r)) ==> Allowed(db, circle, user, action, None)
  {
  }

  /** Every action demands an active membership in the circle of the view. */
  lemma EveryActionNeedsActiveMembership(db: Db, circle: Id, user: UserId, action: RideAction, ride: Option<Ride>)
    requires Allowed(db, circle, user, action, ride)
    ensures IsActiveMember(db, user, circle) && user in db.profiles
  {
    assert ActiveCircleMember in RequiredPermissions(action);
    assert Authenticated in RequiredPermissions(action);
  }

  /** Editing a ride is allowed exactly to its offerer, when an active member. */
  lemma EditRequiresOwner(db: Db, circle: Id, user: UserId, action: RideAction, r: Ride)
    requires action == UpdateRide || action == PartialUpdateRide
    ensures Allowed(db, circle, user, action, Some(r)) <==>
      user in db.profiles && IsActiveMember(db, user, circle) && r.offeredBy == user
  {
    assert RideOwner in RequiredPermissions(action);
    assert Authenticated in RequiredPermissions(action);
    assert ActiveCircleMember in RequiredPermissions(action);
  }

  /** Joining is allowed exactly to an active member who does not offer the ride; in particular an
      offerer can never join its own ride. */
  lemma JoinRequiresNonOwner(db: Db, circle: Id, user: UserId, r: Ride)
    ensures Allowed(db, circle, user, JoinRide, Some(r)) <==>
      user in db.profiles && IsActiveMember(db, user, circle) && r.offeredBy != user
    ensures !Allowed(db, circle, r.offeredBy, JoinRide, Some(r))
  {
    assert NotRideOwner in RequiredPermissions(JoinRide);
    assert Authenticated in RequiredPermissions(JoinRide);
    assert ActiveCircleMember in RequiredPermissions(JoinRide);
  }

  /** A ride that the view shows has not departed and has a seat, so the join check can only
      refuse it for the passenger's own reasons. */
  lemma VisibleRidesAreJoinable(db: Db, circle: Id, ride: Id, passenger: UserId, now: Time)
    requires OneMembershipPerUser(db) && ride in VisibleRides(db, circle, now)
    requires passenger in db.profiles && IsActiveMember(db, passenger, circle)
    ensures RideBoard.CheckJoin(db, circle, ride, passenger, now).Success? <==> !RideBoard.OnSomeRide(db, passenger)
  {
  }

  /** A ride that the view finds is never locked against edits: the lock in the serializer cannot
      fire behind this view. */
  lemma VisibleRidesAreEditable(db: Db, circle: Id, ride: Id, edit: RideBoard.RideEdit, now: Time)
    requires ride in VisibleRides(db, circle, now)
    ensures RideBoard.Edit(db.rides[ride], edit, now).Success?
  {
  }

  /** A freshly offered ride is listed at the instant it was offered. */
  lemma CreatedRideIsVisible(db: Db, circle: Id, user: UserId, input: RideBoard.RideInput, now: Time)
    requires Valid(db)
    requires RideBoard.CheckCreate(db, circle, user, input, now).Success?
    ensures var member := RideBoard.CheckCreate(db, circle, user, input, now).value;
      circle in db.circles && user in db.profiles &&
      db.nextId in VisibleRides(RideBoard.CommitCreate(db, circle, user, member, input), circle, now)
  {
    var member := RideBoard.CheckCreate(db, circle, user, input, now).value;
    RideBoard.CreatePreservesValid(db, circle, user, member, input);
  }
}
