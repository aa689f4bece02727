/** Rows of the carpool-circle service and the store that holds them.

    Every table is a map from a surrogate id to a record, and records refer to each other by id
    only.  All tables draw their ids from one increasing sequence, `nextId`.  A user is known by
    id; its profile row is keyed by the same id, so "the user exists" means "the user has a
    profile".  Timestamps are whole seconds. */
module Tables {

  datatype Option<+T> = None | Some(value: T)

  datatype Result<+T, +E> = Success(value: T) | Failure(error: E)

  type Id = nat
  type UserId = nat
  type Time = int

  /** A membership-gated group that hosts rides. */
  datatype Circle = Circle(
    slugName: string,
    name: string,
    about: string,
    isLimited: bool,
    membersLimit: nat,
    ridesOffered: nat,
    ridesTaken: nat)

  /** A user's standing within one circle. */
  datatype Membership = Membership(
    user: UserId,
    profile: UserId,
    circle: Id,
    invitedBy: Option<UserId>,
    isAdmin: bool,
    isActive: bool,
    usedInvitations: int,
    remainingInvitations: int,
    ridesOffered: nat,
    ridesTaken: nat)

  /** A single-use code that lets one user into one circle. */
  datatype Invitation = Invitation(
    code: string,
    circle: Id,
    issuedBy: UserId,
    usedBy: Option<UserId>,
    used: bool,
    usedAt: Option<Time>)

  /** A trip offered inside a circle; `rating` stays None until the first rating arrives. */
  datatype Ride = Ride(
    circle: Id,
    offeredBy: UserId,
    departureDate: Time,
    arrivalDate: Time,
    availableSeats: nat,
    passengers: set<UserId>,
    departureLocation: string,
    arrivalLocation: string,
    comments: string,
    rating: Option<real>,
    isActive: bool)

  /** A passenger's score for a ride, received by the ride's offerer. */
  datatype Rating = Rating(
    circle: Id,
    ride: Id,
    ratingUser: UserId,
    ratedUser: UserId,
    comments: string,
    value: int)

  datatype Profile = Profile(reputation: real, ridesTaken: nat, ridesOffered: nat)

  /** The whole store at one instant. */
  datatype Db = Db(
    circles: map<Id, Circle>,
    memberships: map<Id, Membership>,
    invitations: map<Id, Invitation>,
    rides: map<Id, Ride>,
    ratings: map<Id, Rating>,
    profiles: map<UserId, Profile>,
    nextId: nat)

  /** Field defaults of a membership row created without explicit values. */
  const DefaultRemainingInvitations: int := 0

  // ---------------------------------------------------------------------------
  // Store invariant: the foreign keys resolve and the uniqueness constraints hold.

  ghost predicate IdsBelowNext(db: Db) {
    && (forall id :: id in db.circles ==> id < db.nextId)
    && (forall id :: id in db.memberships ==> id < db.nextId)
    && (forall id :: id in db.invitations ==> id < db.nextId)
    && (forall id :: id in db.rides ==> id < db.nextId)
    && (forall id :: id in db.ratings ==> id < db.nextId)
  }

  ghost predicate MembershipsLinked(db: Db) {
    forall id :: id in db.memberships ==>
      var m := db.memberships[id];
      m.circle in db.circles && m.user in db.profiles && m.profile == m.user
  }

  /** At most one membership row per (user, circle), active or not. */
  ghost predicate OneMembershipPerUser(db: Db) {
    forall i, j ::
      (i in db.memberships && j in db.memberships &&
       db.memberships[i].user == db.memberships[j].user &&
       db.memberships[i].circle == db.memberships[j].circle) ==> i == j
  }

  predicate HasMembership(db: Db, user: UserId, circle: Id) {
    exists id :: id in db.memberships && db.memberships[id].user == user && db.memberships[id].circle == circle
  }

  /** Every invitation lives in a circle, was issued by a member of it, and names a user only once used. */
  ghost predicate InvitationsLinked(db: Db) {
    forall id :: id in db.invitations ==>
      var inv := db.invitations[id];
      && inv.circle in db.circles
      && HasMembership(db, inv.issuedBy, inv.circle)
      && (!inv.used ==> inv.usedBy == None)
  }

  /** No two invitations of one circle share a code. */
  ghost predicate CodesUniqueInCircle(db: Db) {
    forall i, j ::
      (i in db.invitations && j in db.invitations &&
       db.invitations[i].circle == db.invitations[j].circle &&
       db.invitations[i].code == db.invitations[j].code) ==> i == j
  }

  ghost predicate RidesLinked(db: Db) {
    forall id :: id in db.rides ==>
      var r := db.rides[id];
      r.circle in db.circles && r.offeredBy in db.profiles && r.offeredBy !in r.passengers
  }

  ghost predicate RatingsLinked(db: Db) {
    forall id :: id in db.ratings ==>
      var r := db.ratings[id];
      r.circle in db.circles && r.ride in db.rides && r.ratedUser in db.profiles && 1 <= r.value <= 5
  }

  predicate IsUnusedFrom(inv: Invitation, circle: Id, issuer: UserId) {
    inv.circle == circle && inv.issuedBy == issuer && !inv.used
  }

  /** The unused invitations `issuer` has issued in `circle`. */
  function UnusedIn(invitations: map<Id, Invitation>, circle: Id, issuer: UserId): set<Id> {
    set id | id in invitations && IsUnusedFrom(invitations[id], circle, issuer)
  }

  /** No member holds more unused codes of its circle than its `remaining_invitations`; in
      particular that count is never negative. */
  ghost predicate QuotaRespected(db: Db) {
    forall id :: id in db.memberships ==>
      |UnusedIn(db.invitations, db.memberships[id].circle, db.memberships[id].user)| <=
        db.memberships[id].remainingInvitations
  }

  ghost predicate Valid(db: Db) {
    && IdsBelowNext(db)
    && MembershipsLinked(db)
    && OneMembershipPerUser(db)
    && InvitationsLinked(db)
    && CodesUniqueInCircle(db)
    && RidesLinked(db)
    && RatingsLinked(db)
    && QuotaRespected(db)
  }

  // ---------------------------------------------------------------------------
  // Lookups shared by several components.

  /** The membership row of `user` in `circle`, active or not (`Membership.objects.get(user=, circle=)`). */
  function MembershipOf(db: Db, user: UserId, circle: Id): (r: Option<Id>)
    requires OneMembershipPerUser(db)
    ensures r.Some? <==> HasMembership(db, user, circle)
    ensures r.Some? ==>
      r.value in db.memberships && db.memberships[r.value].user == user && db.memberships[r.value].circle == circle
  {
    if HasMembership(db, user, circle) then
      var id :| id in db.memberships && db.memberships[id].user == user && db.memberships[id].circle == circle;
      Some(id)
    else
      None
  }

  predicate IsActiveMember(db: Db, user: UserId, circle: Id) {
    exists id :: id in db.memberships && db.memberships[id].user == user &&
      db.memberships[id].circle == circle && db.memberships[id].isActive
  }

  /** The active membership of `user` in `circle` (`IsActiveCircleMember`, and the lookups filtered on
      `is_active=True`). */
  function ActiveMembershipOf(db: Db, user: UserId, circle: Id): (r: Option<Id>)
    requires OneMembershipPerUser(db)
    ensures r.Some? <==> IsActiveMember(db, user, circle)
    ensures r.Some? ==>
      && r.value in db.memberships && db.memberships[r.value].isActive
      && db.memberships[r.value].user == user && db.memberships[r.value].circle == circle
  {
    match MembershipOf(db, user, circle)
    case Some(id) => if db.memberships[id].isActive then Some(id) else None
    case None => None
  }

  /** Ids of the membership rows of a circle, whatever their state (`circle.members`). */
  function MembersOf(db: Db, circle: Id): set<Id> {
    set id | id in db.memberships && db.memberships[id].circle == circle
  }

  function MemberCount(db: Db, circle: Id): nat {
    |MembersOf(db, circle)|
  }

  // ---------------------------------------------------------------------------
  // Facts about the invariant that the operations share.

  /** Rewriting rows without touching their keys or links keeps the invariant, as long as no
      offerer becomes a passenger of its own ride. */
  lemma ValidUnderRelink(db: Db, db': Db)
    requires Valid(db)
    requires db'.nextId == db.nextId && db'.circles.Keys == db.circles.Keys && db'.profiles.Keys == db.profiles.Keys
    requires db'.memberships.Keys == db.memberships.Keys
    requires forall id :: id in db.memberships ==>
      db'.memberships[id].user == db.memberships[id].user &&
      db'.memberships[id].circle == db.memberships[id].circle &&
      db'.memberships[id].profile == db.memberships[id].profile &&
      db'.memberships[id].remainingInvitations == db.memberships[id].remainingInvitations
    requires db'.invitations == db.invitations && db'.ratings == db.ratings
    requires db'.rides.Keys == db.rides.Keys
    requires forall id :: id in db.rides ==>
      db'.rides[id].circle == db.rides[id].circle && db'.rides[id].offeredBy == db.rides[id].offeredBy &&
      db'.rides[id].offeredBy !in db'.rides[id].passengers
    ensures Valid(db')
  {
    forall id | id in db'.invitations
      ensures HasMembership(db', db'.invitations[id].issuedBy, db'.invitations[id].circle)
    {
      var inv := db.invitations[id];
      var m :| m in db.memberships && db.memberships[m].user == inv.issuedBy && db.memberships[m].circle == inv.circle;
      assert db'.memberships[m].user == inv.issuedBy && db'.memberships[m].circle == inv.circle;
    }
  }

  /** The number of members of a circle depends only on which rows belong to it. */
  lemma MemberCountUnchanged(db: Db, db': Db, circle: Id)
    requires db'.memberships.Keys == db.memberships.Keys
    requires forall id :: id in db.memberships ==> db'.memberships[id].circle == db.memberships[id].circle
    ensures MembersOf(db', circle) == MembersOf(db, circle)
    ensures MemberCount(db', circle) == MemberCount(db, circle)
  {
  }
}
