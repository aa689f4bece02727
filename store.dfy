/** The service's tables as one mutable store, with one method per request that changes them.
    Each method runs the checks of its view and serializer, then performs the writes one by one
    in the order the source does; its postcondition ties the new tables to the pure step that
    specifies the operation, and the store invariant is kept by every method. */
module Store {
  import opened Tables
  import CircleLimits
  import Admission
  import MembershipRegistry
  import CircleCreation
  import RideBoard
  import RideViews
  import RatingAggregation
  import Housekeeping

  /** Why a ride request fails: a permission refused, the ride not found among the visible
      rides of the circle, or a serializer check. */
  datatype RideFailure = Forbidden | NoSuchRide | Rejected(reason: RideBoard.RideError)

  /** The invitation breakdown of a member: the members it brought in and its unused codes. */
  datatype Breakdown = Breakdown(used: set<Id>, unused: set<string>)

  class Database {
    var circles: map<Id, Circle>
    var memberships: map<Id, Membership>
    var invitations: map<Id, Invitation>
    var rides: map<Id, Ride>
    var ratings: map<Id, Rating>
    var profiles: map<UserId, Profile>
    var nextId: nat

    /** The current contents of every table. */
    function Snapshot(): Db
      reads this
    {
      Db(circles, memberships, invitations, rides, ratings, profiles, nextId)
    }

    ghost predicate Valid()
      reads this
    {
      Tables.Valid(Snapshot())
    }

    /** An empty service whose users are those with the given profiles. */
    constructor (users: map<UserId, Profile>)
      ensures Valid()
      ensures Snapshot() == Db(map[], map[], map[], map[], map[], users, 0)
    {
      circles := map[];
      memberships := map[];
      invitations := map[];
      rides := map[];
      ratings := map[];
      profiles := users;
      nextId := 0;
    }

    // -------------------------------------------------------------------------
    // Memberships.

    /** Redeeming an invitation code (`MembershipViewSet.create` with `AddMemberSerializer`):
        on success the result is the id of the new membership. */
    method AddMember(circle: Id, user: UserId, code: string, now: Time) returns (r: Result<Id, Admission.AdmissionError>)
      requires Valid() && circle in circles && user in profiles
      modifies this
      ensures Valid()
      ensures var check := Admission.CheckAdmission(old(Snapshot()), circle, user, code);
        && (r.Success? <==> check.Success?)
        && (r.Failure? ==> r.error == check.error && Snapshot() == old(Snapshot()))
        && (r.Success? ==>
              && r.value == old(nextId)
              && Snapshot() == Admission.CommitAdmission(old(Snapshot()), circle, user, check.value, now))
    {
      var db := Snapshot();
      var check := Admission.CheckAdmission(db, circle, user, code);
      if check.Failure? {
        return Failure(check.error);
      }
      var inv := check.value;
      assert !HasMembership(db, user, circle);
      Admission.AdmissionPreservesValid(db, circle, user, inv, now);
      var member := nextId;
      RecordAdmission(circle, user, inv, now);
      r := Success(member);
    }

    /** The writes of a validated redemption, in the order of the source: the new membership,
        the consumed invitation, then the issuer's counters. */
    method RecordAdmission(circle: Id, user: UserId, inv: Id, now: Time)
      requires IdsBelowNext(Snapshot()) && OneMembershipPerUser(Snapshot()) && InvitationsLinked(Snapshot())
      requires inv in invitations && invitations[inv].circle == circle && !invitations[inv].used
      requires user in profiles && !HasMembership(Snapshot(), user, circle)
      modifies this
      ensures Snapshot() == Admission.CommitAdmission(old(Snapshot()), circle, user, inv, now)
    {
      var db := Snapshot();
      var issuer := Admission.IssuerRow(db, inv);
      var member := nextId;
      memberships := memberships[member := Admission.NewMember(user, circle, invitations[inv].issuedBy)];
      nextId := nextId + 1;
      invitations := invitations[inv := Admission.Consumed(invitations[inv], user, now)];
      // The source increments a misspelt attribute here.  Reading it raises AttributeError, so as
      // written the request fails at this point: the new membership and the consumed invitation
      // are already saved, and neither of the issuer's counters changes.  The intended update of
      // both counters is modelled.
      memberships := memberships[issuer := Admission.Credited(memberships[issuer])];
      ghost var after := Admission.CommitAdmission(db, circle, user, inv, now);
      assert memberships == after.memberships;
      assert invitations == after.invitations;
    }

    /** Removing a member (`destroy`): the requester must be an active member, the member is
        looked up among the active ones, and the row is deactivated, not deleted.  On success the
        result is the id of the deactivated row. */
    method RemoveMember(circle: Id, requester: UserId, member: UserId) returns (r: Result<Id, MembershipRegistry.RegistryError>)
      requires Valid() && circle in circles
      modifies this
      ensures Valid()
      ensures var before := old(Snapshot());
        && (r.Success? <==> IsActiveMember(before, requester, circle) && IsActiveMember(before, member, circle))
        && (!IsActiveMember(before, requester, circle) ==> r == Failure(MembershipRegistry.NotActiveMember))
        && (r.Failure? ==> Snapshot() == before)
        && (r.Success? ==>
              && r.value == ActiveMembershipOf(before, member, circle).value
              && Snapshot() == MembershipRegistry.Deactivated(before, r.value))
    {
      var db := Snapshot();
      if ActiveMembershipOf(db, requester, circle).None? {
        return Failure(MembershipRegistry.NotActiveMember);
      }
      var found := ActiveMembershipOf(db, member, circle);
      if found.None? {
        return Failure(MembershipRegistry.NotFound);
      }
      var id := found.value;
      memberships := memberships[id := memberships[id].(isActive := false)];
      MembershipRegistry.RemovedMemberNotFound(db, id);
      r := Success(id);
    }

    /** The invitation breakdown of a member (`invitations`): only the member itself may ask.  The
        codes it still holds are topped up to its `remaining_invitations` with freshly generated
        ones; the result lists the active members it invited and every unused code.  The count
        compared with the quota is that of the requester's unused codes, as in the source; the
        two are the same member. */
    method MemberInvitations(circle: Id, requester: UserId, member: UserId) returns (r: Result<Breakdown, MembershipRegistry.RegistryError>)
      requires Valid() && circle in circles
      modifies this
      ensures Valid()
      ensures var before := old(Snapshot());
        && (r.Success? <==>
              IsActiveMember(before, requester, circle) && IsActiveMember(before, member, circle) && member == requester)
        && (r.Failure? ==> Snapshot() == before)
        && (r.Success? ==>
              var remaining := before.memberships[ActiveMembershipOf(before, member, circle).value].remainingInvitations;
              && MembershipRegistry.IssuedFresh(before, Snapshot(), circle, requester,
                   MembershipRegistry.Shortfall(before, circle, requester, remaining))
              && r.value.used == MembershipRegistry.InvitedMembers(before, circle, requester)
              && r.value.unused == MembershipRegistry.UnusedCodes(Snapshot(), circle, requester))
    {
      var db := Snapshot();
      if ActiveMembershipOf(db, requester, circle).None? {
        return Failure(MembershipRegistry.NotActiveMember);
      }
      var found := ActiveMembershipOf(db, member, circle);
      if found.None? {
        return Failure(MembershipRegistry.NotFound);
      }
      if member != requester {
        return Failure(MembershipRegistry.NotSelf);
      }
      var remaining := memberships[found.value].remainingInvitations;
      var used := MembershipRegistry.InvitedMembers(db, circle, requester);
      var k := MembershipRegistry.Shortfall(db, circle, requester, remaining);
      var unused := TopUp(circle, requester, found.value, k);
      r := Success(Breakdown(used, unused));
    }

    /** The top-up loop of `invitations`: issues `k` invitations of `issuer` in `circle`, each
        with a generated code fresh within the circle, and returns every unused code of the
        issuer.  The source collects the codes with `values_list` and appends to that query set,
        which has no `append`; the intended list of codes is modelled here. */
    method TopUp(circle: Id, issuer: UserId, member: Id, k: nat) returns (unused: set<string>)
      requires Valid() && circle in circles
      requires member in memberships && memberships[member].user == issuer && memberships[member].circle == circle
      requires k <= MembershipRegistry.Shortfall(Snapshot(), circle, issuer, memberships[member].remainingInvitations)
      modifies this
      ensures Valid()
      ensures MembershipRegistry.IssuedFresh(old(Snapshot()), Snapshot(), circle, issuer, k)
      ensures unused == MembershipRegistry.UnusedCodes(Snapshot(), circle, issuer)
    {
      var db := Snapshot();
      unused := MembershipRegistry.UnusedCodes(db, circle, issuer);
      MembershipRegistry.IssuedNothing(db, circle, issuer);
      var i := 0;
      while i < k
        invariant 0 <= i <= k
        invariant MembershipRegistry.IssuedFresh(db, Snapshot(), circle, issuer, i)
        invariant unused == MembershipRegistry.UnusedCodes(Snapshot(), circle, issuer)
      {
        ghost var mid := Snapshot();
        var code := IssueOne(circle, issuer);
        MembershipRegistry.IssueStep(db, mid, circle, issuer, i, code);
        unused := unused + {code};
        i := i + 1;
      }
      MembershipRegistry.IssuedFreshPreservesValid(db, Snapshot(), circle, issuer, member, k);
    }

    /** `Invitation.objects.create(issued_by=, circle=)`: stores one unused invitation whose code
        the generator picks fresh within the circle. */
    method IssueOne(circle: Id, issuer: UserId) returns (code: string)
      modifies this
      ensures code != [] && code !in MembershipRegistry.CodesIn(old(Snapshot()), circle)
      ensures Snapshot() == MembershipRegistry.Issue(old(Snapshot()), circle, issuer, code)
    {
      MembershipRegistry.FreshCodeExists(MembershipRegistry.CodesIn(Snapshot(), circle));
      code :| code !in MembershipRegistry.CodesIn(Snapshot(), circle) && code != [];
      invitations := invitations[nextId := Invitation(code, circle, issuer, None, false, None)];
      nextId := nextId + 1;
    }

    // -------------------------------------------------------------------------
    // Circles.

    /** Creating a circle (`CircleViewSet.create` through `CreateCircleUseCase.execute`): the
        payload is validated as a POST, then the circle and the owner's membership are written.
        On success the result is the id of the new circle. */
    method CreateCircle(input: CircleLimits.CircleInput, owner: UserId) returns (r: Result<Id, CircleLimits.LimitError>)
      requires Valid() && owner in profiles
      modifies this
      ensures Valid()
      ensures var check := CircleLimits.ValidateCircle(CircleLimits.Post, input.limits, None);
        && (r.Success? <==> check.Success?)
        && (r.Failure? ==> r.error == check.error && Snapshot() == old(Snapshot()))
        && (r.Success? ==>
              && r.value == old(nextId)
              && Snapshot() == CircleCreation.CommitCreateCircle(old(Snapshot()), input, check.value, owner))
    {
      var check := CircleLimits.ValidateCircle(CircleLimits.Post, input.limits, None);
      if check.Failure? {
        return Failure(check.error);
      }
      CircleCreation.CreateCirclePreservesValid(Snapshot(), input, check.value, owner);
      // `execute` runs the base `validation`, which does nothing, and then `use_case`.
      var circle := nextId;
      RecordCircle(input, check.value, owner);
      r := Success(circle);
    }

    /** The writes of `use_case`: the circle row, then the owner's membership. */
    method RecordCircle(input: CircleLimits.CircleInput, attrs: CircleLimits.LimitInput, owner: UserId)
      requires CircleLimits.InRange(attrs.membersLimit)
      modifies this
      ensures Snapshot() == CircleCreation.CommitCreateCircle(old(Snapshot()), input, attrs, owner)
    {
      var circle := nextId;
      circles := circles[circle := CircleCreation.NewCircle(input, attrs)];
      memberships := memberships[circle + 1 := CircleCreation.OwnerMembership(owner, circle)];
      nextId := nextId + 2;
    }

    // -------------------------------------------------------------------------
    // Rides.

    /** Offering a ride in a circle (`RideViewSet.create` with `CreateRideSerializer`).  On
        success the result is the id of the new ride. */
    method CreateRide(circle: Id, requester: UserId, input: RideBoard.RideInput, now: Time) returns (r: Result<Id, RideFailure>)
      requires Valid() && circle in circles
      modifies this
      ensures Valid()
      ensures var before := old(Snapshot());
        var check := RideBoard.CheckCreate(before, circle, requester, input, now);
        && (r.Success? <==> RideViews.Allowed(before, circle, requester, RideViews.CreateRide, None) && check.Success?)
        && (!RideViews.Allowed(before, circle, requester, RideViews.CreateRide, None) ==> r == Failure(Forbidden))
        && (r.Failure? ==> Snapshot() == before)
        && (r.Success? ==>
              && r.value == before.nextId && requester in before.profiles
              && Snapshot() == RideBoard.CommitCreate(before, circle, requester, check.value, input))
    {
      var db := Snapshot();
      if !RideViews.Allowed(db, circle, requester, RideViews.CreateRide, None) {
        return Failure(Forbidden);
      }
      var check := RideBoard.CheckCreate(db, circle, requester, input, now);
      if check.Failure? {
        return Failure(Rejected(check.error));
      }
      var member := check.value;
      RideBoard.CreatePreservesValid(db, circle, requester, member, input);
      var ride := nextId;
      rides := rides[ride := RideBoard.NewRide(circle, requester, input)];
      nextId := nextId + 1;
      circles := circles[circle := circles[circle].(ridesOffered := circles[circle].ridesOffered + 1)];
      memberships := memberships[member := memberships[member].(ridesOffered := memberships[member].ridesOffered + 1)];
      profiles := profiles[requester := profiles[requester].(ridesOffered := profiles[requester].ridesOffered + 1)];
      ghost var after := RideBoard.CommitCreate(db, circle, requester, member, input);
      assert rides == after.rides && circles == after.circles;
      assert memberships == after.memberships && profiles == after.profiles;
      assert Snapshot() == after;
      r := Success(ride);
    }

    /** Joining a ride (the `join` action with `JoinRideSerializer`): the requester must be an
        active member, the ride must be visible in the circle and offered by someone else, and
        the serializer checks must pass. */
    method JoinRide(circle: Id, requester: UserId, ride: Id, now: Time) returns (r: Result<Id, RideFailure>)
      requires Valid() && circle in circles
      modifies this
      ensures Valid()
      ensures var before := old(Snapshot());
        && (r.Success? <==>
              && ride in RideViews.VisibleRides(before, circle, now)
              && RideViews.Allowed(before, circle, requester, RideViews.JoinRide, Some(before.rides[ride]))
              && RideBoard.CheckJoin(before, circle, ride, requester, now).Success?)
        && (r.Failure? ==> Snapshot() == before)
        && (r.Success? ==>
              && r.value == ride && requester in before.profiles
              && Snapshot() == RideBoard.CommitJoin(before, circle, ride, requester,
                   RideBoard.CheckJoin(before, circle, ride, requester, now).value))
    {
      var db := Snapshot();
      if !RideViews.Allowed(db, circle, requester, RideViews.JoinRide, None) {
        // The view-level check fails, so the object-level one would too.
        if ride in rides {
          RideViews.ObjectCheckRefinesViewCheck(db, circle, requester, RideViews.JoinRide, rides[ride]);
        }
        return Failure(Forbidden);
      }
      if ride !in RideViews.VisibleRides(db, circle, now) {
        return Failure(NoSuchRide);
      }
      if !RideViews.Allowed(db, circle, requester, RideViews.JoinRide, Some(rides[ride])) {
        return Failure(Forbidden);
      }
      var check := RideBoard.CheckJoin(db, circle, ride, requester, now);
      if check.Failure? {
        return Failure(Rejected(check.error));
      }
      var member := check.value;
      RideViews.JoinRequiresNonOwner(db, circle, requester, rides[ride]);
      RideBoard.JoinPreservesValid(db, circle, ride, requester, member);
      RecordJoin(circle, ride, requester, member);
      r := Success(ride);
    }

    /** The writes of a validated join, in the order of the source: the ride, then the ride
        counters of the passenger's profile, its membership and the circle.  The source
        decrements a misspelt seat attribute; reading it raises AttributeError, so as written the
        request fails once the passenger is added, with no seat or counter changed.  The intended
        updates are modelled. */
    method RecordJoin(circle: Id, ride: Id, passenger: UserId, member: Id)
      requires circle in circles && ride in rides && passenger in profiles && member in memberships
      requires rides[ride].availableSeats >= 1
      modifies this
      ensures Snapshot() == RideBoard.CommitJoin(old(Snapshot()), circle, ride, passenger, member)
    {
      ghost var db := Snapshot();
      rides := rides[ride := rides[ride].(passengers := rides[ride].passengers + {passenger},
                                          availableSeats := rides[ride].availableSeats - 1)];
      profiles := profiles[passenger := profiles[passenger].(ridesTaken := profiles[passenger].ridesTaken + 1)];
      memberships := memberships[member := memberships[member].(ridesTaken := memberships[member].ridesTaken + 1)];
      circles := circles[circle := circles[circle].(ridesTaken := circles[circle].ridesTaken + 1)];
      ghost var after := RideBoard.CommitJoin(db, circle, ride, passenger, member);
      assert rides == after.rides && circles == after.circles;
      assert memberships == after.memberships && profiles == after.profiles;
    }

    /** Editing a ride (`partial_update` with `RideModelSerializer`): the requester must be an
        active member owning a ride visible in the circle, and the ride must not have departed. */
    method UpdateRide(circle: Id, requester: UserId, ride: Id, edit: RideBoard.RideEdit, now: Time) returns (r: Result<Id, RideFailure>)
      requires Valid() && circle in circles
      modifies this
      ensures Valid()
      ensures var before := old(Snapshot());
        && (r.Success? <==>
              && ride in RideViews.VisibleRides(before, circle, now)
              && RideViews.Allowed(before, circle, requester, RideViews.PartialUpdateRide, Some(before.rides[ride])))
        && (r.Failure? ==> Snapshot() == before)
        && (r.Success? ==>
              && r.value == ride
              && Snapshot() == before.(rides := before.rides[ride := RideBoard.Edit(before.rides[ride], edit, now).value]))
    {
      var db := Snapshot();
      if !RideViews.Allowed(db, circle, requester, RideViews.PartialUpdateRide, None) {
        // The view-level check fails, so the object-level one would too.
        if ride in rides {
          RideViews.ObjectCheckRefinesViewCheck(db, circle, requester, RideViews.PartialUpdateRide, rides[ride]);
        }
        return Failure(Forbidden);
      }
      if ride !in RideViews.VisibleRides(db, circle, now) {
        return Failure(NoSuchRide);
      }
      if !RideViews.Allowed(db, circle, requester, RideViews.PartialUpdateRide, Some(rides[ride])) {
        return Failure(Forbidden);
      }
      // A visible ride departs at least ten minutes from now, so the lock in the serializer
      // never fires behind this view.
      RideViews.VisibleRidesAreEditable(db, circle, ride, edit, now);
      var edited := RideBoard.Edit(rides[ride], edit, now).value;
      RideBoard.EditPreservesValid(db, ride, edit, now);
      rides := rides[ride := edited];
      r := Success(ride);
    }

    /** Rating a ride (`CreateRideRatingSerializer`): the rating row is stored, then the ride's
        mean and the offerer's reputation are recomputed.  On success the result is the id of
        the new rating. */
    method RateRide(ride: Id, requester: UserId, value: int, comments: string) returns (r: Result<Id, RatingAggregation.RatingError>)
      requires Valid() && ride in rides
      modifies this
      ensures Valid()
      ensures var before := old(Snapshot());
        var check := RatingAggregation.CheckRating(before, ride, requester, value);
        && (r.Success? <==> check.Success?)
        && (r.Failure? ==> r.error == check.error && Snapshot() == before)
        && (r.Success? ==>
              && r.value == before.nextId && before.rides[ride].offeredBy in before.profiles
              && before.nextId !in before.ratings
              && Snapshot() == RatingAggregation.CommitRating(before, ride, requester, value, comments))
    {
      var db := Snapshot();
      var check := RatingAggregation.CheckRating(db, ride, requester, value);
      if check.Failure? {
        return Failure(check.error);
      }
      RatingAggregation.RatingPreservesValid(db, ride, requester, value, comments);
      var id := nextId;
      RecordRating(ride, requester, value, comments);
      r := Success(id);
    }

    /** The writes of a validated rating, in the order of the source: the rating row, then the
        ride's mean, then the offerer's reputation. */
    method RecordRating(ride: Id, requester: UserId, value: int, comments: string)
      requires ride in rides && rides[ride].offeredBy in profiles && nextId !in ratings
      modifies this
      ensures Snapshot() == RatingAggregation.CommitRating(old(Snapshot()), ride, requester, value, comments)
    {
      var db := Snapshot();
      var id := nextId;
      var offerer := rides[ride].offeredBy;
      ratings := ratings[id := RatingAggregation.NewRating(db, ride, requester, value, comments)];
      nextId := nextId + 1;
      RatingAggregation.InsertCounts(db.ratings, RatingAggregation.OfRide(ride), nextId, id, ratings[id]);
      RatingAggregation.InsertCounts(db.ratings, RatingAggregation.OfRatedUser(offerer), nextId, id, ratings[id]);
      var rideMean := RatingAggregation.Mean(ratings, RatingAggregation.OfRide(ride), nextId);
      rides := rides[ride := rides[ride].(rating := Some(rideMean))];
      var reputation := RatingAggregation.Mean(ratings, RatingAggregation.OfRatedUser(offerer), nextId);
      profiles := profiles[offerer := profiles[offerer].(reputation := reputation)];
      ghost var after := RatingAggregation.CommitRating(db, ride, requester, value, comments);
      assert ratings == after.ratings && rides == after.rides && profiles == after.profiles;
    }

    /** The periodic job: active rides arriving within the next five seconds are switched off. */
    method DisableFinishedRides(now: Time)
      requires Valid()
      modifies this
      ensures Valid()
      ensures Snapshot() == old(Snapshot()).(rides := Housekeeping.DisableFinished(old(rides), now))
    {
      Housekeeping.DisableFinishedPreservesValid(Snapshot(), now);
      rides := Housekeeping.DisableFinished(rides, now);
    }
  }
}
