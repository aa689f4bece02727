/** Redeeming an invitation code to join a circle (the add-member serializer).

    Validation reads the tables and, on success, hands the matched invitation to the commit step;
    the commit step creates the membership, consumes the invitation and credits its issuer. */
module Admission {
  import opened Tables

  const MinCodeLength: int := 10

  datatype AdmissionError = CodeTooShort | InvalidCode | AlreadyMember | CircleFull

  predicate Redeemable(inv: Invitation, circle: Id, code: string) {
    inv.code == code && inv.circle == circle && !inv.used
  }

  /** `validate_user`: the user may hold no membership row in the circle, not even an inactive one. */
  function ValidateUser(db: Db, circle: Id, user: UserId): (ok: bool)
    ensures ok <==> forall id :: id in db.memberships ==>
      !(db.memberships[id].user == user && db.memberships[id].circle == circle)
  {
    !HasMembership(db, user, circle)
  }

  /** The `min_length` bound of the code field, then `validate_invitation_code`: an unused
      invitation with exactly this code must exist in this circle. */
  function ValidateInvitationCode(db: Db, circle: Id, code: string): (r: Result<Id, AdmissionError>)
    requires CodesUniqueInCircle(db)
    ensures |code| < MinCodeLength ==> r == Failure(CodeTooShort)
    ensures r.Success? ==> r.value in db.invitations && Redeemable(db.invitations[r.value], circle, code)
    ensures r.Failure? && |code| >= MinCodeLength ==>
      r.error == InvalidCode && forall id :: id in db.invitations ==> !Redeemable(db.invitations[id], circle, code)
  {
    if |code| < MinCodeLength then
      Failure(CodeTooShort)
    else if exists id :: id in db.invitations && Redeemable(db.invitations[id], circle, code) then
      // `Invitation.objects.get` finds exactly one row: codes are unique within a circle
      var id :| id in db.invitations && Redeemable(db.invitations[id], circle, code);
      Success(id)
    else
      Failure(InvalidCode)
  }

  /** `validate`: a limited circle admits no one once its member count reaches the limit.
      The source compares the unevaluated method `circle.members.count`; the count meant is the
      number of membership rows of the circle, active or not. */
  function HasRoom(db: Db, circle: Id): (ok: bool)
    requires circle in db.circles
    ensures !db.circles[circle].isLimited ==> ok
    ensures db.circles[circle].isLimited ==> (ok <==> |MembersOf(db, circle)| < db.circles[circle].membersLimit)
  {
    !(db.circles[circle].isLimited && MemberCount(db, circle) >= db.circles[circle].membersLimit)
  }

  /** Whole validation of a redemption.  The field checks (the code, then the user) come first,
      `validate` only when both pass; the first failing check is the one reported.  On success the
      matched invitation is returned for the commit step. */
  function CheckAdmission(db: Db, circle: Id, user: UserId, code: string): (r: Result<Id, AdmissionError>)
    requires CodesUniqueInCircle(db) && circle in db.circles
    ensures r.Success? <==>
      && |code| >= MinCodeLength
      && (exists id :: id in db.invitations && Redeemable(db.invitations[id], circle, code))
      && !HasMembership(db, user, circle)
      && HasRoom(db, circle)
    ensures r.Success? ==> r.value in db.invitations && Redeemable(db.invitations[r.value], circle, code)
    ensures r == Failure(CircleFull) ==> db.circles[circle].isLimited && MemberCount(db, circle) >= db.circles[circle].membersLimit
    ensures r == Failure(AlreadyMember) ==> HasMembership(db, user, circle)
  {
    match ValidateInvitationCode(db, circle, code)
    case Failure(e) => Failure(e)
    case Success(inv) =>
      if !ValidateUser(db, circle, user) then Failure(AlreadyMember)
      else if !HasRoom(db, circle) then Failure(CircleFull)
      else Success(inv)
  }

  /** The row `Membership.objects.create(user=, profile=, circle=, invited_by=)` inserts: the
      model's defaults fill the rest (active, not admin, no invitations used, no rides). */
  function NewMember(user: UserId, circle: Id, issuer: UserId): (m: Membership)
    ensures m.user == user && m.profile == user && m.circle == circle && m.invitedBy == Some(issuer)
    ensures m.isActive && !m.isAdmin && m.usedInvitations == 0 && m.ridesTaken == 0 && m.ridesOffered == 0
  {
    Membership(user, user, circle, Some(issuer), false, true, 0, DefaultRemainingInvitations, 0, 0)
  }

  /** The invitation as `create` leaves it. */
  function Consumed(inv: Invitation, user: UserId, now: Time): (used: Invitation)
    ensures used.used && used.usedBy == Some(user) && used.usedAt == Some(now)
    ensures used.code == inv.code && used.circle == inv.circle && used.issuedBy == inv.issuedBy
  {
    inv.(usedBy := Some(user), used := true, usedAt := Some(now))
  }

  /** The issuer's membership after it is credited with one used invitation.  The source spells
      the first counter `used_inviations`; reading that attribute raises AttributeError, so as
      written the request fails after the new membership and the consumed invitation are saved,
      and neither counter changes.  The counters meant are updated here. */
  function Credited(m: Membership): (c: Membership)
    ensures c.usedInvitations == m.usedInvitations + 1 && c.remainingInvitations == m.remainingInvitations - 1
    ensures c.user == m.user && c.circle == m.circle && c.isActive == m.isActive && c.isAdmin == m.isAdmin
  {
    m.(usedInvitations := m.usedInvitations + 1, remainingInvitations := m.remainingInvitations - 1)
  }

  /** The issuer's membership row in the circle of the invitation. */
  function IssuerRow(db: Db, inv: Id): (id: Id)
    requires OneMembershipPerUser(db) && InvitationsLinked(db) && inv in db.invitations
    ensures id in db.memberships
    ensures db.memberships[id].user == db.invitations[inv].issuedBy
    ensures db.memberships[id].circle == db.invitations[inv].circle
  {
    MembershipOf(db, db.invitations[inv].issuedBy, db.invitations[inv].circle).value
  }

  /** `create`: the writes of a validated redemption, as one all-or-nothing step. */
  function CommitAdmission(db: Db, circle: Id, user: UserId, inv: Id, now: Time): (after: Db)
    requires IdsBelowNext(db) && OneMembershipPerUser(db) && InvitationsLinked(db)
    requires inv in db.invitations && db.invitations[inv].circle == circle && !db.invitations[inv].used
    requires user in db.profiles && !HasMembership(db, user, circle)
    ensures after.nextId == db.nextId + 1
    ensures after.memberships.Keys == db.memberships.Keys + {db.nextId}
    ensures after.memberships[db.nextId] == NewMember(user, circle, db.invitations[inv].issuedBy)
    ensures after.invitations.Keys == db.invitations.Keys
    ensures after.invitations[inv] == Consumed(db.invitations[inv], user, now)
    ensures forall id :: id in db.invitations && id != inv ==> after.invitations[id] == db.invitations[id]
    ensures var issuer := IssuerRow(db, inv);
      && after.memberships[issuer] == Credited(db.memberships[issuer])
      && forall id :: id in db.memberships && id != issuer ==> after.memberships[id] == db.memberships[id]
    ensures after.circles == db.circles && after.rides == db.rides && after.ratings == db.ratings
    ensures after.profiles == db.profiles
  {
    var member := db.nextId;
    // The issuer is looked up after the insert in the source; the new row is the redeemer's, who
    // held no membership of the circle, so the lookup finds the same row either way.
    var issuer := IssuerRow(db, inv);
    db.(
      memberships := db.memberships[member := NewMember(user, circle, db.invitations[inv].issuedBy)]
                                   [issuer := Credited(db.memberships[issuer])],
      invitations := db.invitations[inv := Consumed(db.invitations[inv], user, now)],
      nextId := db.nextId + 1)
  }

  // ---------------------------------------------------------------------------
  // Properties of a redemption.

  /** A redemption keeps the store invariant: the new row is the only membership of its user in
      the circle, and every invitation still has an issuing member. */
  lemma AdmissionPreservesValid(db: Db, circle: Id, user: UserId, inv: Id, now: Time)
    requires Valid(db)
    requires inv in db.invitations && db.invitations[inv].circle == circle && !db.invitations[inv].used
    requires user in db.profiles && !HasMembership(db, user, circle)
    ensures Valid(CommitAdmission(db, circle, user, inv, now))
  {
    AdmissionKeepsLinks(db, circle, user, inv, now);
    AdmissionKeepsIssuers(db, circle, user, inv, now);
    AdmissionKeepsOneMembership(db, circle, user, inv, now);
    AdmissionKeepsQuota(db, circle, user, inv, now);
  }

  lemma AdmissionKeepsLinks(db: Db, circle: Id, user: UserId, inv: Id, now: Time)
    requires IdsBelowNext(db) && MembershipsLinked(db) && OneMembershipPerUser(db) && InvitationsLinked(db)
    requires CodesUniqueInCircle(db) && RidesLinked(db) && RatingsLinked(db)
    requires inv in db.invitations && db.invitations[inv].circle == circle && !db.invitations[inv].used
    requires user in db.profiles && !HasMembership(db, user, circle)
    ensures var after := CommitAdmission(db, circle, user, inv, now);
      && IdsBelowNext(after) && MembershipsLinked(after) && CodesUniqueInCircle(after)
      && RidesLinked(after) && RatingsLinked(after)
  {
    AdmissionKeepsCodes(db, circle, user, inv, now);
  }

  /** Consuming an invitation keeps its code, so codes stay unique within each circle. */
  lemma {:induction false} AdmissionKeepsCodes(db: Db, circle: Id, user: UserId, inv: Id, now: Time)
    requires IdsBelowNext(db) && OneMembershipPerUser(db) && InvitationsLinked(db) && CodesUniqueInCircle(db)
    requires inv in db.invitations && db.invitations[inv].circle == circle && !db.invitations[inv].used
    requires user in db.profiles && !HasMembership(db, user, circle)
    ensures CodesUniqueInCircle(CommitAdmission(db, circle, user, inv, now))
  {
    var after := CommitAdmission(db, circle, user, inv, now);
    forall i, j | i in after.invitations && j in after.invitations &&
      after.invitations[i].circle == after.invitations[j].circle &&
      after.invitations[i].code == after.invitations[j].code
      ensures i == j
    {
      assert after.invitations[i].circle == db.invitations[i].circle && after.invitations[i].code == db.invitations[i].code;
      assert after.invitations[j].circle == db.invitations[j].circle && after.invitations[j].code == db.invitations[j].code;
    }
  }

  lemma {:induction false} AdmissionKeepsIssuers(db: Db, circle: Id, user: UserId, inv: Id, now: Time)
    requires IdsBelowNext(db) && OneMembershipPerUser(db) && InvitationsLinked(db)
    requires inv in db.invitations && db.invitations[inv].circle == circle && !db.invitations[inv].used
    requires user in db.profiles && !HasMembership(db, user, circle)
    ensures InvitationsLinked(CommitAdmission(db, circle, user, inv, now))
  {
    var after := CommitAdmission(db, circle, user, inv, now);
    forall id | id in after.invitations
      ensures HasMembership(after, after.invitations[id].issuedBy, after.invitations[id].circle)
    {
      var i := db.invitations[id];
      var m :| m in db.memberships && db.memberships[m].user == i.issuedBy && db.memberships[m].circle == i.circle;
      assert after.memberships[m].user == i.issuedBy && after.memberships[m].circle == i.circle;
    }
  }

  lemma {:induction false} AdmissionKeepsOneMembership(db: Db, circle: Id, user: UserId, inv: Id, now: Time)
    requires IdsBelowNext(db) && OneMembershipPerUser(db) && InvitationsLinked(db)
    requires inv in db.invitations && db.invitations[inv].circle == circle && !db.invitations[inv].used
    requires user in db.profiles && !HasMembership(db, user, circle)
    ensures OneMembershipPerUser(CommitAdmission(db, circle, user, inv, now))
  {
    var after := CommitAdmission(db, circle, user, inv, now);
    forall i, j | i in after.memberships && j in after.memberships &&
      after.memberships[i].user == after.memberships[j].user &&
      after.memberships[i].circle == after.memberships[j].circle
      ensures i == j
    {
      if i != db.nextId && j != db.nextId {
        assert after.memberships[i].user == db.memberships[i].user && after.memberships[i].circle == db.memberships[i].circle;
        assert after.memberships[j].user == db.memberships[j].user && after.memberships[j].circle == db.memberships[j].circle;
      }
    }
  }

  /** The redeemer held no membership of the circle, so it holds no codes of it either. */
  lemma NoCodesWithoutMembership(db: Db, circle: Id, user: UserId)
    requires InvitationsLinked(db) && !HasMembership(db, user, circle)
    ensures UnusedIn(db.invitations, circle, user) == {}
  {
  }

  /** Marking one invitation used removes it from every set of unused codes and changes no
      other member of them. */
  lemma ConsumeUnused(invs: map<Id, Invitation>, inv: Id, used: Invitation, circle: Id, issuer: UserId)
    requires inv in invs && used.used
    ensures UnusedIn(invs[inv := used], circle, issuer) == UnusedIn(invs, circle, issuer) - {inv}
  {
  }

  /** A redemption lowers the issuer's unused codes and its remaining invitations by one each,
      and the new member starts with neither, so every member stays within its quota. */
  lemma {:induction false} AdmissionKeepsQuota(db: Db, circle: Id, user: UserId, inv: Id, now: Time)
    requires IdsBelowNext(db) && OneMembershipPerUser(db) && InvitationsLinked(db) && QuotaRespected(db)
    requires inv in db.invitations && db.invitations[inv].circle == circle && !db.invitations[inv].used
    requires user in db.profiles && !HasMembership(db, user, circle)
    ensures QuotaRespected(CommitAdmission(db, circle, user, inv, now))
  {
    var after := CommitAdmission(db, circle, user, inv, now);
    var issuer := IssuerRow(db, inv);
    var u := db.invitations[inv].issuedBy;
    forall id | id in after.memberships
      ensures |UnusedIn(after.invitations, after.memberships[id].circle, after.memberships[id].user)| <=
        after.memberships[id].remainingInvitations
    {
      var m := after.memberships[id];
      ConsumeUnused(db.invitations, inv, after.invitations[inv], m.circle, m.user);
      if id == db.nextId {
        NoCodesWithoutMembership(db, circle, user);
      } else if id == issuer {
        assert inv in UnusedIn(db.invitations, circle, u);
      } else {
        assert m == db.memberships[id];
        assert inv !in UnusedIn(db.invitations, m.circle, m.user);
      }
    }
  }

  /** Once a code is redeemed it cannot be redeemed again, by anyone. */
  lemma {:induction false} ReplayRejected(db: Db, circle: Id, user: UserId, code: string, now: Time, other: UserId)
    requires Valid(db) && circle in db.circles
    requires user in db.profiles
    requires CheckAdmission(db, circle, user, code).Success?
    ensures var after := CommitAdmission(db, circle, user, CheckAdmission(db, circle, user, code).value, now);
      CheckAdmission(after, circle, other, code) == Failure(InvalidCode)
  {
    var inv := CheckAdmission(db, circle, user, code).value;
    var after := CommitAdmission(db, circle, user, inv, now);
    AdmissionPreservesValid(db, circle, user, inv, now);
    forall id | id in after.invitations
      ensures !Redeemable(after.invitations[id], circle, code)
    {
      if id != inv && Redeemable(after.invitations[id], circle, code) {
        assert false;
      }
    }
  }

  /** After a redemption the new member cannot redeem a second code for the same circle. */
  lemma AdmittedUserRejected(db: Db, circle: Id, user: UserId, inv: Id, now: Time, code: string)
    requires Valid(db)
    requires inv in db.invitations && db.invitations[inv].circle == circle && !db.invitations[inv].used
    requires user in db.profiles && !HasMembership(db, user, circle)
    ensures var after := CommitAdmission(db, circle, user, inv, now);
      CodesUniqueInCircle(after) && CheckAdmission(after, circle, user, code).Failure?
  {
    AdmissionPreservesValid(db, circle, user, inv, now);
    var after := CommitAdmission(db, circle, user, inv, now);
    assert after.memberships[db.nextId].user == user && after.memberships[db.nextId].circle == circle;
  }

  /** A redemption adds exactly one member to its circle and none to any other, so a limited
      circle never ends up over its limit. */
  lemma {:induction false} AdmissionKeepsCapacity(db: Db, circle: Id, user: UserId, code: string, now: Time, c: Id)
    requires Valid(db) && circle in db.circles
    requires user in db.profiles
    requires CheckAdmission(db, circle, user, code).Success?
    ensures var after := CommitAdmission(db, circle, user, CheckAdmission(db, circle, user, code).value, now);
      && MemberCount(after, circle) == MemberCount(db, circle) + 1
      && (db.circles[circle].isLimited ==> MemberCount(after, circle) <= after.circles[circle].membersLimit)
      && (c != circle ==> MemberCount(after, c) == MemberCount(db, c))
  {
    var inv := CheckAdmission(db, circle, user, code).value;
    var after := CommitAdmission(db, circle, user, inv, now);
    assert db.nextId !in db.memberships;
    AdmissionAddsOneMember(db, after, circle, user, inv, now, circle);
    AdmissionAddsOneMember(db, after, circle, user, inv, now, c);
  }

  /** The members of any circle after a redemption: those before, plus the new row for the
      redeemed circle. */
  lemma {:induction false} AdmissionAddsOneMember(db: Db, after: Db, circle: Id, user: UserId, inv: Id, now: Time, c: Id)
    requires IdsBelowNext(db) && OneMembershipPerUser(db) && InvitationsLinked(db)
    requires inv in db.invitations && db.invitations[inv].circle == circle && !db.invitations[inv].used
    requires user in db.profiles && !HasMembership(db, user, circle)
    requires after == CommitAdmission(db, circle, user, inv, now)
    ensures MembersOf(after, c) == MembersOf(db, c) + (if c == circle then {db.nextId} else {})
  {
    forall id | id in MembersOf(after, c) ensures id in MembersOf(db, c) + (if c == circle then {db.nextId} else {}) {
      if id != db.nextId {
        assert after.memberships[id].circle == db.memberships[id].circle;
      }
    }
    forall id | id in MembersOf(db, c) ensures id in MembersOf(after, c) {
      assert after.memberships[id].circle == db.memberships[id].circle;
    }
  }
}
