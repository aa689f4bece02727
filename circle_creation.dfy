/** Creation of a circle together with the membership of its creator: the circle row is saved
    from the accepted payload, then the creator becomes its admin with a quota of invitations.
    The use case runs `validation` before `use_case`; the base `validation` does nothing, so the
    two writes below are the whole effect. */
module CircleCreation {
  import opened Tables
  import CircleLimits
  import MembershipRegistry

  /** Invitations the creator of a circle may hand out. */
  const OwnerInvitations: int := 10

  /** The circle row saved from an accepted payload: an absent limit is stored as 0 and the ride
      counters start at 0. */
  function NewCircle(input: CircleLimits.CircleInput, attrs: CircleLimits.LimitInput): (c: Circle)
    requires CircleLimits.InRange(attrs.membersLimit)
    ensures c.name == input.name && c.slugName == input.slugName && c.about == input.about
    ensures c.isLimited <==> CircleLimits.LimitedFlag(attrs)
    ensures attrs.membersLimit.Some? ==> c.membersLimit == attrs.membersLimit.value
    ensures attrs.membersLimit.None? ==> c.membersLimit == 0
    ensures c.ridesOffered == 0 && c.ridesTaken == 0
  {
    Circle(input.slugName, input.name, input.about, CircleLimits.LimitedFlag(attrs),
      if attrs.membersLimit.Some? then attrs.membersLimit.value as nat else 0, 0, 0)
  }

  /** The creator's membership: an active admin, invited by nobody, holding the owner quota. */
  function OwnerMembership(owner: UserId, circle: Id): (m: Membership)
    ensures m.user == owner && m.profile == owner && m.circle == circle && m.invitedBy == None
    ensures m.isAdmin && m.isActive && m.remainingInvitations == OwnerInvitations
    ensures m.usedInvitations == 0 && m.ridesOffered == 0 && m.ridesTaken == 0
  {
    Membership(owner, owner, circle, None, true, true, 0, OwnerInvitations, 0, 0)
  }

  /** `CreateCircleUseCase.use_case`: the circle takes the next id, the membership the one after. */
  function CommitCreateCircle(db: Db, input: CircleLimits.CircleInput, attrs: CircleLimits.LimitInput, owner: UserId): (after: Db)
    requires CircleLimits.InRange(attrs.membersLimit)
    ensures after.nextId == db.nextId + 2
    ensures after.circles == db.circles[db.nextId := NewCircle(input, attrs)]
    ensures after.memberships == db.memberships[db.nextId + 1 := OwnerMembership(owner, db.nextId)]
    ensures after.invitations == db.invitations && after.rides == db.rides
    ensures after.ratings == db.ratings && after.profiles == db.profiles
  {
    var circle := db.nextId;
    db.(circles := db.circles[circle := NewCircle(input, attrs)],
        memberships := db.memberships[circle + 1 := OwnerMembership(owner, circle)],
        nextId := db.nextId + 2)
  }

  /** Creating a circle keeps the store invariant. */
  lemma CreateCirclePreservesValid(db: Db, input: CircleLimits.CircleInput, attrs: CircleLimits.LimitInput, owner: UserId)
    requires Valid(db) && owner in db.profiles
    requires CircleLimits.InRange(attrs.membersLimit)
    ensures Valid(CommitCreateCircle(db, input, attrs, owner))
  {
    CreateCircleKeepsOneMembership(db, input, attrs, owner);
    CreateCircleKeepsIssuers(db, input, attrs, owner);
  }

  lemma {:induction false} CreateCircleKeepsOneMembership(db: Db, input: CircleLimits.CircleInput, attrs: CircleLimits.LimitInput, owner: UserId)
    requires Valid(db)
    requires CircleLimits.InRange(attrs.membersLimit)
    ensures OneMembershipPerUser(CommitCreateCircle(db, input, attrs, owner))
  {
    var after := CommitCreateCircle(db, input, attrs, owner);
    forall i, j | i in after.memberships && j in after.memberships &&
      after.memberships[i].user == after.memberships[j].user &&
      after.memberships[i].circle == after.memberships[j].circle
      ensures i == j
    {
    }
  }

  lemma {:induction false} CreateCircleKeepsIssuers(db: Db, input: CircleLimits.CircleInput, attrs: CircleLimits.LimitInput, owner: UserId)
    requires Valid(db)
    requires CircleLimits.InRange(attrs.membersLimit)
    ensures InvitationsLinked(CommitCreateCircle(db, input, attrs, owner))
  {
    var after := CommitCreateCircle(db, input, attrs, owner);
    forall id | id in after.invitations
      ensures HasMembership(after, after.invitations[id].issuedBy, after.invitations[id].circle)
    {
      var inv := db.invitations[id];
      var m :| m in db.memberships && db.memberships[m].user == inv.issuedBy && db.memberships[m].circle == inv.circle;
      assert after.memberships[m] == db.memberships[m];
    }
  }

  /** The creator is the one member of the new circle: an active admin holding ten invitations,
      linked to the creator's profile. */
  lemma {:induction false} OwnerIsSoleMember(db: Db, input: CircleLimits.CircleInput, attrs: CircleLimits.LimitInput, owner: UserId)
    requires Valid(db) && owner in db.profiles
    requires CircleLimits.InRange(attrs.membersLimit)
    ensures var after := CommitCreateCircle(db, input, attrs, owner);
      && MembersOf(after, db.nextId) == {db.nextId + 1}
      && MemberCount(after, db.nextId) == 1
      && OneMembershipPerUser(after)
      && ActiveMembershipOf(after, owner, db.nextId) == Some(db.nextId + 1)
      && after.memberships[db.nextId + 1].isAdmin
      && after.memberships[db.nextId + 1].remainingInvitations == 10
      && after.memberships[db.nextId + 1].profile == owner
  {
    var after := CommitCreateCircle(db, input, attrs, owner);
    CreateCircleKeepsOneMembership(db, input, attrs, owner);
    forall id | id in db.memberships ensures db.memberships[id].circle != db.nextId {
      assert db.memberships[id].circle in db.circles;
    }
    assert MembersOf(after, db.nextId) == {db.nextId + 1};
  }

  /** A circle created from a payload accepted on POST has room for its second member, so the
      creator's first invitation can be redeemed. */
  lemma CreatedCircleHasRoom(db: Db, input: CircleLimits.CircleInput, owner: UserId)
    requires Valid(db) && owner in db.profiles
    requires CircleLimits.ValidateCircle(CircleLimits.Post, input.limits, None).Success?
    ensures var attrs := CircleLimits.ValidateCircle(CircleLimits.Post, input.limits, None).value;
      var after := CommitCreateCircle(db, input, attrs, owner);
      var c := after.circles[db.nextId];
      c.isLimited ==> MemberCount(after, db.nextId) < c.membersLimit
  {
    var attrs := CircleLimits.ValidateCircle(CircleLimits.Post, input.limits, None).value;
    CircleLimits.FullWriteIsConsistent(CircleLimits.Post, input.limits);
    OwnerIsSoleMember(db, input, attrs, owner);
  }

  /** The new circle holds no invitations yet, so the creator's first breakdown issues the
      whole quota of ten codes. */
  lemma {:induction false} OwnerStartsWithFullShortfall(db: Db, input: CircleLimits.CircleInput, attrs: CircleLimits.LimitInput, owner: UserId)
    requires Valid(db)
    requires CircleLimits.InRange(attrs.membersLimit)
    ensures var after := CommitCreateCircle(db, input, attrs, owner);
      MembershipRegistry.Shortfall(after, db.nextId, owner, after.memberships[db.nextId + 1].remainingInvitations) == OwnerInvitations
  {
    var after := CommitCreateCircle(db, input, attrs, owner);
    forall id | id in after.invitations ensures after.invitations[id].circle != db.nextId {
      assert after.invitations[id].circle in db.circles;
    }
    assert MembershipRegistry.UnusedInvitations(after, db.nextId, owner) == {};
  }
}
