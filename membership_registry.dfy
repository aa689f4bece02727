/** The member registry of a circle (the membership view set): the active-member listing, removal
    of a member by soft delete, and the invitation breakdown with its lazy top-up of unused codes. */
module MembershipRegistry {
  import opened Tables
  import Admission

  datatype RegistryError = NotActiveMember | NotFound | NotSelf

  /** `get_queryset`: the active memberships of the circle. */
  function ActiveMembers(db: Db, circle: Id): (r: set<Id>)
    ensures r <= MembersOf(db, circle)
    ensures forall id :: id in r <==> id in db.memberships && db.memberships[id].circle == circle && db.memberships[id].isActive
  {
    set id | id in db.memberships && db.memberships[id].circle == circle && db.memberships[id].isActive
  }

  /** `perform_destroy`: the row stays and only its `is_active` flag drops. */
  function Deactivated(db: Db, member: Id): (after: Db)
    requires member in db.memberships
    ensures after.memberships.Keys == db.memberships.Keys
    ensures after.memberships[member] == db.memberships[member].(isActive := false)
    ensures forall id :: id in db.memberships && id != member ==> after.memberships[id] == db.memberships[id]
    ensures after.(memberships := db.memberships) == db
  {
    db.(memberships := db.memberships[member := db.memberships[member].(isActive := false)])
  }

  /** After removal the member leaves the listing of its circle and nothing else leaves any listing. */
  lemma {:induction false} RemovalLeavesListing(db: Db, member: Id, circle: Id)
    requires member in db.memberships
    ensures ActiveMembers(Deactivated(db, member), circle) == ActiveMembers(db, circle) - {member}
  {
    var after := Deactivated(db, member);
    forall id ensures id in ActiveMembers(after, circle) <==> id in ActiveMembers(db, circle) - {member} {
      if id == member {
        assert !after.memberships[id].isActive;
      }
    }
  }

  /** A removed member is no longer found by the member lookup, and its row is kept. */
  lemma RemovedMemberNotFound(db: Db, member: Id)
    requires Valid(db) && member in db.memberships
    ensures var m := db.memberships[member];
      var after := Deactivated(db, member);
      && Valid(after)
      && ActiveMembershipOf(after, m.user, m.circle) == None
      && member in after.memberships && after.memberships[member].user == m.user
  {
    var after := Deactivated(db, member);
    ValidUnderRelink(db, after);
  }

  /** Because the row is kept, a removed member cannot come back by redeeming a code. */
  lemma RemovedMemberCannotRejoin(db: Db, member: Id, code: string)
    requires Valid(db) && member in db.memberships
    ensures var m := db.memberships[member];
      var after := Deactivated(db, member);
      CodesUniqueInCircle(after) && m.circle in after.circles &&
      Admission.CheckAdmission(after, m.circle, m.user, code).Failure?
  {
    var after := Deactivated(db, member);
    assert after.memberships[member].user == db.memberships[member].user;
  }

  // ---------------------------------------------------------------------------
  // Invitation breakdown and top-up.

  /** The "used" half of the breakdown: active members of the circle invited by `user`. */
  function InvitedMembers(db: Db, circle: Id, user: UserId): (r: set<Id>)
    ensures r <= ActiveMembers(db, circle)
    ensures forall id :: id in r <==> id in ActiveMembers(db, circle) && db.memberships[id].invitedBy == Some(user)
  {
    set id | id in db.memberships && db.memberships[id].circle == circle && db.memberships[id].isActive &&
      db.memberships[id].invitedBy == Some(user)
  }

  /** The unused invitations `issuer` has issued in `circle`. */
  function UnusedInvitations(db: Db, circle: Id, issuer: UserId): set<Id> {
    UnusedIn(db.invitations, circle, issuer)
  }

  function UnusedCount(db: Db, circle: Id, issuer: UserId): nat {
    |UnusedInvitations(db, circle, issuer)|
  }

  /** The "unused" half of the breakdown: the codes of those invitations. */
  function UnusedCodes(db: Db, circle: Id, issuer: UserId): set<string> {
    set id | id in UnusedInvitations(db, circle, issuer) :: db.invitations[id].code
  }

  /** Every code in use in a circle, redeemed or not. */
  function CodesIn(db: Db, circle: Id): set<string> {
    set id | id in db.invitations && db.invitations[id].circle == circle :: db.invitations[id].code
  }

  /** How many invitations the top-up creates: `remaining_invitations - len(unused_invitations)`,
      and none when that is not positive (`range` of a non-positive bound is empty). */
  function Shortfall(db: Db, circle: Id, issuer: UserId, remaining: int): (k: nat)
    ensures k == 0 <==> UnusedCount(db, circle, issuer) >= remaining
    ensures k > 0 ==> UnusedCount(db, circle, issuer) + k == remaining
  {
    if remaining > UnusedCount(db, circle, issuer) then remaining - UnusedCount(db, circle, issuer) else 0
  }

  /** Only the invitation table and the id sequence differ between the two states. */
  predicate OnlyInvitationsChanged(before: Db, after: Db) {
    && after.circles == before.circles && after.memberships == before.memberships
    && after.rides == before.rides && after.ratings == before.ratings && after.profiles == before.profiles
  }

  /** `Invitation.objects.create(issued_by=, circle=)`: a new unused invitation with a generated
      code that is fresh within the circle. */
  function Issue(db: Db, circle: Id, issuer: UserId, code: string): (after: Db)
    ensures after.invitations == db.invitations[db.nextId := Invitation(code, circle, issuer, None, false, None)]
    ensures after.nextId == db.nextId + 1
    ensures OnlyInvitationsChanged(db, after)
  {
    db.(invitations := db.invitations[db.nextId := Invitation(code, circle, issuer, None, false, None)],
        nextId := db.nextId + 1)
  }

  /** Every invitation of `after` that `before` lacks is an unused one of `issuer` in `circle`
      with a nonempty code and an id from the range the run allocated. */
  ghost predicate NewRowsFrom(before: Db, after: Db, circle: Id, issuer: UserId) {
    forall id :: id in after.invitations && id !in before.invitations ==>
      && before.nextId <= id < after.nextId
      && IsUnusedFrom(after.invitations[id], circle, issuer)
      && after.invitations[id].usedBy == None && after.invitations[id].usedAt == None
      && after.invitations[id].code != []
  }

  /** `after` is `before` with exactly `k` new unused invitations of `issuer` in `circle`, with
      nonempty codes unique within the circle, and nothing else changed. */
  ghost predicate IssuedFresh(before: Db, after: Db, circle: Id, issuer: UserId, k: nat) {
    && after.nextId == before.nextId + k
    && before.invitations.Keys <= after.invitations.Keys
    && |after.invitations.Keys - before.invitations.Keys| == k
    && (forall id :: id in before.invitations ==> after.invitations[id] == before.invitations[id])
    && NewRowsFrom(before, after, circle, issuer)
    && CodesUniqueInCircle(after)
    && OnlyInvitationsChanged(before, after)
  }

  /** A string longer than every code of a finite set, hence not in it. */
  lemma {:induction false} LongerThanAll(codes: set<string>) returns (n: nat)
    ensures forall c :: c in codes ==> |c| < n
  {
    if codes == {} {
      n := 0;
    } else {
      var c :| c in codes;
      var m := LongerThanAll(codes - {c});
      n := if m > |c| then m else |c| + 1;
    }
  }

  /** The code generator can always find a fresh code, so the top-up never runs out of codes. */
  lemma FreshCodeExists(codes: set<string>)
    ensures exists code: string :: code !in codes && code != []
  {
    var n := LongerThanAll(codes);
    var code := seq(n + 1, _ => 'x');
    assert code !in codes && code != [];
  }

  /** Zero issues change nothing. */
  lemma IssuedNothing(db: Db, circle: Id, issuer: UserId)
    requires CodesUniqueInCircle(db)
    ensures IssuedFresh(db, db, circle, issuer, 0)
  {
    assert db.invitations.Keys - db.invitations.Keys == {};
  }

  /** One more issue with a fresh code extends a run of issues by one. */
  lemma IssueStep(before: Db, mid: Db, circle: Id, issuer: UserId, k: nat, code: string)
    requires IdsBelowNext(before)
    requires IssuedFresh(before, mid, circle, issuer, k)
    requires code != [] && code !in CodesIn(mid, circle)
    ensures IssuedFresh(before, Issue(mid, circle, issuer, code), circle, issuer, k + 1)
    ensures UnusedCodes(Issue(mid, circle, issuer, code), circle, issuer) == UnusedCodes(mid, circle, issuer) + {code}
  {
    assert mid.nextId !in mid.invitations;
    IssueStepRows(before, mid, circle, issuer, k, code);
    IssueStepCodes(mid, circle, issuer, code);
    IssueStepUnused(mid, circle, issuer, code);
  }

  lemma IssueStepUnused(mid: Db, circle: Id, issuer: UserId, code: string)
    requires mid.nextId !in mid.invitations
    ensures UnusedCodes(Issue(mid, circle, issuer, code), circle, issuer) == UnusedCodes(mid, circle, issuer) + {code}
  {
    var after := Issue(mid, circle, issuer, code);
    assert UnusedInvitations(after, circle, issuer) == UnusedInvitations(mid, circle, issuer) + {mid.nextId};
  }

  lemma IssueStepRows(before: Db, mid: Db, circle: Id, issuer: UserId, k: nat, code: string)
    requires IssuedFresh(before, mid, circle, issuer, k)
    requires mid.nextId !in mid.invitations && before.nextId <= mid.nextId
    requires code != []
    ensures var after := Issue(mid, circle, issuer, code);
      && after.nextId == before.nextId + k + 1
      && before.invitations.Keys <= after.invitations.Keys
      && |after.invitations.Keys - before.invitations.Keys| == k + 1
      && (forall id :: id in before.invitations ==> after.invitations[id] == before.invitations[id])
      && NewRowsFrom(before, after, circle, issuer)
      && OnlyInvitationsChanged(before, after)
  {
    IssueStepKeys(before, mid, circle, issuer, k, code);
    IssueStepOldRows(before, mid, circle, issuer, k, code);
    IssueStepNewRows(before, mid, circle, issuer, k, code);
  }

  lemma IssueStepKeys(before: Db, mid: Db, circle: Id, issuer: UserId, k: nat, code: string)
    requires mid.nextId == before.nextId + k
    requires before.invitations.Keys <= mid.invitations.Keys
    requires |mid.invitations.Keys - before.invitations.Keys| == k
    requires mid.nextId !in mid.invitations
    ensures var after := Issue(mid, circle, issuer, code);
      && after.nextId == before.nextId + k + 1
      && before.invitations.Keys <= after.invitations.Keys
      && |after.invitations.Keys - before.invitations.Keys| == k + 1
  {
    var after := Issue(mid, circle, issuer, code);
    AddedGrows(before.invitations.Keys, mid.invitations.Keys, mid.nextId);
    assert after.invitations.Keys == mid.invitations.Keys + {mid.nextId};
  }

  lemma IssueStepOldRows(before: Db, mid: Db, circle: Id, issuer: UserId, k: nat, code: string)
    requires forall id :: id in before.invitations ==> id in mid.invitations && mid.invitations[id] == before.invitations[id]
    requires mid.nextId !in mid.invitations
    ensures var after := Issue(mid, circle, issuer, code);
      forall id :: id in before.invitations ==> after.invitations[id] == before.invitations[id]
  {
  }

  lemma IssueStepNewRows(before: Db, mid: Db, circle: Id, issuer: UserId, k: nat, code: string)
    requires NewRowsFrom(before, mid, circle, issuer)
    requires before.nextId <= mid.nextId
    requires code != []
    ensures NewRowsFrom(before, Issue(mid, circle, issuer, code), circle, issuer)
  {
  }

  lemma AddedGrows(old_: set<Id>, mid: set<Id>, x: Id)
    requires old_ <= mid && x !in mid
    ensures |(mid + {x}) - old_| == |mid - old_| + 1
  {
    assert (mid + {x}) - old_ == (mid - old_) + {x};
  }

  /** A code that is fresh in the circle keeps the codes of the circle unique. */
  lemma IssueStepCodes(mid: Db, circle: Id, issuer: UserId, code: string)
    requires CodesUniqueInCircle(mid)
    requires mid.nextId !in mid.invitations
    requires code !in CodesIn(mid, circle)
    ensures CodesUniqueInCircle(Issue(mid, circle, issuer, code))
  {
  }

  /** A run of `k` issues adds exactly `k` unused invitations of the issuer. */
  lemma {:induction false} IssuedFreshCount(before: Db, after: Db, circle: Id, issuer: UserId, k: nat)
    requires IssuedFresh(before, after, circle, issuer, k)
    ensures UnusedCount(after, circle, issuer) == UnusedCount(before, circle, issuer) + k
  {
    GrownUnused(before.invitations, after.invitations, circle, issuer);
  }

  /** Adding rows that are all unused codes of `issuer` in `circle` to a table, and changing
      no existing row, grows that issuer's unused codes by exactly the rows added. */
  lemma {:induction false} GrownUnused(small: map<Id, Invitation>, large: map<Id, Invitation>, circle: Id, issuer: UserId)
    requires small.Keys <= large.Keys
    requires forall id :: id in small ==> large[id] == small[id]
    requires forall id :: id in large && id !in small ==> IsUnusedFrom(large[id], circle, issuer)
    ensures |UnusedIn(large, circle, issuer)| == |UnusedIn(small, circle, issuer)| + |large.Keys - small.Keys|
  {
    var added := large.Keys - small.Keys;
    var was := UnusedIn(small, circle, issuer);
    var now := UnusedIn(large, circle, issuer);
    forall id | id in now ensures id in was + added {
      if id in small {
        assert large[id] == small[id];
      }
    }
    forall id | id in was + added ensures id in now {
      if id in was {
        assert large[id] == small[id];
      }
    }
    assert now == was + added;
    assert was !! added;
  }

  /** Issued rows all belong to `circle` and `issuer`, so every other member's unused codes
      stay as they were. */
  lemma IssuedFreshOthers(before: Db, after: Db, circle: Id, issuer: UserId, k: nat, c: Id, u: UserId)
    requires IssuedFresh(before, after, circle, issuer, k)
    requires c != circle || u != issuer
    ensures UnusedIn(after.invitations, c, u) == UnusedIn(before.invitations, c, u)
  {
  }

  /** Issuing no more than the shortfall keeps the issuer within its quota, and nobody else's
      codes change. */
  lemma {:induction false} IssuedFreshKeepsQuota(before: Db, after: Db, circle: Id, issuer: UserId, member: Id, k: nat)
    requires QuotaRespected(before) && OneMembershipPerUser(before)
    requires member in before.memberships
    requires before.memberships[member].user == issuer && before.memberships[member].circle == circle
    requires k <= Shortfall(before, circle, issuer, before.memberships[member].remainingInvitations)
    requires IssuedFresh(before, after, circle, issuer, k)
    ensures QuotaRespected(after)
  {
    IssuedFreshCount(before, after, circle, issuer, k);
    forall id | id in after.memberships
      ensures |UnusedIn(after.invitations, after.memberships[id].circle, after.memberships[id].user)| <=
        after.memberships[id].remainingInvitations
    {
      var m := before.memberships[id];
      if id != member {
        IssuedFreshOthers(before, after, circle, issuer, k, m.circle, m.user);
      }
    }
  }

  /** A run of at most the shortfall of issues by a member of the circle keeps the store
      invariant. */
  lemma IssuedFreshPreservesValid(before: Db, after: Db, circle: Id, issuer: UserId, member: Id, k: nat)
    requires Valid(before) && circle in before.circles
    requires member in before.memberships
    requires before.memberships[member].user == issuer && before.memberships[member].circle == circle
    requires k <= Shortfall(before, circle, issuer, before.memberships[member].remainingInvitations)
    requires IssuedFresh(before, after, circle, issuer, k)
    ensures Valid(after)
  {
    assert after.memberships == before.memberships;
    IssuedFreshKeepsQuota(before, after, circle, issuer, member, k);
  }

  /** In a valid store no member ever holds more unused codes than its remaining invitations,
      and the remaining invitations are never negative. */
  lemma QuotaBoundsUnused(db: Db, member: Id)
    requires Valid(db) && member in db.memberships
    ensures var m := db.memberships[member];
      UnusedCount(db, m.circle, m.user) <= m.remainingInvitations && m.remainingInvitations >= 0
  {
  }

  /** After the top-up the member holds at least `remaining_invitations` unused codes; exactly
      that many when it held no more before, and when it already held enough nothing is created. */
  lemma TopUpMeetsQuota(before: Db, after: Db, circle: Id, issuer: UserId, remaining: int)
    requires IdsBelowNext(before)
    requires IssuedFresh(before, after, circle, issuer, Shortfall(before, circle, issuer, remaining))
    ensures UnusedCount(after, circle, issuer) >= remaining
    ensures UnusedCount(before, circle, issuer) <= remaining ==> UnusedCount(after, circle, issuer) == remaining
    ensures UnusedCount(before, circle, issuer) >= remaining ==> after == before
  {
    IssuedFreshCount(before, after, circle, issuer, Shortfall(before, circle, issuer, remaining));
    if UnusedCount(before, circle, issuer) >= remaining {
      IssuedNoneIsIdentity(before, after, circle, issuer);
    }
  }

  /** A run of zero issues leaves the store as it was. */
  lemma IssuedNoneIsIdentity(before: Db, after: Db, circle: Id, issuer: UserId)
    requires IssuedFresh(before, after, circle, issuer, 0)
    ensures after == before
  {
    assert after.invitations.Keys == before.invitations.Keys;
    assert after.invitations == before.invitations;
  }

  /** A second top-up with no change in between creates nothing. */
  lemma TopUpIdempotent(before: Db, after: Db, again: Db, circle: Id, issuer: UserId, remaining: int)
    requires IdsBelowNext(before)
    requires IssuedFresh(before, after, circle, issuer, Shortfall(before, circle, issuer, remaining))
    requires IssuedFresh(after, again, circle, issuer, Shortfall(after, circle, issuer, remaining))
    ensures Shortfall(after, circle, issuer, remaining) == 0 && again == after
  {
    TopUpMeetsQuota(before, after, circle, issuer, remaining);
    assert Shortfall(after, circle, issuer, remaining) == 0;
    IssuedNoneIsIdentity(after, again, circle, issuer);
  }

  // ---------------------------------------------------------------------------
  // The top-up as the source writes it.

  /** As written, the codes are collected with `values_list`, which yields a query set, and the
      loop calls `append` on it.  Python looks the method up before it evaluates the argument, and
      a query set has no `append`: the first iteration fails before its `create` runs.  So a call
      with a positive shortfall creates nothing and reports an error; `failed` is that error. */
  ghost predicate TopUpAsWritten(before: Db, after: Db, circle: Id, issuer: UserId, remaining: int, failed: bool) {
    after == before && (failed <==> Shortfall(before, circle, issuer, remaining) > 0)
  }

  /** Whenever a top-up is due, the code as written fails and leaves the member short of its
      quota, with the store unchanged. */
  lemma TopUpAsWrittenFallsShort(before: Db, after: Db, circle: Id, issuer: UserId, remaining: int, failed: bool)
    requires Shortfall(before, circle, issuer, remaining) >= 1
    requires TopUpAsWritten(before, after, circle, issuer, remaining, failed)
    ensures failed && after == before && UnusedCount(after, circle, issuer) < remaining
  {
  }
}
