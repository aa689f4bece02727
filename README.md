# Carpool circles: a Dafny model of the cride service core

cride is a ride-sharing service organised in *circles*. A user creates a circle and becomes
its admin with ten invitations to hand out. Other users join by redeeming a single-use
invitation code; a circle may be limited to a number of members. Active members of a circle
offer rides, join rides offered by others, edit their own rides before departure and rate
rides they travelled on. A periodic job retires rides that have arrived.

This project models the core of that service:

- redeeming an invitation;
- the member registry: listing, soft removal, and the invitation breakdown with its lazy
  top-up of unused codes;
- creating a circle and the capacity rules of its serializer;
- offering, joining, editing and ending rides, with the ride view's permissions and listing;
- rating a ride and the averages it refreshes;
- the job that disables finished rides.

## Layout

| file | module | what it holds |
|---|---|---|
| `tables.dfy` | `Tables` | the rows (circle, membership, invitation, ride, rating, profile), the `Db` snapshot of every table, the store invariant `Valid` (foreign keys resolve, one membership per user and circle, codes unique within a circle, ids below the id counter, ratings on the 1..5 scale, no offerer among its passengers, no member holding more unused codes than its remaining invitations) and shared lookups |
| `circle_limits.dfy` | `CircleLimits` | the `members_limit` / `is_limited` rules of the circle serializer |
| `admission.dfy` | `Admission` | validation and writes of an invitation redemption |
| `membership_registry.dfy` | `MembershipRegistry` | member listing, removal, invitation breakdown and top-up |
| `circle_creation.dfy` | `CircleCreation` | the create-circle use case |
| `ride_board.dfy` | `RideBoard` | the ride serializers: create, join, edit, end |
| `ride_views.dfy` | `RideViews` | ride listing and per-action permissions |
| `ratings.dfy` | `RatingAggregation` | rating validation, the stored row and the recomputed means |
| `housekeeping.dfy` | `Housekeeping` | the periodic job |
| `store.dfy` | `Store` | class `Database`: the tables as mutable map fields, one method per request |

Each state-changing request has three parts:

- a pure `Check…` function returning a `Result`. It holds the serializer and view checks, in
  source order, and reports the first one that fails.
- a pure `Commit…` function on `Db`. It holds the row writes, and its `ensures` lists every
  changed row and every unchanged table.
- a `Database` method. It performs the writes step by step, row by row, in the source's order. Its
  postcondition equates the new tables with the `Commit…` function applied to the old ones,
  and it keeps `Valid()`.

Lemmas about the pure functions state what the source promises.

Ids come from a single counter shared by every table. A user is identified with its profile:
"the user exists" means "the user has a profile". Times are whole seconds.

## Model

| member | source | states |
|---|---|---|
| Tables.MembershipOf | cride/circles/serializers/memberships.py:117-118 | finds a membership row exactly when the user has one in the circle, and the row found belongs to that user and circle |
| Tables.ActiveMembershipOf | cride/circles/permissions/memberships.py:17-30 | finds a row exactly when the user is an active member of the circle, and that row is active and belongs to that user and circle |
| CircleLimits.ValidateFields | cride/circles/serializers/circles.py:15-23 | fails exactly when a given `members_limit` lies outside 10..3200; an absent `is_limited` becomes false except on PATCH; given values pass through unchanged |
| CircleLimits.CheckLimits | cride/circles/serializers/circles.py:52-80 | on POST/PUT, accepts exactly when the flag agrees with a truthy limit; on PATCH, accepts exactly when the request neither sets a truthy limit on an unlimited circle nor sets the flag on a circle with a zero limit (so it accepts when neither field is set); other verbs pass; accepted attributes are unchanged |
| CircleLimits.ValidateCircle | cride/circles/serializers/circles.py:15-80 | an out-of-range limit is refused before the cross-field rule is checked; an accepted limit is in range and is the one given |
| CircleLimits.Patched | cride/circles/serializers/circles.py:72-80 | a partial update writes exactly the given capacity fields, keeps the stored ones otherwise, and leaves every other field of the circle as it was |
| CircleLimits.FullWriteIsConsistent | cride/circles/serializers/circles.py:65-70 | an accepted POST/PUT payload is limited exactly when it carries a limit, and that limit lies in 10..3200 |
| CircleLimits.PatchKeepsLimitPositive | cride/circles/serializers/circles.py:72-78 | an accepted PATCH never leaves a circle limited with a zero limit, if the circle was not already so |
| CircleLimits.PatchMayRaiseLimit | cride/circles/serializers/circles.py:72-80 | witness: PATCH `{members_limit: 100, is_limited: true}` on a circle limited at 50 is accepted and stores the new limit |
| CircleLimits.PatchCannotLimitUnlimited | cride/circles/serializers/circles.py:76-78 | a PATCH that sets any limit on an unlimited circle is refused |
| CircleLimits.PatchMayUnsetFlagAlone | cride/circles/serializers/circles.py:72-78 | witness: a limited circle may drop its flag by PATCH and keep its limit, so "limited exactly when a limit is set" is not kept by PATCH |
| Admission.ValidateUser | cride/circles/serializers/memberships.py:60-69 | accepts exactly when the user holds no membership row in the circle, active or not |
| Admission.ValidateInvitationCode | cride/circles/serializers/memberships.py:57-83 | a code shorter than 10 is refused first; otherwise the result is an unused invitation of this circle with this code, or InvalidCode exactly when none exists |
| Admission.HasRoom | cride/circles/serializers/memberships.py:85-92 | an unlimited circle always has room; a limited one exactly while its membership rows number fewer than the limit |
| Admission.CheckAdmission | cride/circles/serializers/memberships.py:57-92 | succeeds exactly when the code is long enough, matches an unused invitation of the circle, the user is not yet a member and the circle has room; each error names the failing condition |
| Admission.NewMember | cride/circles/serializers/memberships.py:104-108 | the new membership is the user's own, in the circle, invited by the issuer, active, not admin, with zeroed counters |
| Admission.Consumed | cride/circles/serializers/memberships.py:110-114 | the invitation becomes used, by the redeemer, at the given time; its code, circle and issuer are kept |
| Admission.Credited | cride/circles/serializers/memberships.py:116-121 | the issuer gains one used invitation and loses one remaining; its user, circle and flags are kept |
| Admission.IssuerRow | cride/circles/serializers/memberships.py:117-118 | the issuer's membership row exists in the invitation's circle |
| Admission.CommitAdmission | cride/circles/serializers/memberships.py:94-123 | one new membership under the next id, the invitation consumed, the issuer credited; no other membership or invitation changes, and no other table changes |
| Admission.AdmissionPreservesValid | cride/circles/serializers/memberships.py:94-123 | a redemption keeps the store invariant, including one membership per user and circle and every member within its invitation quota |
| Admission.AdmissionKeepsQuota | cride/circles/serializers/memberships.py:110-121 | the issuer loses one unused code and one remaining invitation, the new member starts with neither, and no other member's codes change, so no member ends up holding more unused codes than its remaining invitations |
| Admission.ReplayRejected | cride/circles/serializers/memberships.py:71-114 | once a code is redeemed, any later redemption of it, by anyone, fails with InvalidCode |
| Admission.AdmittedUserRejected | cride/circles/serializers/memberships.py:60-69 | a user just admitted cannot redeem another code for the same circle |
| Admission.AdmissionKeepsCapacity | cride/circles/serializers/memberships.py:85-92 | a redemption adds exactly one member to its circle and none elsewhere, so a limited circle never exceeds its limit |
| MembershipRegistry.ActiveMembers | cride/circles/views/memberships.py:54-61 | the listing holds exactly the active membership rows of the circle |
| MembershipRegistry.Deactivated | cride/circles/views/memberships.py:74-79 | removal clears only the member's `is_active`; every row is kept and nothing else changes |
| MembershipRegistry.RemovalLeavesListing | cride/circles/views/memberships.py:54-79 | after removal the listing is the previous one minus the removed row |
| MembershipRegistry.RemovedMemberNotFound | cride/circles/views/memberships.py:63-79 | after removal the member lookup finds nothing, the row remains, and the invariant holds |
| MembershipRegistry.RemovedMemberCannotRejoin | cride/circles/views/memberships.py:74-79 | because the row is kept, a removed member's later redemption in that circle fails |
| MembershipRegistry.InvitedMembers | cride/circles/views/memberships.py:93-95 | the "used" half holds exactly the active members of the circle invited by the user |
| MembershipRegistry.Shortfall | cride/circles/views/memberships.py:102-104 | zero exactly when the unused codes already reach the quota; otherwise unused plus shortfall equals the quota |
| MembershipRegistry.Issue | cride/circles/views/memberships.py:105-106 | one new unused invitation under the next id; only the invitation table and the counter change |
| MembershipRegistry.IssuedFreshCount | cride/circles/views/memberships.py:104-106 | a run of k issues adds exactly k unused invitations of the issuer |
| MembershipRegistry.IssuedFreshKeepsQuota | cride/circles/views/memberships.py:102-106 | issuing at most the shortfall keeps the issuer within its `remaining_invitations`, and no other member's unused codes change |
| MembershipRegistry.IssuedFreshPreservesValid | cride/circles/views/memberships.py:102-106 | a run of at most the shortfall of issues by a member of the circle keeps the store invariant |
| MembershipRegistry.QuotaBoundsUnused | cride/circles/views/memberships.py:102-106 | in any valid store a member's unused codes never exceed its `remaining_invitations`, which is never negative |
| MembershipRegistry.TopUpMeetsQuota | cride/circles/views/memberships.py:97-106 | after the top-up the member holds at least `remaining_invitations` unused codes, exactly that many if it held no more before, and nothing is created when it already held enough |
| MembershipRegistry.TopUpIdempotent | cride/circles/views/memberships.py:97-106 | a second breakdown with no change in between creates nothing |
| MembershipRegistry.TopUpAsWrittenFallsShort | cride/circles/views/memberships.py:97-106 | as written, whenever a top-up is due the request fails before any invitation is created, leaving the store unchanged and the member short of its quota |
| CircleCreation.NewCircle | cride/circles/usecases/create_circle.py:26 | the saved circle carries the payload's name, slug and description; it is limited exactly when the flag was set; an absent limit is stored as 0; ride counters start at 0 |
| CircleCreation.OwnerMembership | cride/circles/usecases/create_circle.py:29-35 | the creator's membership is an active admin row, invited by nobody, with ten remaining invitations |
| CircleCreation.CommitCreateCircle | cride/circles/usecases/create_circle.py:24-35 | the circle takes the next id and the owner's membership the one after; no other table changes |
| CircleCreation.CreateCirclePreservesValid | cride/circles/usecases/create_circle.py:24-35 | creating a circle keeps the store invariant |
| CircleCreation.OwnerIsSoleMember | cride/circles/usecases/create_circle.py:29-35 | the new circle has exactly one member: the creator, active admin with ten invitations |
| CircleCreation.CreatedCircleHasRoom | cride/circles/usecases/create_circle.py:24-35 | a circle created from an accepted POST has room for a second member |
| CircleCreation.OwnerStartsWithFullShortfall | cride/circles/usecases/create_circle.py:34 | the creator's first breakdown issues all ten codes |
| RideBoard.CheckCreate | cride/rides/serializers/rides.py:45-89 | succeeds exactly when seats are in 1..15, departure is at least ten minutes ahead, the offerer is an active member and arrival follows departure; the result is the offerer's active membership; seats are checked first, then the lead time |
| RideBoard.NewRide | cride/rides/serializers/rides.py:94 | the new ride is the offerer's, in the circle, active, with no passengers and no rating, and with the given dates and seats |
| RideBoard.CommitCreate | cride/rides/serializers/rides.py:91-110 | the ride under the next id; one more ride offered on the circle, the membership and the profile; nothing else changes |
| RideBoard.CreatePreservesValid | cride/rides/serializers/rides.py:91-110 | offering a ride keeps the store invariant |
| RideBoard.CheckJoin | cride/rides/serializers/rides.py:116-159 | succeeds exactly when the passenger exists, is an active member, the ride has not departed, has a seat, and the passenger is on no ride; started and full rides get their own errors |
| RideBoard.CommitJoin | cride/rides/serializers/rides.py:161-187 | the passenger boards, one seat fewer, one more ride taken on the profile, membership and circle; nothing else changes |
| RideBoard.JoinPreservesValid | cride/rides/serializers/rides.py:161-187 | a join by someone other than the offerer keeps the store invariant |
| RideBoard.JoinMovesOneSeat | cride/rides/serializers/rides.py:167-171 | seats plus passengers stay constant on the ride, the passenger is aboard, and other rides are untouched |
| RideBoard.JoinedPassengerRejected | cride/rides/serializers/rides.py:158-159 | after a join, every later join by the same user, on any ride, is refused |
| RideBoard.LastSeatTaken | cride/rides/serializers/rides.py:155-156 | taking the last seat closes the ride to every later join |
| RideBoard.Edit | cride/rides/serializers/rides.py:34-39 | a ride that has departed is locked (exactly then); otherwise each given field is written, the rest are kept, and offerer, circle, passengers and rating never change |
| RideBoard.EmptyEditKeepsRide | cride/rides/serializers/rides.py:34-39 | an edit with no fields leaves an open ride unchanged |
| RideBoard.LockIsPermanent | cride/rides/serializers/rides.py:36-38 | a ride locked at one instant stays locked at every later one |
| RideBoard.EditPreservesValid | cride/rides/serializers/rides.py:34-39 | storing an edited ride keeps the store invariant |
| RideBoard.CheckEnd | cride/rides/serializers/rides.py:198-203 | ending is refused exactly while the current time is at or before departure |
| RideBoard.JoinAndEndExclusive | cride/rides/serializers/rides.py:148-203 | a ride is never both joinable and endable at the same instant |
| RideBoard.EditAndEndExclusive | cride/rides/serializers/rides.py:34-39 | a ride is never both editable and endable; at the departure instant both are refused |
| RideViews.VisibleRides | cride/rides/views/rides.py:74-78 | a ride is listed exactly when it belongs to the circle, departs at least ten minutes from now and has a seat |
| RideViews.RequiredPermissions | cride/rides/views/rides.py:51-58 | every action needs authentication and active membership; edits need ownership exactly; join needs non-ownership exactly |
| RideViews.ObjectCheckRefinesViewCheck | cride/rides/views/rides.py:51-58 | passing the checks on a ride implies passing them before the ride is looked up |
| RideViews.EveryActionNeedsActiveMembership | cride/rides/views/rides.py:51-58 | an allowed request always comes from a known user who is an active member of the circle |
| RideViews.EditRequiresOwner | cride/rides/views/rides.py:54-55 | an edit is allowed exactly to the ride's offerer, when it is an active member |
| RideViews.JoinRequiresNonOwner | cride/rides/views/rides.py:56-57 | a join is allowed exactly to an active member who does not offer the ride; the offerer never may |
| RideViews.VisibleRidesAreJoinable | cride/rides/views/rides.py:74-78 | for a listed ride and an active member, a join succeeds exactly when the user is on no ride |
| RideViews.VisibleRidesAreEditable | cride/rides/views/rides.py:74-78 | the departure lock never fires on a listed ride |
| RideViews.CreatedRideIsVisible | cride/rides/serializers/rides.py:57-63 | a newly offered ride is listed at the instant it was offered |
| RatingAggregation.TotalWithinScale | cride/rides/serializers/ratings.py:16 | when every score is in 1..5, the sum of n selected scores lies between n and 5n |
| RatingAggregation.MeanWithinScale | cride/rides/serializers/ratings.py:51-63 | a mean of scores in 1..5 lies in 1..5 |
| RatingAggregation.TallyCountsEveryStoredRating | cride/rides/serializers/ratings.py:51-63 | with every id below the counter, the aggregate taken up to the counter counts every stored rating of the ride (or received by the user), and only those |
| RatingAggregation.InsertCounts | cride/rides/serializers/ratings.py:43-49 | inserting a rating under a fresh id adds its score and one to the aggregates that select it, and nothing to the others |
| RatingAggregation.CheckRating | cride/rides/serializers/ratings.py:16-37 | succeeds exactly when the score is in 1..5, the requester is a passenger and has not rated the ride; the score is checked first, then being a passenger |
| RatingAggregation.NewRating | cride/rides/serializers/ratings.py:43-49 | the stored rating is the requester's rating of the ride's offerer, in the ride's circle, with the given score |
| RatingAggregation.CommitRating | cride/rides/serializers/ratings.py:39-67 | the rating under the next id; the ride's rating and the offerer's reputation become the means over all stored ratings, which are never empty; nothing else changes |
| RatingAggregation.RatingCountsOnce | cride/rides/serializers/ratings.py:43-63 | storing a rating adds exactly one rating and its score to the ride's aggregate and to the offerer's |
| RatingAggregation.RatingMeansOnScale | cride/rides/serializers/ratings.py:51-65 | after a rating, the ride's rating and the offerer's reputation both lie in 1..5 |
| RatingAggregation.RatingPreservesValid | cride/rides/serializers/ratings.py:39-67 | storing a validated rating keeps the store invariant |
| RatingAggregation.SecondRatingRejected | cride/rides/serializers/ratings.py:32-37 | a passenger who rated a ride cannot rate it again |
| RatingAggregation.ThreeRatingsMean | cride/rides/serializers/ratings.py:51-56 | worked case: scores 5, 3 and 4 average to exactly 4 |
| Housekeeping.DisableFinished | cride/taskapp/tasks/periodic_tasks.py:19-27 | active rides arriving within the next five seconds are switched off; no other ride and no other field changes |
| Housekeeping.NoneLeftFinishing | cride/taskapp/tasks/periodic_tasks.py:24-27 | afterwards no ride in the window is active; inactive rides and rides outside the window are untouched |
| Housekeeping.DisableFinishedIdempotent | cride/taskapp/tasks/periodic_tasks.py:19-27 | a second run at the same instant changes nothing |
| Housekeeping.OnlySwitchesOff | cride/taskapp/tasks/periodic_tasks.py:27 | the job changes at most `is_active`, and a ride active afterwards was active before, unchanged |
| Housekeeping.DisableFinishedPreservesValid | cride/taskapp/tasks/periodic_tasks.py:19-27 | the job keeps the store invariant |
| Store.Database.AddMember | cride/circles/views/memberships.py:116-126 | succeeds exactly when `CheckAdmission` does, reports its error otherwise with the tables unchanged, and on success leaves the tables equal to `CommitAdmission` of the old ones, returning the new membership's id; keeps the invariant |
| Store.Database.RecordAdmission | cride/circles/serializers/memberships.py:94-123 | the writes of a validated redemption, step by step, leave the tables equal to `CommitAdmission` of the old ones |
| Store.Database.RemoveMember | cride/circles/views/memberships.py:63-79 | succeeds exactly when requester and member are both active members; on success the tables are the old ones with that membership deactivated; otherwise unchanged |
| Store.Database.MemberInvitations | cride/circles/views/memberships.py:81-114 | succeeds exactly for an active member asking about itself; then exactly the shortfall is issued with fresh codes, and the breakdown lists the invited active members and every unused code |
| Store.Database.TopUp | cride/circles/views/memberships.py:97-106 | for k at most the issuer's shortfall, issues exactly k unused invitations with nonempty codes unique in the circle, changes nothing else, returns every unused code of the issuer, and keeps the invariant |
| Store.Database.IssueOne | cride/circles/views/memberships.py:105-106 | stores one unused invitation under a nonempty code not yet used in the circle |
| Store.Database.CreateCircle | cride/utils/usecases.py:9-16 | succeeds exactly when the payload passes POST validation; on success the tables equal `CommitCreateCircle` of the old ones; otherwise they are unchanged |
| Store.Database.RecordCircle | cride/circles/usecases/create_circle.py:24-35 | the circle row and then the owner's membership leave the tables equal to `CommitCreateCircle` of the old ones |
| Store.Database.CreateRide | cride/rides/serializers/rides.py:42-110 | succeeds exactly when the permissions and `CheckCreate` pass, a refused permission giving Forbidden; on success the tables equal `CommitCreate` of the old ones; otherwise they are unchanged |
| Store.Database.JoinRide | cride/rides/views/rides.py:80-94 | succeeds exactly when the ride is listed, the requester may join it and `CheckJoin` passes; on success the tables equal `CommitJoin` of the old ones; otherwise they are unchanged |
| Store.Database.RecordJoin | cride/rides/serializers/rides.py:161-187 | the writes of a validated join, step by step, leave the tables equal to `CommitJoin` of the old ones |
| Store.Database.UpdateRide | cride/rides/serializers/rides.py:34-39 | succeeds exactly when the ride is listed and the requester owns it as an active member; on success only that ride changes, to its edited value |
| Store.Database.RateRide | cride/rides/serializers/ratings.py:24-67 | succeeds exactly when `CheckRating` does; on success the tables equal `CommitRating` of the old ones; otherwise they are unchanged |
| Store.Database.RecordRating | cride/rides/serializers/ratings.py:39-67 | the writes of a validated rating, field by field, leave the tables equal to `CommitRating` of the old ones |
| Store.Database.DisableFinishedRides | cride/taskapp/tasks/periodic_tasks.py:19-27 | only the ride table changes, to `DisableFinished` of the old one; keeps the invariant |

## Where the model follows the evident intent

Several statements of the core would fail or do nothing at run time. In each case the model
does what the surrounding code and its docstrings mean. A comment at the corresponding
Dafny member says so.

- The capacity check of a redemption (cride/circles/serializers/memberships.py:90) compares
  the method `circle.members.count` without calling it. The model counts the circle's
  membership rows, active or not.
- The issuer update (cride/circles/serializers/memberships.py:119) increments the misspelt
  `used_inviations`. Reading that attribute raises AttributeError. So as written, every
  redemption fails after the new membership and the consumed invitation are saved, and
  neither of the issuer's counters changes (`remaining_invitations` does not drop either).
  The model increments `used_invitations` and decrements `remaining_invitations`.
- The join update (cride/rides/serializers/rides.py:170) decrements the misspelt
  `avaialbe_seats`. Reading that attribute raises AttributeError. So as written, a join fails
  right after the passenger is added, and no seat count or ride counter changes. The model
  decrements `available_seats` and updates the three counters.
- The ride listing (cride/rides/views/rides.py:78) filters on `available_seats_gte`, which
  lacks the double underscore. The model lists rides with at least one seat.
- The membership test at cride/rides/serializers/rides.py:131-133 never calls `exists`, so it
  never fires. The lookup right after it (136-141) makes the same demand, so nothing is lost.
- The ride-creation check at cride/rides/serializers/rides.py:74-75 builds an error without
  raising it. The offerer is always the requesting user, so the check has nothing to catch.
- The duplicate-rating query (cride/rides/serializers/ratings.py:32) filters on `rating_by`,
  a field that does not exist. The model filters on the rating user.
- The `IsSelfMember` permission (cride/circles/permissions/invitations.py:13-19) calls
  `has_object_permission` on the membership it looked up. A membership has no such method, so
  as written the invitations action fails at its permission check for every caller, before
  the top-up runs. The model applies the intended test of that class (line 25): the requester
  must be the member looked up.
- `JoinRideSerializer.validate` and `CreateRideRatingSerializer.validate` return nothing. The
  model lets the validated data through.
- The `join` action (cride/rides/views/rides.py:80-94) never instantiates its serializer
  properly, and `get_serializer_class` maps `update` to the join serializer. The model runs
  the join checks and writes as the serializer defines them. It treats `update` and
  `partial_update` both as edits through `RideModelSerializer`, which is what the edit
  permissions of `get_permissions` expect.

The duplicate-passenger check (cride/rides/serializers/rides.py:158) is modelled as written:
a user who is a passenger of any ride, in any circle, cannot join another.

## Findings

| source | as written | input that shows it | evidently intended | confidence | as-written member | corrected member |
|---|---|---|---|---|---|---|
| cride/circles/views/memberships.py:97-106 | the unused codes come from `values_list`, and the top-up loop calls `append` on it; Python looks up `append` before evaluating its argument, and a query set has no `append`, so the first iteration fails before `Invitation.objects.create` runs (the action's `IsSelfMember` check, cride/circles/permissions/invitations.py:18-19, already fails earlier; see above) | a member with `remaining_invitations` = 10 and no unused codes (a new circle's admin): no invitation is created and the breakdown request errors, leaving 0 of 10 codes | the codes listed, topped up to `remaining_invitations` fresh unused codes | high (not executed) | MembershipRegistry.TopUpAsWrittenFallsShort | MembershipRegistry.TopUpMeetsQuota |

The rest of the model uses the corrected top-up: `Store.Database.TopUp` and
`Store.Database.MemberInvitations`.

## Left out

- Concurrency and transactions: every request is one atomic step on the store.
- Authentication: the acting user is a parameter. `Store.Database.AddMember` and
  `Store.Database.CreateCircle` require that user to exist, as the request's current user
  always does.
- The circle lookup by slug in `dispatch` (HTTP 404 for an unknown slug): store methods take
  the circle's id and require it to exist.
- HTTP plumbing: status codes, response bodies, serializer output formats, and DRF's habit of
  reporting every failing field at once. The model reports the first failing check.
- The invitation code generator, which lives in the circle models. These are not part of
  this model. Codes are chosen nondeterministically among nonempty strings not yet used in
  the circle. `MembershipRegistry.FreshCodeExists` shows that such a code always exists.
- Admission.ValidateInvitationCode: `code` is the value after DRF's `CharField` has trimmed
  surrounding whitespace (its default). The trimming itself is not modelled; the length check
  and the lookup use the trimmed value, as in the source.
- The order of the unused codes in the breakdown: the model returns them as a set.
- RatingAggregation.Mean: exact rational means. The source's float `Avg` and its rounding to
  one decimal are not modelled.
- RatingAggregation.CommitRating: does not model the stray second `Rating.objects.create` in
  the ride average (cride/rides/serializers/ratings.py:52-54). That call inserts a row with
  the default score of 1 (cride/rides/models/ratings.py:29). The request then fails, because a
  model instance has no `aggregate`. The model stores only the requested rating and averages
  the rows that exist.
- RatingAggregation.CheckRating: the rating's circle is taken to be the ride's circle. No
  rating view is part of this model, so the circle in the serializer context is not
  otherwise known.
- RideViews.Grants: the ride-owner permissions are not part of this model. They are taken to
  compare the requesting user with the ride's offerer.
- RideBoard.CheckEnd: only the time check is modelled. No view uses `EndRideSerializer`, so
  the write of `is_active` that it would permit is not modelled.
- Circle updates through the circle view (admin permission, writing a PATCH) are not modelled
  as store methods. `CircleLimits.Patched` gives the written values, and the PATCH rules are
  proved about `CircleLimits.ValidateCircle`.
- Store.Database.RemoveMember: `destroy` carries no admin check in the source, so any active
  member may remove any active member. The model keeps this.
- Circle fields that the core does not use: picture, `is_public`, `verified`. Also left out
  are the users table and accounts, the creation and modification timestamps, and the
  slug-uniqueness constraint.
- The beat schedule of the periodic job (a crontab entry): the job is a method called with
  the current time.
