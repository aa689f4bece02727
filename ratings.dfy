/** Rating a ride: only a passenger may rate, once per ride; storing the rating recomputes the
    ride's mean rating and the offerer's reputation.  Means are exact quotients of integer sums;
    the float average and the rounding to one decimal of the source are not modelled. */
module RatingAggregation {
  import opened Tables

  const MinRating: int := 1
  const MaxRating: int := 5

  datatype RatingError = ValueOutOfRange | NotPassenger | AlreadyRated

  /** Which ratings an aggregate runs over: those of one ride, or those one user received. */
  datatype Selector = OfRide(ride: Id) | OfRatedUser(user: UserId)

  predicate Selects(sel: Selector, r: Rating) {
    match sel
    case OfRide(id) => r.ride == id
    case OfRatedUser(u) => r.ratedUser == u
  }

  /** Sum of the selected rating values among the ids below `n`. */
  function Total(ratings: map<Id, Rating>, sel: Selector, n: nat): int {
    if n == 0 then 0
    else Total(ratings, sel, n - 1) + (if n - 1 in ratings && Selects(sel, ratings[n - 1]) then ratings[n - 1].value else 0)
  }

  /** Number of selected ratings among the ids below `n`. */
  function Tally(ratings: map<Id, Rating>, sel: Selector, n: nat): nat {
    if n == 0 then 0
    else Tally(ratings, sel, n - 1) + (if n - 1 in ratings && Selects(sel, ratings[n - 1]) then 1 else 0)
  }

  /** `Avg('rating')` over the selected ratings, as an exact rational. */
  function Mean(ratings: map<Id, Rating>, sel: Selector, n: nat): real
    requires Tally(ratings, sel, n) > 0
  {
    Total(ratings, sel, n) as real / Tally(ratings, sel, n) as real
  }

  ghost predicate ValuesOnScale(ratings: map<Id, Rating>) {
    forall id :: id in ratings ==> MinRating <= ratings[id].value <= MaxRating
  }

  /** Every selected value lies on the scale, so the sum lies between the tally times the lowest
      and the tally times the highest score. */
  lemma {:induction false} TotalWithinScale(ratings: map<Id, Rating>, sel: Selector, n: nat)
    requires ValuesOnScale(ratings)
    ensures MinRating * Tally(ratings, sel, n) <= Total(ratings, sel, n) <= MaxRating * Tally(ratings, sel, n)
  {
    if n > 0 {
      TotalWithinScale(ratings, sel, n - 1);
    }
  }

  /** A mean of on-scale values is itself on the scale. */
  lemma MeanWithinScale(ratings: map<Id, Rating>, sel: Selector, n: nat)
    requires ValuesOnScale(ratings) && Tally(ratings, sel, n) > 0
    ensures MinRating as real <= Mean(ratings, sel, n) <= MaxRating as real
  {
    TotalWithinScale(ratings, sel, n);
    var t := Total(ratings, sel, n) as real;
    var k := Tally(ratings, sel, n) as real;
    assert MinRating as real * k <= t <= MaxRating as real * k;
    QuotientBetween(t, k, MinRating as real, MaxRating as real);
  }

  lemma QuotientBetween(t: real, k: real, lo: real, hi: real)
    requires k > 0.0 && lo * k <= t <= hi * k
    ensures lo <= t / k <= hi
  {
  }

  /** Aggregates over ids below `n` see only those ids. */
  lemma {:induction false} AggregatesAgreeBelow(a: map<Id, Rating>, b: map<Id, Rating>, sel: Selector, n: nat)
    requires forall id :: 0 <= id < n ==> (id in a <==> id in b)
    requires forall id :: 0 <= id < n && id in a ==> a[id] == b[id]
    ensures Total(a, sel, n) == Total(b, sel, n) && Tally(a, sel, n) == Tally(b, sel, n)
  {
    if n > 0 {
      AggregatesAgreeBelow(a, b, sel, n - 1);
    }
  }

  /** Inserting one rating under a fresh id below `n` adds its value and one to the aggregates
      that select it and leaves the others alone. */
  lemma {:induction false} InsertCounts(ratings: map<Id, Rating>, sel: Selector, n: nat, k: Id, r: Rating)
    requires k !in ratings && k < n
    ensures Total(ratings[k := r], sel, n) == Total(ratings, sel, n) + (if Selects(sel, r) then r.value else 0)
    ensures Tally(ratings[k := r], sel, n) == Tally(ratings, sel, n) + (if Selects(sel, r) then 1 else 0)
  {
    if n - 1 == k {
      AggregatesAgreeBelow(ratings[k := r], ratings, sel, n - 1);
    } else {
      InsertCounts(ratings, sel, n - 1, k, r);
    }
  }

  /** The ids below `n` of the ratings a selector picks. */
  function SelectedBelow(ratings: map<Id, Rating>, sel: Selector, n: nat): set<Id> {
    set id | id in ratings && id < n && Selects(sel, ratings[id])
  }

  /** `Tally` counts exactly the selected ratings with ids below `n`. */
  lemma {:induction false} TallyIsSelectedBelow(ratings: map<Id, Rating>, sel: Selector, n: nat)
    ensures Tally(ratings, sel, n) == |SelectedBelow(ratings, sel, n)|
  {
    if n > 0 {
      TallyIsSelectedBelow(ratings, sel, n - 1);
      if n - 1 in ratings && Selects(sel, ratings[n - 1]) {
        assert SelectedBelow(ratings, sel, n) == SelectedBelow(ratings, sel, n - 1) + {n - 1};
      } else {
        assert SelectedBelow(ratings, sel, n) == SelectedBelow(ratings, sel, n - 1);
      }
    }
  }

  /** Every stored id lies below the id counter, so an aggregate taken up to the counter runs
      over every stored rating that the selector picks: for a ride, all its ratings; for a user,
      all the ratings it received. */
  lemma TallyCountsEveryStoredRating(db: Db, sel: Selector)
    requires IdsBelowNext(db)
    ensures Tally(db.ratings, sel, db.nextId) == |set id | id in db.ratings && Selects(sel, db.ratings[id])|
  {
    TallyIsSelectedBelow(db.ratings, sel, db.nextId);
    assert SelectedBelow(db.ratings, sel, db.nextId) == set id | id in db.ratings && Selects(sel, db.ratings[id]);
  }

  /** Whether `user` has already rated the ride in its circle (the duplicate check filters on the
      rating user; the source names the field `rating_by`, which does not exist, and the intended
      `rating_user` is modelled). */
  predicate AlreadyRatedBy(db: Db, ride: Id, user: UserId)
    requires ride in db.rides
  {
    exists id :: id in db.ratings && db.ratings[id].ratingUser == user &&
      db.ratings[id].ride == ride && db.ratings[id].circle == db.rides[ride].circle
  }

  /** `CreateRideRatingSerializer` validation: the score on the scale, the requester among the
      passengers, and no earlier rating by the requester for this ride. */
  function CheckRating(db: Db, ride: Id, user: UserId, value: int): (r: Result<int, RatingError>)
    requires ride in db.rides
    ensures r.Success? <==>
      MinRating <= value <= MaxRating && user in db.rides[ride].passengers && !AlreadyRatedBy(db, ride, user)
    ensures r.Success? ==> r.value == value
    ensures !(MinRating <= value <= MaxRating) ==> r == Failure(ValueOutOfRange)
    ensures MinRating <= value <= MaxRating && user !in db.rides[ride].passengers ==> r == Failure(NotPassenger)
  {
    if !(MinRating <= value <= MaxRating) then Failure(ValueOutOfRange)
    else if user !in db.rides[ride].passengers then Failure(NotPassenger)
    else if AlreadyRatedBy(db, ride, user) then Failure(AlreadyRated)
    else Success(value)
  }

  /** The rating row a successful request stores: the requester rates the ride's offerer. */
  function NewRating(db: Db, ride: Id, user: UserId, value: int, comments: string): (r: Rating)
    requires ride in db.rides
    ensures r.ride == ride && r.circle == db.rides[ride].circle
    ensures r.ratingUser == user && r.ratedUser == db.rides[ride].offeredBy && r.value == value
  {
    Rating(db.rides[ride].circle, ride, user, db.rides[ride].offeredBy, comments, value)
  }

  /** `CreateRideRatingSerializer.create`: the rating is stored under the next id, then the ride's
      mean and the offerer's reputation are recomputed over every stored rating, the new one
      included.  The source also creates a second, empty rating row before averaging; that row is
      not modelled. */
  function CommitRating(db: Db, ride: Id, user: UserId, value: int, comments: string): (after: Db)
    requires ride in db.rides && db.rides[ride].offeredBy in db.profiles
    requires db.nextId !in db.ratings
    ensures after.nextId == db.nextId + 1
    ensures after.ratings == db.ratings[db.nextId := NewRating(db, ride, user, value, comments)]
    ensures Tally(after.ratings, OfRide(ride), after.nextId) >= 1
    ensures Tally(after.ratings, OfRatedUser(db.rides[ride].offeredBy), after.nextId) >= 1
    ensures after.rides == db.rides[ride := db.rides[ride].(rating := Some(Mean(after.ratings, OfRide(ride), after.nextId)))]
    ensures var offerer := db.rides[ride].offeredBy;
      after.profiles == db.profiles[offerer := db.profiles[offerer].(
        reputation := Mean(after.ratings, OfRatedUser(offerer), after.nextId))]
    ensures after.circles == db.circles && after.memberships == db.memberships && after.invitations == db.invitations
  {
    var r := NewRating(db, ride, user, value, comments);
    var ratings := db.ratings[db.nextId := r];
    var n := db.nextId + 1;
    var offerer := db.rides[ride].offeredBy;
    InsertCounts(db.ratings, OfRide(ride), n, db.nextId, r);
    InsertCounts(db.ratings, OfRatedUser(offerer), n, db.nextId, r);
    db.(ratings := ratings,
        rides := db.rides[ride := db.rides[ride].(rating := Some(Mean(ratings, OfRide(ride), n)))],
        profiles := db.profiles[offerer := db.profiles[offerer].(reputation := Mean(ratings, OfRatedUser(offerer), n))],
        nextId := n)
  }

  /** Storing a rating adds exactly one rating to the ride and one to the offerer, with the given
      value. */
  lemma RatingCountsOnce(db: Db, ride: Id, user: UserId, value: int, comments: string)
    requires Valid(db) && ride in db.rides
    ensures db.rides[ride].offeredBy in db.profiles && db.nextId !in db.ratings
    ensures var after := CommitRating(db, ride, user, value, comments);
      var offerer := db.rides[ride].offeredBy;
      && Tally(after.ratings, OfRide(ride), after.nextId) == Tally(db.ratings, OfRide(ride), db.nextId) + 1
      && Total(after.ratings, OfRide(ride), after.nextId) == Total(db.ratings, OfRide(ride), db.nextId) + value
      && Tally(after.ratings, OfRatedUser(offerer), after.nextId) == Tally(db.ratings, OfRatedUser(offerer), db.nextId) + 1
      && Total(after.ratings, OfRatedUser(offerer), after.nextId) == Total(db.ratings, OfRatedUser(offerer), db.nextId) + value
  {
    var r := NewRating(db, ride, user, value, comments);
    var offerer := db.rides[ride].offeredBy;
    InsertCounts(db.ratings, OfRide(ride), db.nextId + 1, db.nextId, r);
    InsertCounts(db.ratings, OfRatedUser(offerer), db.nextId + 1, db.nextId, r);
    assert Total(db.ratings, OfRide(ride), db.nextId + 1) == Total(db.ratings, OfRide(ride), db.nextId);
    assert Total(db.ratings, OfRatedUser(offerer), db.nextId + 1) == Total(db.ratings, OfRatedUser(offerer), db.nextId);
  }

  /** After a rating is stored, both recomputed means lie on the 1..5 scale. */
  lemma RatingMeansOnScale(db: Db, ride: Id, user: UserId, value: int, comments: string)
    requires Valid(db) && ride in db.rides
    requires CheckRating(db, ride, user, value).Success?
    ensures db.rides[ride].offeredBy in db.profiles && db.nextId !in db.ratings
    ensures var after := CommitRating(db, ride, user, value, comments);
      var offerer := db.rides[ride].offeredBy;
      && after.rides[ride].rating.Some?
      && MinRating as real <= after.rides[ride].rating.value <= MaxRating as real
      && MinRating as real <= after.profiles[offerer].reputation <= MaxRating as real
  {
    var after := CommitRating(db, ride, user, value, comments);
    assert ValuesOnScale(after.ratings);
    MeanWithinScale(after.ratings, OfRide(ride), after.nextId);
    MeanWithinScale(after.ratings, OfRatedUser(db.rides[ride].offeredBy), after.nextId);
  }

  /** Storing a rating keeps the store invariant. */
  lemma RatingPreservesValid(db: Db, ride: Id, user: UserId, value: int, comments: string)
    requires Valid(db) && ride in db.rides
    requires CheckRating(db, ride, user, value).Success?
    ensures db.rides[ride].offeredBy in db.profiles && db.nextId !in db.ratings
    ensures Valid(CommitRating(db, ride, user, value, comments))
  {
    var after := CommitRating(db, ride, user, value, comments);
    var relinked := after.(ratings := db.ratings, nextId := db.nextId);
    ValidUnderRelink(db, relinked);
  }

  /** A passenger who has rated a ride cannot rate it again. */
  lemma SecondRatingRejected(db: Db, ride: Id, user: UserId, value: int, comments: string, again: int)
    requires Valid(db) && ride in db.rides
    requires CheckRating(db, ride, user, value).Success?
    requires MinRating <= again <= MaxRating
    ensures db.rides[ride].offeredBy in db.profiles && db.nextId !in db.ratings
    ensures var after := CommitRating(db, ride, user, value, comments);
      ride in after.rides && CheckRating(after, ride, user, again) == Failure(AlreadyRated)
  {
    var after := CommitRating(db, ride, user, value, comments);
    assert after.ratings[db.nextId].ratingUser == user;
    assert AlreadyRatedBy(after, ride, user);
  }

  /** Three ratings of 5, 3 and 4 give the ride a mean of exactly 4. */
  lemma ThreeRatingsMean()
    ensures var ratings := map[0 := Rating(1, 2, 10, 20, "", 5), 1 := Rating(1, 2, 11, 20, "", 3),
                               2 := Rating(1, 2, 12, 20, "", 4)];
      Tally(ratings, OfRide(2), 3) == 3 && Mean(ratings, OfRide(2), 3) == 4.0
  {
    var ratings := map[0 := Rating(1, 2, 10, 20, "", 5), 1 := Rating(1, 2, 11, 20, "", 3),
                       2 := Rating(1, 2, 12, 20, "", 4)];
    assert Total(ratings, OfRide(2), 1) == 5;
    assert Total(ratings, OfRide(2), 2) == 8;
    assert Total(ratings, OfRide(2), 3) == 12;
    assert Tally(ratings, OfRide(2), 2) == 2;
  }
}
