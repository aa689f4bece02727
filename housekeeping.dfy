/** The periodic job that retires finished rides: every active ride whose arrival falls within
    the next five seconds is switched off in one bulk update. */
module Housekeeping {
  import opened Tables

  /** Width of the arrival window, in seconds. */
  const FinishWindow: int := 5

  /** The filter of the job: active, arriving no earlier than now and no later than the window. */
  predicate Finishing(r: Ride, now: Time) {
    r.isActive && now <= r.arrivalDate <= now + FinishWindow
  }

  /** `disable_finished_rides`: the filtered rides get `is_active = false`; no other field and no
      other ride is written. */
  function DisableFinished(rides: map<Id, Ride>, now: Time): (after: map<Id, Ride>)
    ensures after.Keys == rides.Keys
    ensures forall id :: id in rides && Finishing(rides[id], now) ==> after[id] == rides[id].(isActive := false)
    ensures forall id :: id in rides && !Finishing(rides[id], now) ==> after[id] == rides[id]
  {
    map id | id in rides :: if Finishing(rides[id], now) then rides[id].(isActive := false) else rides[id]
  }

  /** After the job no ride is left in the window still active, and every ride that was inactive
      or outside the window is untouched. */
  lemma NoneLeftFinishing(rides: map<Id, Ride>, now: Time)
    ensures var after := DisableFinished(rides, now);
      && (forall id :: id in after ==> !Finishing(after[id], now))
      && (forall id :: id in rides && !rides[id].isActive ==> after[id] == rides[id])
      && (forall id :: id in rides && (rides[id].arrivalDate < now || rides[id].arrivalDate > now + FinishWindow) ==>
            after[id] == rides[id])
  {
  }

  /** Running the job twice at the same instant has the effect of running it once. */
  lemma DisableFinishedIdempotent(rides: map<Id, Ride>, now: Time)
    ensures DisableFinished(DisableFinished(rides, now), now) == DisableFinished(rides, now)
  {
    var once := DisableFinished(rides, now);
    assert forall id :: id in once ==> !Finishing(once[id], now);
  }

  /** The job only ever switches rides off: a ride active afterwards was active before, with every
      field as it was. */
  lemma OnlySwitchesOff(rides: map<Id, Ride>, now: Time)
    ensures var after := DisableFinished(rides, now);
      forall id :: id in after ==>
        && after[id] == rides[id].(isActive := after[id].isActive)
        && (after[id].isActive ==> after[id] == rides[id])
  {
  }

  /** The job keeps the store invariant. */
  lemma DisableFinishedPreservesValid(db: Db, now: Time)
    requires Valid(db)
    ensures Valid(db.(rides := DisableFinished(db.rides, now)))
  {
    ValidUnderRelink(db, db.(rides := DisableFinished(db.rides, now)));
  }
}
