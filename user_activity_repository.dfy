/** The users taking part in activities: the participant count of one
    activity. */
module UserActivityRepository {
  import opened Wrappers
  import opened Models
  import opened Tables
  import opened Store

  /** Taking part adds one participant to its own activity and none to any
      other. */
  lemma ParticipationCounts(rows: seq<UserActivityRow>, participation: UserActivityRow, activityId: Uuid)
    ensures Count(rows + [participation], UserActivityKey, activityId) ==
      Count(rows, UserActivityKey, activityId) + (if participation.activityId == activityId then 1 else 0)
  {
    CountAppend(rows, UserActivityKey, activityId, participation);
  }

  /** `userActivityRepository`. */
  class UserActivityRepository {
    const db: Database

    constructor (db: Database)
      ensures this.db == db
    {
      this.db := db;
    }

    /** `CountParticipants`: 0 and the error when the driver fails. */
    method CountParticipants(cond: Uuid, fails: bool) returns (count: int, err: Option<Error>)
      ensures fails ==> count == 0 && err == Some(DriverError)
      ensures !fails ==> err.None? && count == |Matching(db.userActivities, UserActivityKey, cond)|
      ensures 0 <= count <= |db.userActivities|
      ensures !fails && count == 0 ==> forall r :: r in db.userActivities ==> r.activityId != cond
    {
      var r := CountKey(db.userActivities, UserActivityKey, cond, fails);
      count, err := r.value, r.err;
    }
  }
}
