/** The users enrolled in programs: the participant count of one program. */
module UserProgramRepository {
  import opened Wrappers
  import opened Models
  import opened Tables
  import opened Store

  /** An enrolment adds one participant to its own program and none to any
      other. */
  lemma EnrolmentCounts(rows: seq<UserProgramRow>, enrolment: UserProgramRow, programId: Uuid)
    ensures Count(rows + [enrolment], UserProgramKey, programId) ==
      Count(rows, UserProgramKey, programId) + (if enrolment.programId == programId then 1 else 0)
  {
    CountAppend(rows, UserProgramKey, programId, enrolment);
  }

  /** `userProgramRepositoryImpl`. */
  class UserProgramRepository {
    const db: Database

    constructor (db: Database)
      ensures this.db == db
    {
      this.db := db;
    }

    /** `CountParticipants`: 0 and the error when the driver fails. */
    method CountParticipants(programId: Uuid, fails: bool) returns (count: int, err: Option<Error>)
      ensures fails ==> count == 0 && err == Some(DriverError)
      ensures !fails ==> err.None? && count == |Matching(db.userPrograms, UserProgramKey, programId)|
      ensures 0 <= count <= |db.userPrograms|
      ensures !fails && count == 0 ==> forall r :: r in db.userPrograms ==> r.programId != programId
    {
      var r := CountKey(db.userPrograms, UserProgramKey, programId, fails);
      count, err := r.value, r.err;
    }
  }
}
