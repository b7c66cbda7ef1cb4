/** The goals linked to a program: batch insert, delete, and delete-then-insert
    replacement, each on a transaction or the ambient database. */
module ProgramGoalRepository {
  import opened Wrappers
  import opened Models
  import opened Tables
  import opened Store

  /** `programGoalRepository`. */
  class ProgramGoalRepository {
    const db: Database

    constructor (db: Database)
      ensures this.db == db
    {
      this.db := db;
    }

    /** `CreateProgramGoal`: one INSERT of the whole batch. */
    method CreateProgramGoal(tx: Database?, programGoal: seq<ProgramGoalRow>, fails: bool) returns (err: Option<Error>)
      modifies Handle(tx, db)`programGoals
      ensures var r := InsertBatch(old(Handle(tx, db).programGoals), programGoal, fails);
        Handle(tx, db).programGoals == r.value && err == r.err
    {
      var h := Handle(tx, db);
      var r := InsertBatch(h.programGoals, programGoal, fails);
      h.programGoals := r.value;
      err := r.err;
    }

    /** `DeleteProgramGoal`: removes every row of the program. */
    method DeleteProgramGoal(tx: Database?, programId: Uuid, fails: bool) returns (err: Option<Error>)
      modifies Handle(tx, db)`programGoals
      ensures var r := DeleteKey(old(Handle(tx, db).programGoals), ProgramGoalKey, programId, fails);
        Handle(tx, db).programGoals == r.value && err == r.err
    {
      var h := Handle(tx, db);
      var r := DeleteKey(h.programGoals, ProgramGoalKey, programId, fails);
      h.programGoals := r.value;
      err := r.err;
    }

    /** `UpdateProgramGoal`: deletes the program's rows, then inserts the batch;
        the two statements share no transaction of their own. */
    method UpdateProgramGoal(tx: Database?, programId: Uuid, programGoal: seq<ProgramGoalRow>, deleteFails: bool, createFails: bool)
      returns (err: Option<Error>)
      modifies Handle(tx, db)`programGoals
      ensures var r := ReplaceKey(old(Handle(tx, db).programGoals), ProgramGoalKey, programId, programGoal, deleteFails, createFails);
        Handle(tx, db).programGoals == r.value && err == r.err
    {
      var h := Handle(tx, db);
      var deleted := DeleteKey(h.programGoals, ProgramGoalKey, programId, deleteFails);
      if !deleted.IsOk() {
        return deleted.err;
      }
      h.programGoals := deleted.value;
      var created := InsertBatch(h.programGoals, programGoal, createFails);
      h.programGoals := created.value;
      err := created.err;
    }
  }
}
