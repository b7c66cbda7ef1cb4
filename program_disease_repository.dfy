/** The diseases linked to a program: batch insert, delete, and delete-then-insert
    replacement, each on a transaction or the ambient database. */
module ProgramDiseaseRepository {
  import opened Wrappers
  import opened Models
  import opened Tables
  import opened Store

  /** `programDiseaseRepository`. */
  class ProgramDiseaseRepository {
    const db: Database

    constructor (db: Database)
      ensures this.db == db
    {
      this.db := db;
    }

    /** `CreateProgramDisease`: one INSERT of the whole batch. */
    method CreateProgramDisease(tx: Database?, programDisease: seq<ProgramDiseaseRow>, fails: bool) returns (err: Option<Error>)
      modifies Handle(tx, db)`programDiseases
      ensures var r := InsertBatch(old(Handle(tx, db).programDiseases), programDisease, fails);
        Handle(tx, db).programDiseases == r.value && err == r.err
    {
      var h := Handle(tx, db);
      var r := InsertBatch(h.programDiseases, programDisease, fails);
      h.programDiseases := r.value;
      err := r.err;
    }

    /** `DeleteProgramDisease`: removes every row of the program. */
    method DeleteProgramDisease(tx: Database?, programId: Uuid, fails: bool) returns (err: Option<Error>)
      modifies Handle(tx, db)`programDiseases
      ensures var r := DeleteKey(old(Handle(tx, db).programDiseases), ProgramDiseaseKey, programId, fails);
        Handle(tx, db).programDiseases == r.value && err == r.err
    {
      var h := Handle(tx, db);
      var r := DeleteKey(h.programDiseases, ProgramDiseaseKey, programId, fails);
      h.programDiseases := r.value;
      err := r.err;
    }

    /** `UpdateProgramDisease`: deletes the program's rows, then inserts the batch;
        the two statements share no transaction of their own. */
    method UpdateProgramDisease(tx: Database?, programId: Uuid, programDisease: seq<ProgramDiseaseRow>, deleteFails: bool, createFails: bool)
      returns (err: Option<Error>)
      modifies Handle(tx, db)`programDiseases
      ensures var r := ReplaceKey(old(Handle(tx, db).programDiseases), ProgramDiseaseKey, programId, programDisease, deleteFails, createFails);
        Handle(tx, db).programDiseases == r.value && err == r.err
    {
      var h := Handle(tx, db);
      var deleted := DeleteKey(h.programDiseases, ProgramDiseaseKey, programId, deleteFails);
      if !deleted.IsOk() {
        return deleted.err;
      }
      h.programDiseases := deleted.value;
      var created := InsertBatch(h.programDiseases, programDisease, createFails);
      h.programDiseases := created.value;
      err := created.err;
    }
  }
}
