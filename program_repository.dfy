/** The programs table: insert, the active-only lookup, the paged listing
    of an expert's programs, update, delete, and deactivation. */
module ProgramRepository {
  import opened Wrappers
  import opened Models
  import opened Tables
  import opened Store
  import opened Paging

  /** The column name `DeactiveProgram` passes to `Update`: the whole
      condition text instead of `is_active`. */
  const DeactiveColumn := "is_active = ?"

  predicate IsActiveProgram(r: ProgramRow) { r.isActive }
  function ProgramCreatedAt(r: ProgramRow): Option<Time> { r.createdAt }

  /** `Where("program_id = ? AND is_active = ?", id, true).First(...)`. */
  function FindActive(rows: seq<ProgramRow>, id: Uuid): Option<ProgramRow> {
    Find(Where(rows, IsActiveProgram), ProgramKey, id)
  }

  /** The lookup finds an active program under `id` when there is one, and
      nothing exactly when every program under `id` is inactive (or there
      is none). */
  lemma FindActiveSpec(rows: seq<ProgramRow>, id: Uuid)
    ensures var r := FindActive(rows, id);
      r.Some? ==> r.value in rows && r.value.programId == id && r.value.isActive
    ensures FindActive(rows, id).None? <==> forall r :: r in rows && r.programId == id ==> !r.isActive
  {
  }

  /** What `Updates(item)` writes on one row: every non-zero field of the
      struct except the primary key. */
  function PatchProgram(r: ProgramRow, item: ProgramRow): ProgramRow {
    r.(title := OrKeep(item.title, "", r.title),
       description := OrKeep(item.description, "", r.description),
       duration := OrKeep(item.duration, 0, r.duration),
       isActive := OrKeep(item.isActive, false, r.isActive),
       createdAt := OrKeep(item.createdAt, None, r.createdAt),
       updatedAt := OrKeep(item.updatedAt, None, r.updatedAt),
       createdBy := OrKeep(item.createdBy, Nil, r.createdBy))
  }

  /** A patch keeps the row's id, writes exactly the non-zero fields, and so
      can never set `is_active` to false. */
  lemma PatchProgramSpec(r: ProgramRow, item: ProgramRow)
    ensures PatchProgram(r, item).programId == r.programId
    ensures item.title != "" ==> PatchProgram(r, item).title == item.title
    ensures item.title == "" ==> PatchProgram(r, item).title == r.title
    ensures item.duration != 0 ==> PatchProgram(r, item).duration == item.duration
    ensures item.duration == 0 ==> PatchProgram(r, item).duration == r.duration
    ensures !item.isActive ==> PatchProgram(r, item).isActive == r.isActive
    ensures item.updatedAt.Some? ==> PatchProgram(r, item).updatedAt == item.updatedAt
    ensures PatchProgram(r, ProgramRow(Nil, "", "", 0, false, None, None, Nil)) == r
  {
  }

  /** `Where("program_id = ?", cond).Updates(item)`: GORM also filters on
      the struct's own primary key when it is not nil, so an item carrying
      another id updates nothing. */
  function UpdateProgram(rows: seq<ProgramRow>, cond: Uuid, item: ProgramRow, fails: bool): Ret<seq<ProgramRow>> {
    if fails then Fail(rows, DriverError)
    else if item.programId != Nil && item.programId != cond then Ok(rows)
    else Ok(UpdateWhere(rows, ProgramKey, cond, PatchProgram, item))
  }

  /** The update keeps the number of rows, the rows of every other program
      and the uniqueness of ids, and patches each row under `cond`. */
  lemma UpdateProgramSpec(rows: seq<ProgramRow>, cond: Uuid, item: ProgramRow, fails: bool, other: Uuid)
    requires other != cond
    ensures |UpdateProgram(rows, cond, item, fails).value| == |rows|
    ensures Matching(UpdateProgram(rows, cond, item, fails).value, ProgramKey, other) == Matching(rows, ProgramKey, other)
    ensures UniqueKeys(rows, ProgramKey) ==> UniqueKeys(UpdateProgram(rows, cond, item, fails).value, ProgramKey)
    ensures UpdateProgram(rows, cond, item, fails).IsOk() <==> !fails
    ensures var r := UpdateProgram(rows, cond, item, fails).value;
      !fails && (item.programId == Nil || item.programId == cond) ==>
        forall i :: 0 <= i < |rows| && rows[i].programId == cond ==> r[i] == PatchProgram(rows[i], item)
  {
    if !fails && (item.programId == Nil || item.programId == cond) {
      UpdateWhereOthers(rows, ProgramKey, cond, PatchProgram, item, other);
      if UniqueKeys(rows, ProgramKey) {
        UpdateWhereUnique(rows, ProgramKey, cond, PatchProgram, item);
      }
    }
  }

  /** `Update("is_active = ?", false)` as written: GORM quotes the text as
      one column name, which the table does not have, so the statement
      always fails and no row changes. */
  function DeactiveProgramAsWritten(rows: seq<ProgramRow>, id: Uuid, fails: bool): Ret<seq<ProgramRow>> {
    Fail(rows, if fails then DriverError else UndefinedColumn(DeactiveColumn))
  }

  function SetProgramActive(r: ProgramRow, active: bool): ProgramRow {
    r.(isActive := active)
  }

  /** `Update("is_active", false)`: what the method is meant to do. */
  function DeactivateProgram(rows: seq<ProgramRow>, id: Uuid, fails: bool): Ret<seq<ProgramRow>> {
    if fails then Fail(rows, DriverError)
    else Ok(UpdateWhere(rows, ProgramKey, id, SetProgramActive, false))
  }

  /** As written, deactivation never succeeds and an active program stays
      visible to `FindProgramByID`. */
  lemma DeactiveProgramKeepsProgramVisible(rows: seq<ProgramRow>, id: Uuid, fails: bool)
    ensures !DeactiveProgramAsWritten(rows, id, fails).IsOk()
    ensures FindActive(DeactiveProgramAsWritten(rows, id, fails).value, id) == FindActive(rows, id)
  {
  }

  /** The intended deactivation hides the program from `FindProgramByID`
      without deleting it, and leaves every other program as it was. */
  lemma DeactivateProgramHides(rows: seq<ProgramRow>, id: Uuid, other: Uuid)
    requires other != id
    ensures DeactivateProgram(rows, id, false).IsOk()
    ensures FindActive(DeactivateProgram(rows, id, false).value, id).None?
    ensures |DeactivateProgram(rows, id, false).value| == |rows|
    ensures Count(DeactivateProgram(rows, id, false).value, ProgramKey, id) == Count(rows, ProgramKey, id)
    ensures Matching(DeactivateProgram(rows, id, false).value, ProgramKey, other) == Matching(rows, ProgramKey, other)
  {
    var r := DeactivateProgram(rows, id, false).value;
    UpdateWhereOthers(rows, ProgramKey, id, SetProgramActive, false, other);
    forall x | x in r && x.programId == id ensures !x.isActive {
      var i :| 0 <= i < |r| && r[i] == x;
    }
    UpdateWhereCount(rows, ProgramKey, id, SetProgramActive, false, id);
  }

  /** `programRepositoryImpl`. */
  class ProgramRepository {
    const db: Database

    constructor (db: Database)
      ensures this.db == db
    {
      this.db := db;
    }

    /** `InsertProgram`: runs `BeforeCreate` on the struct, then inserts its
        row on the transaction, or on the repository's database when `tx`
        is nil; the struct takes the column defaults too. */
    method InsertProgram(tx: Database?, item: Program, newId: Uuid, now: Time, fails: bool) returns (err: Option<Error>)
      requires newId != Nil
      modifies item, Handle(tx, db)`programs
      ensures item.Row() == ProgramStored(ProgramCreated(old(item.Row()), newId, now))
      ensures var r := InsertRow(old(Handle(tx, db).programs), ProgramKey, item.Row(), fails);
        Handle(tx, db).programs == r.value && err == r.err
    {
      item.BeforeCreate(newId, now);
      item.ApplyDefaults();
      var h := Handle(tx, db);
      var r := InsertRow(h.programs, ProgramKey, item.Row(), fails);
      h.programs := r.value;
      err := r.err;
    }

    /** `FindProgramByID`: only an active program is found; a missing or
        inactive one is `gorm.ErrRecordNotFound`, not `(nil, nil)`. */
    method FindProgramByID(cond: Uuid, fails: bool) returns (program: Option<ProgramRow>, err: Option<Error>)
      ensures fails ==> program.None? && err == Some(DriverError)
      ensures !fails ==> program == FindActive(db.programs, cond)
      ensures !fails && program.None? ==> err == Some(RecordNotFound)
      ensures program.Some? <==> err.None?
      ensures program.Some? ==> program.value in db.programs && program.value.programId == cond && program.value.isActive
    {
      if fails {
        return None, Some(DriverError);
      }
      FindActiveSpec(db.programs, cond);
      program := FindActive(db.programs, cond);
      err := if program.None? then Some(RecordNotFound) else None;
    }

    /** `FindProgramsByExpertID`: counts the rows matching `cond` into
        `paging.Total`, then returns the page of them newest first. */
    method FindProgramsByExpertID(cond: ProgramRow -> bool, paging: Paging, countFails: bool, findFails: bool)
      returns (programs: seq<ProgramRow>, err: Option<Error>)
      modifies paging`total
      ensures countFails ==> programs == [] && err == Some(DriverError) && paging.total == old(paging.total)
      ensures !countFails ==> paging.total == |Where(db.programs, cond)|
      ensures !countFails && findFails ==> programs == [] && err == Some(DriverError)
      ensures !countFails && !findFails ==>
        err == None && programs == ListDesc(db.programs, cond, ProgramCreatedAt, paging.page, paging.limit)
    {
      if countFails {
        return [], Some(DriverError);
      }
      paging.total := |Where(db.programs, cond)|;
      if findFails {
        return [], Some(DriverError);
      }
      programs := ListDesc(db.programs, cond, ProgramCreatedAt, paging.page, paging.limit);
      err := None;
    }

    /** `DeactiveProgram`, as written: it always reports an error and
        changes nothing. */
    method DeactiveProgram(programId: Uuid, fails: bool) returns (err: Option<Error>)
      ensures err == DeactiveProgramAsWritten(db.programs, programId, fails).err
      ensures err.Some?
    {
      err := DeactiveProgramAsWritten(db.programs, programId, fails).err;
    }

    /** `DeactiveProgram` with the column named `is_active`. */
    method DeactiveProgramCorrected(programId: Uuid, fails: bool) returns (err: Option<Error>)
      modifies db`programs
      ensures var r := DeactivateProgram(old(db.programs), programId, fails);
        db.programs == r.value && err == r.err
    {
      var r := DeactivateProgram(db.programs, programId, fails);
      db.programs := r.value;
      err := r.err;
    }

    /** `DeleteProgramByID`: removes the rows under that id. */
    method DeleteProgramByID(tx: Database?, programId: Uuid, fails: bool) returns (err: Option<Error>)
      modifies Handle(tx, db)`programs
      ensures var r := DeleteKey(old(Handle(tx, db).programs), ProgramKey, programId, fails);
        Handle(tx, db).programs == r.value && err == r.err
    {
      var h := Handle(tx, db);
      var r := DeleteKey(h.programs, ProgramKey, programId, fails);
      h.programs := r.value;
      err := r.err;
    }

    /** `UpdateProgramByID`: runs `BeforeUpdate` on the struct, then writes
        its non-zero fields on the row under `cond`. */
    method UpdateProgramByID(tx: Database?, cond: Uuid, item: Program, now: Time, fails: bool) returns (err: Option<Error>)
      modifies item, Handle(tx, db)`programs
      ensures item.Row() == ProgramUpdated(old(item.Row()), now)
      ensures var r := UpdateProgram(old(Handle(tx, db).programs), cond, item.Row(), fails);
        Handle(tx, db).programs == r.value && err == r.err
    {
      item.BeforeUpdate(now);
      var h := Handle(tx, db);
      var r := UpdateProgram(h.programs, cond, item.Row(), fails);
      h.programs := r.value;
      err := r.err;
    }
  }
}
