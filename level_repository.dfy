/** The levels table: insert on a transaction or the ambient database, and
    the lookup by id that answers nil for a missing level. */
module LevelRepository {
  import opened Wrappers
  import opened Models
  import opened Tables
  import opened Store

  /** An inserted level is what a lookup of its id then returns, with the
      column defaults applied, when the ids were unique before. */
  lemma InsertedLevelIsFound(rows: seq<LevelRow>, row: LevelRow)
    requires UniqueKeys(rows, LevelKey)
    requires InsertRow(rows, LevelKey, LevelStored(row), false).IsOk()
    ensures var after := InsertRow(rows, LevelKey, LevelStored(row), false).value;
      LookupKey(after, LevelKey, row.levelId, false) == Ok(Some(LevelStored(row))) && UniqueKeys(after, LevelKey)
  {
    InsertRowSpec(rows, LevelKey, LevelStored(row), false);
  }

  /** `levelRepository`. */
  class LevelRepository {
    const db: Database

    constructor (db: Database)
      ensures this.db == db
    {
      this.db := db;
    }

    /** `InsertLevel`: runs `BeforeCreate` on the struct, then inserts its
        row; the struct takes the column defaults too. */
    method InsertLevel(tx: Database?, level: Level, newId: Uuid, now: Time, fails: bool) returns (err: Option<Error>)
      requires newId != Nil
      modifies level, Handle(tx, db)`levels
      ensures level.Row() == LevelStored(LevelCreated(old(level.Row()), newId, now))
      ensures var r := InsertRow(old(Handle(tx, db).levels), LevelKey, level.Row(), fails);
        Handle(tx, db).levels == r.value && err == r.err
    {
      level.BeforeCreate(newId, now);
      level.ApplyDefaults();
      var h := Handle(tx, db);
      var r := InsertRow(h.levels, LevelKey, level.Row(), fails);
      h.levels := r.value;
      err := r.err;
    }

    /** `FindLevelByID`: nil and no error for a missing level; inactive
        levels are found too. */
    method FindLevelByID(cond: Uuid, fails: bool) returns (level: Option<LevelRow>, err: Option<Error>)
      ensures fails ==> level.None? && err == Some(DriverError)
      ensures !fails ==> err.None? && level == Find(db.levels, LevelKey, cond)
      ensures level.Some? ==> level.value in db.levels && level.value.levelId == cond
      ensures !fails && level.None? ==> forall r :: r in db.levels ==> r.levelId != cond
    {
      var r := LookupKey(db.levels, LevelKey, cond, fails);
      level, err := r.value, r.err;
    }
  }
}
