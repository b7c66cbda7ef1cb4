/** `levelServiceImpl`: creating a level under an existing, active program. */
module LevelService {
  import opened Wrappers
  import opened Models
  import opened Tables
  import opened Store
  import opened ProgramRepository
  import opened LevelRepository

  /** The level `CreateLevel` builds: a fresh id, the found program's id,
      the request's fields, and active. */
  function NewLevelRow(levelId: Uuid, programId: Uuid, name: string, description: string, pointRequire: int): LevelRow {
    LevelRow(levelId, programId, name, Some(description), pointRequire, true, None, None)
  }

  /** What the insert then stores: the hook only stamps the times, and the
      `is_active` default changes nothing. */
  lemma NewLevelStored(levelId: Uuid, programId: Uuid, name: string, description: string, pointRequire: int, now: Time)
    requires levelId != Nil
    ensures LevelStored(LevelCreated(NewLevelRow(levelId, programId, name, description, pointRequire), levelId, now)) ==
      LevelRow(levelId, programId, name, Some(description), pointRequire, true, Some(now), Some(now))
  {
  }

  class LevelService {
    const programRepo: ProgramRepository
    const levelRepo: LevelRepository

    constructor (programRepo: ProgramRepository, levelRepo: LevelRepository)
      ensures this.programRepo == programRepo && this.levelRepo == levelRepo
    {
      this.programRepo, this.levelRepo := programRepo, levelRepo;
    }

    /** `CreateLevel`: reads the program id with `parse` (`uuid.Parse`),
        requires an active program under it, then inserts one new level,
        drawn the id `newLevelId` (`uuid.New`), with a nil transaction.
        On every failure no level is returned. */
    method CreateLevel(programIdText: string, name: string, description: string, pointRequire: int,
                       parse: string -> Option<Uuid>, newLevelId: Uuid, now: Time, findFails: bool, insertFails: bool)
      returns (level: Level?, err: Option<Error>)
      requires newLevelId != Nil
      modifies levelRepo.db`levels
      ensures parse(programIdText).None? ==>
        level == null && err == Some(ProgramIdUnparsable) && levelRepo.db.levels == old(levelRepo.db.levels)
      ensures parse(programIdText).Some? && (findFails || FindActive(old(programRepo.db.programs), parse(programIdText).value).None?) ==>
        level == null && err == Some(ProgramNotFound) && levelRepo.db.levels == old(levelRepo.db.levels)
      ensures parse(programIdText).Some? && !findFails && FindActive(old(programRepo.db.programs), parse(programIdText).value).Some? ==>
        var row := LevelRow(newLevelId, parse(programIdText).value, name, Some(description), pointRequire, true, Some(now), Some(now));
        var r := InsertRow(old(levelRepo.db.levels), LevelKey, row, insertFails);
        levelRepo.db.levels == r.value && err == r.err &&
        (r.IsOk() ==> level != null && fresh(level) && level.Row() == row) &&
        (!r.IsOk() ==> level == null)
      ensures err.None? ==>
        level != null && level.isActive && level.levelId == newLevelId &&
        levelRepo.db.levels == old(levelRepo.db.levels) + [level.Row()] &&
        exists p :: p in old(programRepo.db.programs) && p.isActive && p.programId == level.programId &&
                    parse(programIdText) == Some(p.programId)
    {
      var cond := parse(programIdText);
      if cond.None? {
        return null, Some(ProgramIdUnparsable);
      }
      var program, findErr := programRepo.FindProgramByID(cond.value, findFails);
      if findErr.Some? {
        return null, Some(ProgramNotFound);
      }
      var item := new Level(NewLevelRow(newLevelId, program.value.programId, name, description, pointRequire));
      NewLevelStored(newLevelId, program.value.programId, name, description, pointRequire, now);
      var insertErr := levelRepo.InsertLevel(null, item, newLevelId, now, insertFails);
      if insertErr.Some? {
        return null, insertErr;
      }
      return item, None;
    }
  }
}
