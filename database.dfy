/** The PostgreSQL database the repositories share, one sequence of rows per
    table, and the convention by which a repository method runs either on a
    transaction it is handed or, when that is nil, on its own connection. */
module Store {
  import opened Models

  /** A database, or a transaction on one: a transaction is a working copy
      whose tables the statements run in it update. */
  class Database {
    var accounts: seq<AccountRow>
    var programs: seq<ProgramRow>
    var levels: seq<LevelRow>
    var activities: seq<ActivityRow>
    var repeatDays: seq<RepeatDayRow>
    var programDiseases: seq<ProgramDiseaseRow>
    var programGoals: seq<ProgramGoalRow>
    var userPrograms: seq<UserProgramRow>
    var userActivities: seq<UserActivityRow>

    constructor ()
      ensures accounts == [] && programs == [] && levels == [] && activities == []
      ensures repeatDays == [] && programDiseases == [] && programGoals == []
      ensures userPrograms == [] && userActivities == []
    {
      accounts, programs, levels, activities := [], [], [], [];
      repeatDays, programDiseases, programGoals := [], [], [];
      userPrograms, userActivities := [], [];
    }
  }

  /** `db := tx; if db == nil { db = r.db }`. */
  function Handle(tx: Database?, db: Database): (h: Database)
    ensures tx == null ==> h == db
    ensures tx != null ==> h == tx
  {
    if tx == null then db else tx
  }
}
