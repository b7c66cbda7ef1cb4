/** The persisted entities of the program tree and of accounts, and the GORM
    `BeforeCreate`/`BeforeUpdate` hooks that fill in their ids and
    timestamps.

    Each entity is a `datatype` row (what a table stores and a query
    returns) and, where a hook updates the Go struct in place, a `class`
    with the struct's fields whose `Row()` is that value. Each hook is
    specified by a function on rows; the lemmas about those functions state
    what the hooks promise (ids assigned only when nil, timestamps only when
    unset, nothing else touched, a second call changes nothing). */
module Models {
  import opened Wrappers
  import ActivityTypeEnum
  import WeekDayEnum

  /** A `uuid.UUID`; `Nil` is the all-zero UUID. `uuid.New()` never returns
      `Nil`, so a fresh id is any other value, passed in by the caller. */
  type Uuid = nat
  const Nil: Uuid := 0

  /** A `time.Time` instant; a `*time.Time` field is an `Option<Time>`. */
  type Time = int

  // ----- the two assignments every hook is made of -----

  /** `if id == uuid.Nil { id = uuid.New() }`, with the new id passed in. */
  function AssignIfNil(id: Uuid, newId: Uuid): (r: Uuid)
    requires newId != Nil
    ensures r != Nil
    ensures id != Nil ==> r == id
    ensures id == Nil ==> r == newId
  {
    if id == Nil then newId else id
  }

  /** `if t == nil { now := time.Now(); t = &now }`. */
  function StampIfUnset(t: Option<Time>, now: Time): (r: Option<Time>)
    ensures r.Some?
    ensures t.Some? ==> r == t
    ensures t.None? ==> r == Some(now)
  {
    if t.None? then Some(now) else t
  }

  /** Once assigned, an id survives every later assignment. */
  lemma AssignIfNilIdempotent(id: Uuid, newId: Uuid, later: Uuid)
    requires newId != Nil && later != Nil
    ensures AssignIfNil(AssignIfNil(id, newId), later) == AssignIfNil(id, newId)
  {
  }

  /** Once set, a timestamp survives every later stamp. */
  lemma StampIfUnsetIdempotent(t: Option<Time>, now: Time, later: Time)
    ensures StampIfUnset(StampIfUnset(t, now), later) == StampIfUnset(t, now)
  {
  }

  /** A column GORM writes only when the struct's value is not the zero
      value of its type: otherwise the column keeps `current` (on an
      update) or takes its default (on an insert). */
  function OrKeep<T(==)>(value: T, zero: T, current: T): (r: T)
    ensures value != zero ==> r == value
    ensures value == zero ==> r == current
  {
    if value != zero then value else current
  }

  // ----- programs -----

  datatype ProgramRow = ProgramRow(
    programId: Uuid, title: string, description: string, duration: int,
    isActive: bool, createdAt: Option<Time>, updatedAt: Option<Time>, createdBy: Uuid)

  function ProgramKey(r: ProgramRow): Uuid { r.programId }

  /** The row after `Program.BeforeCreate`. */
  function ProgramCreated(p: ProgramRow, newId: Uuid, now: Time): ProgramRow
    requires newId != Nil
  {
    p.(programId := AssignIfNil(p.programId, newId),
       createdAt := StampIfUnset(p.createdAt, now),
       updatedAt := StampIfUnset(p.updatedAt, now))
  }

  /** `BeforeCreate` leaves the id and both timestamps set, keeps an id or a
      timestamp that was already set, and changes no other column. */
  lemma ProgramCreatedFields(p: ProgramRow, newId: Uuid, now: Time)
    requires newId != Nil
    ensures ProgramCreated(p, newId, now).programId != Nil
    ensures p.programId != Nil ==> ProgramCreated(p, newId, now).programId == p.programId
    ensures p.programId == Nil ==> ProgramCreated(p, newId, now).programId == newId
    ensures p.createdAt.Some? ==> ProgramCreated(p, newId, now).createdAt == p.createdAt
    ensures p.updatedAt.Some? ==> ProgramCreated(p, newId, now).updatedAt == p.updatedAt
    ensures ProgramCreated(p, newId, now).createdAt.Some? && ProgramCreated(p, newId, now).updatedAt.Some?
    ensures ProgramCreated(p, newId, now).(programId := p.programId, createdAt := p.createdAt, updatedAt := p.updatedAt) == p
  {
  }

  lemma ProgramCreatedIdempotent(p: ProgramRow, newId: Uuid, now: Time, newId2: Uuid, now2: Time)
    requires newId != Nil && newId2 != Nil
    ensures ProgramCreated(ProgramCreated(p, newId, now), newId2, now2) == ProgramCreated(p, newId, now)
  {
  }

  /** The row after `Program.BeforeUpdate`. */
  function ProgramUpdated(p: ProgramRow, now: Time): ProgramRow {
    p.(updatedAt := Some(now))
  }

  /** `BeforeUpdate` always moves `UpdatedAt` to now, touches nothing else,
      and the last of several calls decides the stamp. */
  lemma ProgramUpdatedFields(p: ProgramRow, now: Time, later: Time)
    ensures ProgramUpdated(p, now).updatedAt == Some(now)
    ensures ProgramUpdated(p, now).(updatedAt := p.updatedAt) == p
    ensures ProgramUpdated(ProgramUpdated(p, now), later) == ProgramUpdated(p, later)
  {
  }

  /** The row an insert stores: `is_active` has `default:true`, so a false
      field is left out of the INSERT and the column becomes true. */
  function ProgramStored(p: ProgramRow): (r: ProgramRow)
    ensures r.isActive
    ensures r.(isActive := p.isActive) == p
  {
    p.(isActive := OrKeep(p.isActive, false, true))
  }

  /** `models.Program`, as the Go struct a hook updates. */
  class Program {
    var programId: Uuid
    var title: string
    var description: string
    var duration: int
    var isActive: bool
    var createdAt: Option<Time>
    var updatedAt: Option<Time>
    var createdBy: Uuid

    constructor (row: ProgramRow)
      ensures Row() == row
    {
      programId, title, description, duration := row.programId, row.title, row.description, row.duration;
      isActive, createdAt, updatedAt, createdBy := row.isActive, row.createdAt, row.updatedAt, row.createdBy;
    }

    function Row(): ProgramRow
      reads this
    {
      ProgramRow(programId, title, description, duration, isActive, createdAt, updatedAt, createdBy)
    }

    method BeforeCreate(newId: Uuid, now: Time)
      requires newId != Nil
      modifies this
      ensures Row() == ProgramCreated(old(Row()), newId, now)
    {
      if programId == Nil {
        programId := newId;
      }
      if createdAt.None? {
        createdAt := Some(now);
      }
      if updatedAt.None? {
        updatedAt := Some(now);
      }
    }

    method BeforeUpdate(now: Time)
      modifies this
      ensures Row() == ProgramUpdated(old(Row()), now)
    {
      updatedAt := Some(now);
    }

    /** What GORM's create does to the struct before the INSERT: every
        zero-valued column with a default takes the default. */
    method ApplyDefaults()
      modifies this
      ensures Row() == ProgramStored(old(Row()))
    {
      isActive := OrKeep(isActive, false, true);
    }
  }

  // ----- levels -----

  datatype LevelRow = LevelRow(
    levelId: Uuid, programId: Uuid, name: string, description: Option<string>,
    pointRequire: int, isActive: bool, createdAt: Option<Time>, updatedAt: Option<Time>)

  function LevelKey(r: LevelRow): Uuid { r.levelId }

  /** The row after `Level.BeforeCreate`. */
  function LevelCreated(l: LevelRow, newId: Uuid, now: Time): LevelRow
    requires newId != Nil
  {
    l.(levelId := AssignIfNil(l.levelId, newId),
       createdAt := StampIfUnset(l.createdAt, now),
       updatedAt := StampIfUnset(l.updatedAt, now))
  }

  lemma LevelCreatedFields(l: LevelRow, newId: Uuid, now: Time)
    requires newId != Nil
    ensures LevelCreated(l, newId, now).levelId != Nil
    ensures l.levelId != Nil ==> LevelCreated(l, newId, now).levelId == l.levelId
    ensures l.levelId == Nil ==> LevelCreated(l, newId, now).levelId == newId
    ensures l.createdAt.Some? ==> LevelCreated(l, newId, now).createdAt == l.createdAt
    ensures l.updatedAt.Some? ==> LevelCreated(l, newId, now).updatedAt == l.updatedAt
    ensures LevelCreated(l, newId, now).createdAt.Some? && LevelCreated(l, newId, now).updatedAt.Some?
    ensures LevelCreated(l, newId, now).(levelId := l.levelId, createdAt := l.createdAt, updatedAt := l.updatedAt) == l
  {
  }

  lemma LevelCreatedIdempotent(l: LevelRow, newId: Uuid, now: Time, newId2: Uuid, now2: Time)
    requires newId != Nil && newId2 != Nil
    ensures LevelCreated(LevelCreated(l, newId, now), newId2, now2) == LevelCreated(l, newId, now)
  {
  }

  /** The row an insert stores: `is_active` has `default:true`. */
  function LevelStored(l: LevelRow): (r: LevelRow)
    ensures r.isActive
    ensures r.(isActive := l.isActive) == l
  {
    l.(isActive := OrKeep(l.isActive, false, true))
  }

  /** `models.Level`. */
  class Level {
    var levelId: Uuid
    var programId: Uuid
    var name: string
    var description: Option<string>
    var pointRequire: int
    var isActive: bool
    var createdAt: Option<Time>
    var updatedAt: Option<Time>

    constructor (row: LevelRow)
      ensures Row() == row
    {
      levelId, programId, name, description := row.levelId, row.programId, row.name, row.description;
      pointRequire, isActive, createdAt, updatedAt := row.pointRequire, row.isActive, row.createdAt, row.updatedAt;
    }

    function Row(): LevelRow
      reads this
    {
      LevelRow(levelId, programId, name, description, pointRequire, isActive, createdAt, updatedAt)
    }

    method BeforeCreate(newId: Uuid, now: Time)
      requires newId != Nil
      modifies this
      ensures Row() == LevelCreated(old(Row()), newId, now)
    {
      if levelId == Nil {
        levelId := newId;
      }
      if createdAt.None? {
        createdAt := Some(now);
      }
      if updatedAt.None? {
        updatedAt := Some(now);
      }
    }

    /** What GORM's create does to the struct before the INSERT. */
    method ApplyDefaults()
      modifies this
      ensures Row() == LevelStored(old(Row()))
    {
      isActive := OrKeep(isActive, false, true);
    }
  }

  // ----- activities -----

  /** An activity row. `isActive` is the `is_active` column that
      `DeactiveActivity` means to write; `models.Activity` declares no such
      field, so the as-written operations never read it and a new row gets
      the column's default, true. */
  datatype ActivityRow = ActivityRow(
    activityId: Uuid, levelId: Uuid, title: string, description: string, duration: int,
    pointReward: int, activityType: string, createdAt: Option<Time>, updatedAt: Option<Time>,
    isActive: bool)

  function ActivityKey(r: ActivityRow): Uuid { r.activityId }

  /** The row after `Activity.BeforeCreate`. */
  function ActivityCreated(a: ActivityRow, newId: Uuid, now: Time): ActivityRow
    requires newId != Nil
  {
    a.(activityId := AssignIfNil(a.activityId, newId),
       createdAt := StampIfUnset(a.createdAt, now),
       updatedAt := StampIfUnset(a.updatedAt, now))
  }

  lemma ActivityCreatedFields(a: ActivityRow, newId: Uuid, now: Time)
    requires newId != Nil
    ensures ActivityCreated(a, newId, now).activityId != Nil
    ensures a.activityId != Nil ==> ActivityCreated(a, newId, now).activityId == a.activityId
    ensures a.activityId == Nil ==> ActivityCreated(a, newId, now).activityId == newId
    ensures a.createdAt.Some? ==> ActivityCreated(a, newId, now).createdAt == a.createdAt
    ensures a.updatedAt.Some? ==> ActivityCreated(a, newId, now).updatedAt == a.updatedAt
    ensures ActivityCreated(a, newId, now).createdAt.Some? && ActivityCreated(a, newId, now).updatedAt.Some?
    ensures ActivityCreated(a, newId, now).(activityId := a.activityId, createdAt := a.createdAt, updatedAt := a.updatedAt) == a
  {
  }

  lemma ActivityCreatedIdempotent(a: ActivityRow, newId: Uuid, now: Time, newId2: Uuid, now2: Time)
    requires newId != Nil && newId2 != Nil
    ensures ActivityCreated(ActivityCreated(a, newId, now), newId2, now2) == ActivityCreated(a, newId, now)
  {
  }

  /** The column default of `type`. */
  const DefaultActivityType := "Activity"

  /** The struct after GORM's create: `type` has `default:Activity`, so an
      empty type is left out of the INSERT and the struct takes the
      default. */
  function ActivityDefaulted(a: ActivityRow): (r: ActivityRow)
    ensures a.activityType != "" ==> r == a
    ensures a.activityType == "" ==> r == a.(activityType := DefaultActivityType)
  {
    a.(activityType := OrKeep(a.activityType, "", DefaultActivityType))
  }

  /** The row an insert stores. A non-empty type is written through
      `ActivityType.Value`, which is `String()`: a value outside the three
      names is stored as `Unknown`. */
  function ActivityStored(a: ActivityRow): (r: ActivityRow)
    ensures a.activityType == "" ==> r == a.(activityType := DefaultActivityType)
    ensures a.activityType in ActivityTypeEnum.Types ==> r == a
    ensures a.activityType != "" && a.activityType !in ActivityTypeEnum.Types ==> r == a.(activityType := "Unknown")
  {
    a.(activityType := if a.activityType == "" then DefaultActivityType else ActivityTypeEnum.Value(a.activityType))
  }

  /** `models.Activity` (without `is_active`, which the struct lacks). */
  class Activity {
    var activityId: Uuid
    var levelId: Uuid
    var title: string
    var description: string
    var duration: int
    var pointReward: int
    var activityType: string
    var createdAt: Option<Time>
    var updatedAt: Option<Time>

    constructor (activityId: Uuid, levelId: Uuid, title: string, description: string, duration: int,
                 pointReward: int, activityType: string, createdAt: Option<Time>, updatedAt: Option<Time>)
      ensures Row() == ActivityRow(activityId, levelId, title, description, duration, pointReward, activityType, createdAt, updatedAt, true)
    {
      this.activityId, this.levelId, this.title, this.description := activityId, levelId, title, description;
      this.duration, this.pointReward, this.activityType := duration, pointReward, activityType;
      this.createdAt, this.updatedAt := createdAt, updatedAt;
    }

    /** The row an insert of this struct stores: `is_active` takes its
        default. */
    function Row(): ActivityRow
      reads this
    {
      ActivityRow(activityId, levelId, title, description, duration, pointReward, activityType, createdAt, updatedAt, true)
    }

    method BeforeCreate(newId: Uuid, now: Time)
      requires newId != Nil
      modifies this
      ensures Row() == ActivityCreated(old(Row()), newId, now)
    {
      if activityId == Nil {
        activityId := newId;
      }
      if createdAt.None? {
        createdAt := Some(now);
      }
      if updatedAt.None? {
        updatedAt := Some(now);
      }
    }

    /** What GORM's create does to the struct before the INSERT. */
    method ApplyDefaults()
      modifies this
      ensures Row() == ActivityDefaulted(old(Row()))
    {
      activityType := OrKeep(activityType, "", DefaultActivityType);
    }
  }

  // ----- experts -----

  datatype ExpertRow = ExpertRow(
    expertId: Uuid, fullName: string, dateOfBirth: Option<Time>, gender: bool,
    telephoneNumber: string, avatarUrl: string, expertType: string, accountId: Uuid)

  /** The row after `ExpertRequest.BeforeCreate`: the two ids are assigned
      independently, each only when nil. */
  function ExpertCreated(e: ExpertRow, newExpertId: Uuid, newAccountId: Uuid): ExpertRow
    requires newExpertId != Nil && newAccountId != Nil
  {
    e.(expertId := AssignIfNil(e.expertId, newExpertId),
       accountId := AssignIfNil(e.accountId, newAccountId))
  }

  lemma ExpertCreatedFields(e: ExpertRow, newExpertId: Uuid, newAccountId: Uuid)
    requires newExpertId != Nil && newAccountId != Nil
    ensures ExpertCreated(e, newExpertId, newAccountId).expertId != Nil
    ensures ExpertCreated(e, newExpertId, newAccountId).accountId != Nil
    ensures e.expertId != Nil ==> ExpertCreated(e, newExpertId, newAccountId).expertId == e.expertId
    ensures e.accountId != Nil ==> ExpertCreated(e, newExpertId, newAccountId).accountId == e.accountId
    ensures e.expertId == Nil ==> ExpertCreated(e, newExpertId, newAccountId).expertId == newExpertId
    ensures e.accountId == Nil ==> ExpertCreated(e, newExpertId, newAccountId).accountId == newAccountId
    ensures ExpertCreated(e, newExpertId, newAccountId).(expertId := e.expertId, accountId := e.accountId) == e
  {
  }

  lemma ExpertCreatedIdempotent(e: ExpertRow, fe: Uuid, fa: Uuid, fe2: Uuid, fa2: Uuid)
    requires fe != Nil && fa != Nil && fe2 != Nil && fa2 != Nil
    ensures ExpertCreated(ExpertCreated(e, fe, fa), fe2, fa2) == ExpertCreated(e, fe, fa)
  {
  }

  /** `models.ExpertRequest`. */
  class ExpertRequest {
    var expertId: Uuid
    var fullName: string
    var dateOfBirth: Option<Time>
    var gender: bool
    var telephoneNumber: string
    var avatarUrl: string
    var expertType: string
    var accountId: Uuid

    constructor (row: ExpertRow)
      ensures Row() == row
    {
      expertId, fullName, dateOfBirth, gender := row.expertId, row.fullName, row.dateOfBirth, row.gender;
      telephoneNumber, avatarUrl, expertType, accountId := row.telephoneNumber, row.avatarUrl, row.expertType, row.accountId;
    }

    function Row(): ExpertRow
      reads this
    {
      ExpertRow(expertId, fullName, dateOfBirth, gender, telephoneNumber, avatarUrl, expertType, accountId)
    }

    method BeforeCreate(newExpertId: Uuid, newAccountId: Uuid)
      requires newExpertId != Nil && newAccountId != Nil
      modifies this
      ensures Row() == ExpertCreated(old(Row()), newExpertId, newAccountId)
    {
      if expertId == Nil {
        expertId := newExpertId;
      }
      if accountId == Nil {
        accountId := newAccountId;
      }
    }
  }

  // ----- schedules -----

  datatype ScheduleRow = ScheduleRow(
    scheduleId: Uuid, programId: Uuid, activityId: Uuid, weekNumber: int, dayNumber: int, repeatInterval: int)

  /** The row after `ScheduleCreate.BeforeCreate`: an id when nil, and a
      negative repeat interval clamped to 0. */
  function ScheduleCreated(s: ScheduleRow, newId: Uuid): ScheduleRow
    requires newId != Nil
  {
    s.(scheduleId := AssignIfNil(s.scheduleId, newId),
       repeatInterval := if s.repeatInterval < 0 then 0 else s.repeatInterval)
  }

  lemma ScheduleCreatedFields(s: ScheduleRow, newId: Uuid)
    requires newId != Nil
    ensures ScheduleCreated(s, newId).scheduleId != Nil
    ensures s.scheduleId != Nil ==> ScheduleCreated(s, newId).scheduleId == s.scheduleId
    ensures s.scheduleId == Nil ==> ScheduleCreated(s, newId).scheduleId == newId
    ensures ScheduleCreated(s, newId).repeatInterval >= 0
    ensures s.repeatInterval < 0 ==> ScheduleCreated(s, newId).repeatInterval == 0
    ensures s.repeatInterval >= 0 ==> ScheduleCreated(s, newId).repeatInterval == s.repeatInterval
    ensures ScheduleCreated(s, newId).(scheduleId := s.scheduleId, repeatInterval := s.repeatInterval) == s
  {
  }

  lemma ScheduleCreatedIdempotent(s: ScheduleRow, newId: Uuid, newId2: Uuid)
    requires newId != Nil && newId2 != Nil
    ensures ScheduleCreated(ScheduleCreated(s, newId), newId2) == ScheduleCreated(s, newId)
  {
  }

  /** `models.ScheduleCreate`. */
  class ScheduleCreate {
    var scheduleId: Uuid
    var programId: Uuid
    var activityId: Uuid
    var weekNumber: int
    var dayNumber: int
    var repeatInterval: int

    constructor (row: ScheduleRow)
      ensures Row() == row
    {
      scheduleId, programId, activityId := row.scheduleId, row.programId, row.activityId;
      weekNumber, dayNumber, repeatInterval := row.weekNumber, row.dayNumber, row.repeatInterval;
    }

    function Row(): ScheduleRow
      reads this
    {
      ScheduleRow(scheduleId, programId, activityId, weekNumber, dayNumber, repeatInterval)
    }

    method BeforeCreate(newId: Uuid)
      requires newId != Nil
      modifies this
      ensures Row() == ScheduleCreated(old(Row()), newId)
    {
      if scheduleId == Nil {
        scheduleId := newId;
      }
      if repeatInterval < 0 {
        repeatInterval := 0;
      }
    }
  }

  // ----- accounts -----

  datatype AccountRow = AccountRow(
    id: Uuid, email: string, password: string, role: string,
    createdAt: Option<Time>, isVerified: bool, accountStatus: bool)

  function AccountId(r: AccountRow): Uuid { r.id }
  function AccountEmail(r: AccountRow): string { r.email }

  /** The row after `Account.BeforeCreate`, which only assigns the id. */
  function AccountCreated(a: AccountRow, newId: Uuid): AccountRow
    requires newId != Nil
  {
    a.(id := AssignIfNil(a.id, newId))
  }

  lemma AccountCreatedFields(a: AccountRow, newId: Uuid, newId2: Uuid)
    requires newId != Nil && newId2 != Nil
    ensures AccountCreated(a, newId).id != Nil
    ensures a.id != Nil ==> AccountCreated(a, newId).id == a.id
    ensures AccountCreated(a, newId).(id := a.id) == a
    ensures AccountCreated(AccountCreated(a, newId), newId2) == AccountCreated(a, newId)
  {
  }

  /** The column default of `role`. */
  const DefaultRole := "user"

  /** The row an insert at time `now` stores: `role` has `default:'user'`
      and `account_status` `default:true`; `is_verified` defaults to false,
      which is also its zero value; GORM stamps an unset `created_at`. So no
      insert stores a locked account. */
  function AccountStored(a: AccountRow, now: Time): (r: AccountRow)
    ensures r.accountStatus && r.createdAt.Some?
    ensures r.role == if a.role == "" then DefaultRole else a.role
    ensures a.createdAt.Some? ==> r.createdAt == a.createdAt
    ensures r.(role := a.role, accountStatus := a.accountStatus, createdAt := a.createdAt) == a
  {
    a.(role := OrKeep(a.role, "", DefaultRole), accountStatus := OrKeep(a.accountStatus, false, true),
       createdAt := StampIfUnset(a.createdAt, now))
  }

  /** `models.Account`. */
  class Account {
    var id: Uuid
    var email: string
    var password: string
    var role: string
    var createdAt: Option<Time>
    var isVerified: bool
    var accountStatus: bool

    constructor (row: AccountRow)
      ensures Row() == row
    {
      id, email, password, role := row.id, row.email, row.password, row.role;
      createdAt, isVerified, accountStatus := row.createdAt, row.isVerified, row.accountStatus;
    }

    function Row(): AccountRow
      reads this
    {
      AccountRow(id, email, password, role, createdAt, isVerified, accountStatus)
    }

    method BeforeCreate(newId: Uuid)
      requires newId != Nil
      modifies this
      ensures Row() == AccountCreated(old(Row()), newId)
    {
      if id == Nil {
        id := newId;
      }
    }

    /** What GORM's create does to the struct before the INSERT, at time
        `now`. */
    method ApplyDefaults(now: Time)
      modifies this
      ensures Row() == AccountStored(old(Row()), now)
    {
      role := OrKeep(role, "", DefaultRole);
      accountStatus := OrKeep(accountStatus, false, true);
      createdAt := StampIfUnset(createdAt, now);
    }
  }

  // ----- join and participation rows (their serial `id` is not modelled) -----

  /** `models.ActivityRepeatDay`: `repeat` is a `WeekDay` name. */
  datatype RepeatDayRow = RepeatDayRow(activityId: Uuid, repeat: string)
  function RepeatDayKey(r: RepeatDayRow): Uuid { r.activityId }

  /** The column default of `repeat_day`. */
  const DefaultRepeatDay := "monday"

  /** The row an insert stores: `repeat_day` has `default:monday`, and a
      non-empty day is written through `WeekDay.Value`, which is `String()`:
      a value outside the seven names is stored as `unknown`. */
  function RepeatDayStored(d: RepeatDayRow): (r: RepeatDayRow)
    ensures d.repeat == "" ==> r == d.(repeat := DefaultRepeatDay)
    ensures d.repeat in WeekDayEnum.Days ==> r == d
    ensures d.repeat != "" && d.repeat !in WeekDayEnum.Days ==> r == d.(repeat := "unknown")
  {
    d.(repeat := if d.repeat == "" then DefaultRepeatDay else WeekDayEnum.Value(d.repeat))
  }

  /** `models.ProgramDiseases`. */
  datatype ProgramDiseaseRow = ProgramDiseaseRow(programId: Uuid, diseaseId: int)
  function ProgramDiseaseKey(r: ProgramDiseaseRow): Uuid { r.programId }

  /** `models.ProgramGoal`. */
  datatype ProgramGoalRow = ProgramGoalRow(goalId: int, programId: Uuid)
  function ProgramGoalKey(r: ProgramGoalRow): Uuid { r.programId }

  /** `models.UserProgram`. */
  datatype UserProgramRow = UserProgramRow(
    userId: Uuid, programId: Uuid, levelId: Uuid, startDate: Option<Time>, totalPoints: int)
  function UserProgramKey(r: UserProgramRow): Uuid { r.programId }

  /** A row of `user_activities`: only the column the count filters on. */
  datatype UserActivityRow = UserActivityRow(userId: Uuid, activityId: Uuid)
  function UserActivityKey(r: UserActivityRow): Uuid { r.activityId }
}
