/** The activities table: insert, the paged listing, the lookup by id,
    update, delete, and deactivation. */
module ActivityRepository {
  import opened Wrappers
  import opened Models
  import opened Tables
  import opened Store
  import opened Paging
  import opened Text
  import EnumCodec
  import ActivityTypeEnum

  /** What `Updates(req)` writes on one row: every non-zero field of the
      struct except the primary key. `is_active` is no field of the struct,
      so it is never written. A non-empty type is written through
      `ActivityType.Value`. `patch.updatedAt` is the time GORM stamps on
      `updated_at` for every struct update. */
  function PatchActivity(r: ActivityRow, patch: ActivityRow): ActivityRow {
    r.(levelId := OrKeep(patch.levelId, Nil, r.levelId),
       title := OrKeep(patch.title, "", r.title),
       description := OrKeep(patch.description, "", r.description),
       duration := OrKeep(patch.duration, 0, r.duration),
       pointReward := OrKeep(patch.pointReward, 0, r.pointReward),
       activityType := if patch.activityType == "" then r.activityType else ActivityTypeEnum.Value(patch.activityType),
       createdAt := OrKeep(patch.createdAt, None, r.createdAt),
       updatedAt := OrKeep(patch.updatedAt, None, r.updatedAt))
  }

  /** `Where("activity_id = ?", req.ActivityID).Updates(req)` at time `now`. */
  function UpdateActivity(rows: seq<ActivityRow>, req: ActivityRow, now: Time, fails: bool): Ret<seq<ActivityRow>> {
    if fails then Fail(rows, DriverError)
    else Ok(UpdateWhere(rows, ActivityKey, req.activityId, PatchActivity, req.(updatedAt := Some(now))))
  }

  /** The update patches exactly the rows under the request's id, stamps
      their `updated_at`, never changes `is_active`, and leaves every other
      activity and the uniqueness of ids as they were. */
  lemma UpdateActivitySpec(rows: seq<ActivityRow>, req: ActivityRow, now: Time, fails: bool, other: Uuid)
    requires other != req.activityId
    ensures UpdateActivity(rows, req, now, fails).IsOk() <==> !fails
    ensures |UpdateActivity(rows, req, now, fails).value| == |rows|
    ensures Matching(UpdateActivity(rows, req, now, fails).value, ActivityKey, other) == Matching(rows, ActivityKey, other)
    ensures UniqueKeys(rows, ActivityKey) ==> UniqueKeys(UpdateActivity(rows, req, now, fails).value, ActivityKey)
    ensures var r := UpdateActivity(rows, req, now, fails).value;
      !fails ==> forall i :: 0 <= i < |rows| && rows[i].activityId == req.activityId ==>
        r[i].updatedAt == Some(now) && r[i].isActive == rows[i].isActive && r[i].activityId == req.activityId
    ensures var r := UpdateActivity(rows, req, now, fails).value;
      !fails ==> forall i :: 0 <= i < |rows| && rows[i].activityId == req.activityId ==>
        r[i].activityType == (if req.activityType == "" then rows[i].activityType else ActivityTypeEnum.String(req.activityType))
  {
    var patch := req.(updatedAt := Some(now));
    if !fails {
      UpdateWhereOthers(rows, ActivityKey, req.activityId, PatchActivity, patch, other);
      if UniqueKeys(rows, ActivityKey) {
        UpdateWhereUnique(rows, ActivityKey, req.activityId, PatchActivity, patch);
      }
    }
  }

  // ----- reading rows back

  /** What `First` and `Find` make of one stored row: `type` is decoded by
      `(*ActivityType).Scan` into a fresh struct, so a stored type that is
      not one of the names, `Unknown` included, makes the read fail with
      Scan's error. */
  function ReadActivity(r: ActivityRow): (res: Ret<ActivityRow>)
    ensures res.IsOk() <==> TrimSpace(r.activityType) in ActivityTypeEnum.Types
    ensures res.IsOk() ==> res.value == r.(activityType := TrimSpace(r.activityType))
    ensures !res.IsOk() ==> res.err == Some(InvalidValue("ActivityType", TrimSpace(r.activityType)))
  {
    ActivityTypeEnum.ParseCharacterization(r.activityType);
    var t := ActivityTypeEnum.Scan("", EnumCodec.Str(r.activityType));
    if t.IsOk() then Ok(r.(activityType := t.value)) else Fail(r, t.err.value)
  }

  /** A row the repository stores reads back exactly when its type was
      empty or one of the names, and then reads back as stored; any other
      type was stored as `Unknown`, which `Scan` refuses. */
  lemma StoredActivityReadsBack(a: ActivityRow)
    ensures ReadActivity(ActivityStored(a)).IsOk() <==> a.activityType == "" || a.activityType in ActivityTypeEnum.Types
    ensures ReadActivity(ActivityStored(a)).IsOk() ==> ReadActivity(ActivityStored(a)).value == ActivityStored(a)
  {
    ActivityTypeEnum.CodecWellFormed();
    var t := ActivityStored(a).activityType;
    if t in ActivityTypeEnum.Types {
      assert Trimmed(t);
      TrimSpaceKeepsTrimmed(t);
    } else {
      ActivityTypeEnum.UnknownIsNormal();
      ActivityTypeEnum.UnknownIsNoType();
    }
  }

  /** A page whose types are all names reads back unchanged. */
  lemma ReadNamedActivities(rows: seq<ActivityRow>)
    requires forall i :: 0 <= i < |rows| ==> rows[i].activityType in ActivityTypeEnum.Types
    ensures ReadAll(rows, ReadActivity) == Ok(rows)
  {
    ActivityTypeEnum.CodecWellFormed();
    forall i | 0 <= i < |rows| ensures ReadActivity(rows[i]) == Ok(rows[i]) {
      assert Trimmed(rows[i].activityType);
      TrimSpaceKeepsTrimmed(rows[i].activityType);
    }
    ReadAllIdentity(rows, ReadActivity);
  }

  /** An activity inserted with the type `Quiz` is stored as `Unknown`, and
      that row can no longer be read. */
  lemma QuizStoredAsUnknown(a: ActivityRow)
    requires a.activityType == "Quiz"
    ensures ActivityStored(a).activityType == "Unknown"
    ensures !ReadActivity(ActivityStored(a)).IsOk()
  {
    assert forall t :: t in ActivityTypeEnum.Types ==> t[0] != 'Q';
    StoredActivityReadsBack(a);
  }

  /** The name `DeactiveActivity` hands to `Update`. */
  const DeactiveColumn := "is_active = ?"

  /** `Update("is_active = ?", false)` as written: the text is quoted as one
      column name, which the table does not have, so the statement always
      fails and no row changes. */
  function DeactiveActivityAsWritten(rows: seq<ActivityRow>, id: Uuid, fails: bool): Ret<seq<ActivityRow>> {
    Fail(rows, if fails then DriverError else UndefinedColumn(DeactiveColumn))
  }

  function SetActivityActive(r: ActivityRow, active: bool): ActivityRow {
    r.(isActive := active)
  }

  /** `Update("is_active", false)`: what the method is meant to do. */
  function DeactivateActivity(rows: seq<ActivityRow>, id: Uuid, fails: bool): Ret<seq<ActivityRow>> {
    if fails then Fail(rows, DriverError)
    else Ok(UpdateWhere(rows, ActivityKey, id, SetActivityActive, false))
  }

  /** As written, no activity is ever deactivated. */
  lemma DeactiveActivityNeverDeactivates(rows: seq<ActivityRow>, id: Uuid, fails: bool)
    ensures !DeactiveActivityAsWritten(rows, id, fails).IsOk()
    ensures DeactiveActivityAsWritten(rows, id, fails).value == rows
  {
  }

  /** The intended deactivation marks every row under `id` inactive, keeps
      them in the table, and leaves every other activity as it was. */
  lemma DeactivateActivitySpec(rows: seq<ActivityRow>, id: Uuid, other: Uuid)
    requires other != id
    ensures DeactivateActivity(rows, id, false).IsOk()
    ensures forall x :: x in DeactivateActivity(rows, id, false).value && x.activityId == id ==> !x.isActive
    ensures Count(DeactivateActivity(rows, id, false).value, ActivityKey, id) == Count(rows, ActivityKey, id)
    ensures Matching(DeactivateActivity(rows, id, false).value, ActivityKey, other) == Matching(rows, ActivityKey, other)
  {
    var r := DeactivateActivity(rows, id, false).value;
    UpdateWhereOthers(rows, ActivityKey, id, SetActivityActive, false, other);
    UpdateWhereCount(rows, ActivityKey, id, SetActivityActive, false, id);
    forall x | x in r && x.activityId == id ensures !x.isActive {
      var i :| 0 <= i < |r| && r[i] == x;
    }
  }

  /** `activityRepositoryImpl`. */
  class ActivityRepository {
    const db: Database

    constructor (db: Database)
      ensures this.db == db
    {
      this.db := db;
    }

    /** `InsertActivity`: runs `BeforeCreate` on the struct, then inserts its
        row, with the type written through `Value`; the struct takes the
        column default but keeps its own type otherwise. */
    method InsertActivity(tx: Database?, activity: Activity, newId: Uuid, now: Time, fails: bool) returns (err: Option<Error>)
      requires newId != Nil
      modifies activity, Handle(tx, db)`activities
      ensures activity.Row() == ActivityDefaulted(ActivityCreated(old(activity.Row()), newId, now))
      ensures var r := InsertRow(old(Handle(tx, db).activities), ActivityKey, ActivityStored(activity.Row()), fails);
        Handle(tx, db).activities == r.value && err == r.err
    {
      activity.BeforeCreate(newId, now);
      activity.ApplyDefaults();
      var h := Handle(tx, db);
      var r := InsertRow(h.activities, ActivityKey, ActivityStored(activity.Row()), fails);
      h.activities := r.value;
      err := r.err;
    }

    /** `FindActivities`: counts the rows matching `cond` into
        `paging.Total`, then reads one page of them in storage order (the
        query has no `ORDER BY`); a row whose type `Scan` refuses fails the
        read. */
    method FindActivities(cond: ActivityRow -> bool, paging: Paging, countFails: bool, findFails: bool)
      returns (activities: seq<ActivityRow>, err: Option<Error>)
      modifies paging`total
      ensures countFails ==> activities == [] && err == Some(DriverError) && paging.total == old(paging.total)
      ensures !countFails ==> paging.total == |Where(db.activities, cond)|
      ensures !countFails && findFails ==> activities == [] && err == Some(DriverError)
      ensures !countFails && !findFails ==>
        var read := ReadAll(Window(Where(db.activities, cond), paging.page, paging.limit), ReadActivity);
        err == read.err && activities == read.value
    {
      if countFails {
        return [], Some(DriverError);
      }
      paging.total := |Where(db.activities, cond)|;
      if findFails {
        return [], Some(DriverError);
      }
      var read := ReadAll(Window(Where(db.activities, cond), paging.page, paging.limit), ReadActivity);
      activities, err := read.value, read.err;
    }

    /** `FindActivityByID`: nil and no error for a missing activity, nil
        and Scan's error for a row whose type cannot be read. */
    method FindActivityByID(cond: Uuid, fails: bool) returns (activity: Option<ActivityRow>, err: Option<Error>)
      ensures fails ==> activity.None? && err == Some(DriverError)
      ensures !fails && Find(db.activities, ActivityKey, cond).None? ==> activity.None? && err.None?
      ensures !fails && Find(db.activities, ActivityKey, cond).Some? ==>
        var read := ReadActivity(Find(db.activities, ActivityKey, cond).value);
        err == read.err && activity == (if read.IsOk() then Some(read.value) else None)
      ensures activity.Some? ==> activity.value.activityId == cond && activity.value.activityType in ActivityTypeEnum.Types
      ensures !fails && activity.None? && err.None? ==> forall r :: r in db.activities ==> r.activityId != cond
    {
      var r := LookupKey(db.activities, ActivityKey, cond, fails);
      if r.value.None? {
        return None, r.err;
      }
      var read := ReadActivity(r.value.value);
      if read.IsOk() {
        activity, err := Some(read.value), None;
      } else {
        activity, err := None, read.err;
      }
    }

    /** `UpdateActivityByID` at time `now`. GORM writes the time it stamps
        on `updated_at` back into the request struct, before the statement
        runs. */
    method UpdateActivityByID(tx: Database?, req: Activity, now: Time, fails: bool) returns (err: Option<Error>)
      modifies req, Handle(tx, db)`activities
      ensures req.Row() == old(req.Row()).(updatedAt := Some(now))
      ensures var r := UpdateActivity(old(Handle(tx, db).activities), old(req.Row()), now, fails);
        Handle(tx, db).activities == r.value && err == r.err
    {
      req.updatedAt := Some(now);
      var h := Handle(tx, db);
      var r := UpdateActivity(h.activities, req.Row(), now, fails);
      h.activities := r.value;
      err := r.err;
    }

    /** `DeleteActivityByID`: removes the rows under that id. */
    method DeleteActivityByID(tx: Database?, cond: Uuid, fails: bool) returns (err: Option<Error>)
      modifies Handle(tx, db)`activities
      ensures var r := DeleteKey(old(Handle(tx, db).activities), ActivityKey, cond, fails);
        Handle(tx, db).activities == r.value && err == r.err
    {
      var h := Handle(tx, db);
      var r := DeleteKey(h.activities, ActivityKey, cond, fails);
      h.activities := r.value;
      err := r.err;
    }

    /** `DeactiveActivity`, as written: it always reports an error and
        changes nothing. */
    method DeactiveActivity(cond: Uuid, fails: bool) returns (err: Option<Error>)
      ensures err == DeactiveActivityAsWritten(db.activities, cond, fails).err
      ensures err.Some?
    {
      err := DeactiveActivityAsWritten(db.activities, cond, fails).err;
    }

    /** `DeactiveActivity` with the column named `is_active`. */
    method DeactiveActivityCorrected(cond: Uuid, fails: bool) returns (err: Option<Error>)
      modifies db`activities
      ensures var r := DeactivateActivity(old(db.activities), cond, fails);
        db.activities == r.value && err == r.err
    {
      var r := DeactivateActivity(db.activities, cond, fails);
      db.activities := r.value;
      err := r.err;
    }
  }
}
