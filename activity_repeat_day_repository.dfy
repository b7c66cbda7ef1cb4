/** The repeat days of activities: batch insert, delete-then-insert
    replacement, and delete, each on a transaction or the ambient database. */
module ActivityRepeatDayRepository {
  import opened Wrappers
  import opened Models
  import opened Tables
  import opened Store
  import EnumCodec
  import WeekDayEnum

  /** The rows a batch insert stores: each with the `repeat_day` default. */
  function RepeatDaysStored(batch: seq<RepeatDayRow>): (r: seq<RepeatDayRow>)
    ensures |r| == |batch|
    ensures forall i :: 0 <= i < |batch| ==> r[i] == RepeatDayStored(batch[i])
  {
    seq(|batch|, i requires 0 <= i < |batch| => RepeatDayStored(batch[i]))
  }

  /** A stored day reads back through `(*WeekDay).Scan` exactly when the
      batch's day was empty or one of the seven names, and then as stored;
      any other day was stored as `unknown`, which `Scan` refuses. */
  lemma StoredDayReadsBack(d: RepeatDayRow)
    ensures var stored := RepeatDayStored(d).repeat;
      WeekDayEnum.Scan("", EnumCodec.Str(stored)).IsOk() <==> d.repeat == "" || d.repeat in WeekDayEnum.Days
    ensures var stored := RepeatDayStored(d).repeat;
      WeekDayEnum.Scan("", EnumCodec.Str(stored)).IsOk() ==> WeekDayEnum.Scan("", EnumCodec.Str(stored)).value == stored
  {
    if d.repeat == "" {
      assert WeekDayEnum.Days[0] == DefaultRepeatDay;
      WeekDayEnum.ScanOfValue("", DefaultRepeatDay);
    } else {
      WeekDayEnum.ScanOfValue("", d.repeat);
    }
  }

  /** Defaults never move a row to another activity. */
  lemma RepeatDaysStoredKeyed(batch: seq<RepeatDayRow>, id: Uuid)
    requires AllKeyed(batch, RepeatDayKey, id)
    ensures AllKeyed(RepeatDaysStored(batch), RepeatDayKey, id)
  {
    var r := RepeatDaysStored(batch);
    forall x | x in r ensures RepeatDayKey(x) == id {
      var i :| 0 <= i < |r| && r[i] == x;
      assert batch[i] in batch;
    }
  }

  /** A replacement whose rows all belong to `cond` leaves exactly those
      rows (with defaults) under `cond` when it succeeds, none when only the
      insert fails, and every other activity's days untouched. */
  lemma UpdateRepeatDaysSpec(rows: seq<RepeatDayRow>, cond: Uuid, batch: seq<RepeatDayRow>,
                             deleteFails: bool, createFails: bool, other: Uuid)
    requires AllKeyed(batch, RepeatDayKey, cond) && other != cond
    ensures var r := ReplaceKey(rows, RepeatDayKey, cond, RepeatDaysStored(batch), deleteFails, createFails);
      r.IsOk() <==> !deleteFails && !createFails && batch != []
    ensures var r := ReplaceKey(rows, RepeatDayKey, cond, RepeatDaysStored(batch), deleteFails, createFails);
      r.IsOk() ==> Matching(r.value, RepeatDayKey, cond) == RepeatDaysStored(batch)
    ensures var r := ReplaceKey(rows, RepeatDayKey, cond, RepeatDaysStored(batch), deleteFails, createFails);
      !deleteFails && !r.IsOk() ==> Matching(r.value, RepeatDayKey, cond) == []
    ensures var r := ReplaceKey(rows, RepeatDayKey, cond, RepeatDaysStored(batch), deleteFails, createFails);
      Matching(r.value, RepeatDayKey, other) == Matching(rows, RepeatDayKey, other)
  {
    RepeatDaysStoredKeyed(batch, cond);
    ReplaceKeySpec(rows, RepeatDayKey, cond, RepeatDaysStored(batch), deleteFails, createFails, other);
  }

  /** `activityRepeatDayRepository`. */
  class ActivityRepeatDayRepository {
    const db: Database

    constructor (db: Database)
      ensures this.db == db
    {
      this.db := db;
    }

    /** `InsertRepeatDay`: one INSERT of the whole batch. */
    method InsertRepeatDay(tx: Database?, repeatItem: seq<RepeatDayRow>, fails: bool) returns (err: Option<Error>)
      modifies Handle(tx, db)`repeatDays
      ensures var r := InsertBatch(old(Handle(tx, db).repeatDays), RepeatDaysStored(repeatItem), fails);
        Handle(tx, db).repeatDays == r.value && err == r.err
    {
      var h := Handle(tx, db);
      var r := InsertBatch(h.repeatDays, RepeatDaysStored(repeatItem), fails);
      h.repeatDays := r.value;
      err := r.err;
    }

    /** `UpdateRepeatDayByID`: deletes the activity's days, then inserts the
        batch; the two statements share no transaction of their own. */
    method UpdateRepeatDayByID(tx: Database?, cond: Uuid, repeatItems: seq<RepeatDayRow>, deleteFails: bool, createFails: bool)
      returns (err: Option<Error>)
      modifies Handle(tx, db)`repeatDays
      ensures var r := ReplaceKey(old(Handle(tx, db).repeatDays), RepeatDayKey, cond, RepeatDaysStored(repeatItems), deleteFails, createFails);
        Handle(tx, db).repeatDays == r.value && err == r.err
    {
      var h := Handle(tx, db);
      var deleted := DeleteKey(h.repeatDays, RepeatDayKey, cond, deleteFails);
      if !deleted.IsOk() {
        return deleted.err;
      }
      h.repeatDays := deleted.value;
      var created := InsertBatch(h.repeatDays, RepeatDaysStored(repeatItems), createFails);
      h.repeatDays := created.value;
      err := created.err;
    }

    /** `DeleteRepeatDayByID`. */
    method DeleteRepeatDayByID(tx: Database?, cond: Uuid, fails: bool) returns (err: Option<Error>)
      modifies Handle(tx, db)`repeatDays
      ensures var r := DeleteKey(old(Handle(tx, db).repeatDays), RepeatDayKey, cond, fails);
        Handle(tx, db).repeatDays == r.value && err == r.err
    {
      var h := Handle(tx, db);
      var r := DeleteKey(h.repeatDays, RepeatDayKey, cond, fails);
      h.repeatDays := r.value;
      err := r.err;
    }
  }
}
