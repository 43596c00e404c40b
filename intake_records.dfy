/**
 * The intake records of the database-backed revision: the `intakes` table as
 * a map from primary key to row with Room's autogenerated keys, the checklist
 * view model's toggle, its as-needed ("PRN") intake and its window of today,
 * and the receiver behind the "mark taken" notification action.
 */
module IntakeRecords {
  import opened Wrappers
  import opened Clock

  /** A row of `intakes`; `takenAt` is set while the intake is marked taken. */
  datatype IntakeEntity = IntakeEntity(
    id: int,
    supplementId: int,
    profileId: int,
    intakeTime: int,
    taken: bool,
    takenAt: Option<int>)

  /** The row's two taken fields agree. */
  predicate Consistent(e: IntakeEntity) {
    e.taken <==> e.takenAt.Some?
  }

  /** `toggleIntake`: flip `taken`, stamp it with `now` when it becomes taken and clear the stamp otherwise. */
  function Toggled(e: IntakeEntity, now: int): (r: IntakeEntity)
    ensures r.taken == !e.taken
    ensures Consistent(r)
    ensures r.taken ==> r.takenAt == Some(now)
    ensures r.(taken := e.taken, takenAt := e.takenAt) == e
  {
    e.(taken := !e.taken, takenAt := if !e.taken then Some(now) else None)
  }

  /**
   * Toggling twice restores `taken`; an intake that was not taken comes back
   * exactly as it was if it was consistent, while a taken one comes back with
   * the later stamp.
   */
  lemma ToggleTwice(e: IntakeEntity, now1: int, now2: int)
    ensures Toggled(Toggled(e, now1), now2).taken == e.taken
    ensures Consistent(e) && !e.taken ==> Toggled(Toggled(e, now1), now2) == e
    ensures e.taken ==> Toggled(Toggled(e, now1), now2) == e.(takenAt := Some(now2))
  {
  }

  /** `addPRNIntake`: an intake logged now and taken now, to be given a key on insertion. */
  function PrnIntake(profileId: int, supplementId: int, now: int): (r: IntakeEntity)
    ensures r.taken && r.takenAt == Some(r.intakeTime) && r.intakeTime == now
    ensures r.id == 0 && r.profileId == profileId && r.supplementId == supplementId
  {
    IntakeEntity(0, supplementId, profileId, now, true, Some(now))
  }

  /** The instants `loadIntakesForToday` asks for: from the start of today to the last millisecond before tomorrow. */
  function TodayWindow(today: Date, offset: int): (w: Window)
    ensures forall t :: w.Contains(t) <==> LocalDay(t, offset) == today
  {
    var w := WindowBetween(StartOfDay(today, offset), StartOfDay(today + 1, offset));
    assert forall t :: w.Contains(t) <==> LocalDay(t, offset) == today by {
      forall t ensures w.Contains(t) <==> LocalDay(t, offset) == today {
        DaysWindowIsLocalDays(today, 1, offset, t);
      }
    }
    w
  }

  // ---------------------------------------------------------------------------
  // The table

  /** Every row is stored under its own key, and every key was handed out. */
  predicate WellKeyed(rows: map<int, IntakeEntity>, lastId: int) {
    forall id :: id in rows ==> rows[id].id == id && 0 < id <= lastId
  }

  /** `@Update`: replace the row with the entity's key, if there is one. */
  function UpdateRow(rows: map<int, IntakeEntity>, e: IntakeEntity): (r: map<int, IntakeEntity>)
    ensures r.Keys == rows.Keys
    ensures forall id :: id in r && id != e.id ==> r[id] == rows[id]
    ensures e.id in rows ==> r[e.id] == e
  {
    if e.id in rows then rows[e.id := e] else rows
  }

  /** `MarkTakenReceiver.onReceive` on the table. */
  function MarkTaken(rows: map<int, IntakeEntity>, intakeId: int, now: int): map<int, IntakeEntity> {
    if intakeId == -1 then rows
    else if intakeId in rows && !rows[intakeId].taken then rows[intakeId := rows[intakeId].(taken := true, takenAt := Some(now))]
    else rows
  }

  /**
   * Marking an intake taken: the missing extra (-1) and an unknown key change
   * nothing; a known intake ends up taken, keeps the stamp of its first marking
   * if it already was taken, and no other row changes.
   */
  lemma MarkTakenEffect(rows: map<int, IntakeEntity>, intakeId: int, now: int)
    ensures var r := MarkTaken(rows, intakeId, now);
      && r.Keys == rows.Keys
      && (forall id :: id in r && id != intakeId ==> r[id] == rows[id])
      && (intakeId == -1 || intakeId !in rows ==> r == rows)
      && (intakeId != -1 && intakeId in rows ==> r[intakeId].taken)
      && (intakeId in rows && rows[intakeId].taken ==> r[intakeId] == rows[intakeId])
      && (intakeId != -1 && intakeId in rows && !rows[intakeId].taken ==> r[intakeId] == rows[intakeId].(taken := true, takenAt := Some(now)))
  {
  }

  /** Pressing the action twice has the effect of pressing it once: the first stamp stays. */
  lemma MarkTakenIdempotent(rows: map<int, IntakeEntity>, intakeId: int, now1: int, now2: int)
    ensures MarkTaken(MarkTaken(rows, intakeId, now1), intakeId, now2) == MarkTaken(rows, intakeId, now1)
  {
  }

  /** Marking, toggling and updating keep every row consistent. */
  lemma EditsKeepRowsConsistent(rows: map<int, IntakeEntity>, e: IntakeEntity, intakeId: int, now: int)
    requires forall id :: id in rows ==> Consistent(rows[id])
    ensures forall id :: id in MarkTaken(rows, intakeId, now) ==> Consistent(MarkTaken(rows, intakeId, now)[id])
    ensures forall id :: id in UpdateRow(rows, Toggled(e, now)) ==> Consistent(UpdateRow(rows, Toggled(e, now))[id])
  {
  }

  /** The rows with keys `1..upTo` that belong to `profileId` and fall in `w`, in key order. */
  function RowsInRange(rows: map<int, IntakeEntity>, upTo: nat, profileId: int, w: Window): (r: seq<IntakeEntity>)
    ensures forall e :: e in r ==> e.profileId == profileId && w.Contains(e.intakeTime)
    ensures forall e :: e in r ==> exists id :: 0 < id <= upTo && id in rows && rows[id] == e
  {
    if upTo == 0 then []
    else
      var before := RowsInRange(rows, upTo - 1, profileId, w);
      if upTo in rows && rows[upTo].profileId == profileId && w.Contains(rows[upTo].intakeTime)
      then before + [rows[upTo]]
      else before
  }

  /** Every matching row is in the result. */
  lemma {:induction false} RowsInRangeComplete(rows: map<int, IntakeEntity>, upTo: nat, profileId: int, w: Window, id: int)
    requires 0 < id <= upTo && id in rows
    requires rows[id].profileId == profileId && w.Contains(rows[id].intakeTime)
    ensures rows[id] in RowsInRange(rows, upTo, profileId, w)
  {
    if id < upTo {
      RowsInRangeComplete(rows, upTo - 1, profileId, w, id);
    }
  }

  /** Room's `intakes` table with its autogenerated keys. */
  class IntakeDb {
    var rows: map<int, IntakeEntity>
    var lastId: int

    predicate Valid()
      reads this
    {
      0 <= lastId && WellKeyed(rows, lastId)
    }

    constructor ()
      ensures Valid() && rows == map[] && lastId == 0
    {
      rows, lastId := map[], 0;
    }

    /** `getIntakeById`. */
    method GetIntakeById(id: int) returns (r: Option<IntakeEntity>)
      ensures r.Some? <==> id in rows
      ensures r.Some? ==> r.value == rows[id]
    {
      r := if id in rows then Some(rows[id]) else None;
    }

    /** `updateIntake`. */
    method UpdateIntake(e: IntakeEntity)
      requires Valid()
      modifies this
      ensures Valid() && lastId == old(lastId)
      ensures rows == UpdateRow(old(rows), e)
    {
      if e.id in rows {
        rows := rows[e.id := e];
      }
    }

    /** `insertIntake` for an entity whose key is left to the database: it gets a key never used before. */
    method InsertIntake(e: IntakeEntity) returns (id: int)
      requires Valid() && e.id == 0
      modifies this
      ensures Valid()
      ensures id == old(lastId) + 1 && id !in old(rows) && lastId == id
      ensures rows == old(rows)[id := e.(id := id)]
    {
      lastId := lastId + 1;
      id := lastId;
      rows := rows[id := e.(id := id)];
    }

    /** `getIntakesForProfileInRange`: one emission of the query. */
    function InRange(profileId: int, w: Window): seq<IntakeEntity>
      reads this
      requires Valid()
    {
      RowsInRange(rows, lastId, profileId, w)
    }
  }

  /** `MarkTakenReceiver.onReceive`, with the coroutine run to completion. */
  method OnMarkTaken(db: IntakeDb, intakeId: int, now: int)
    requires db.Valid()
    modifies db
    ensures db.Valid() && db.lastId == old(db.lastId)
    ensures db.rows == MarkTaken(old(db.rows), intakeId, now)
  {
    if intakeId == -1 {
      return;
    }
    var intake := db.GetIntakeById(intakeId);
    if intake.Some? && !intake.value.taken {
      db.UpdateIntake(intake.value.(taken := true, takenAt := Some(now)));
    }
  }

  /** `IntakeChecklistViewModel`. */
  class ChecklistViewModel {
    var intakes: seq<IntakeEntity>

    constructor ()
      ensures intakes == []
    {
      intakes := [];
    }

    /** `loadIntakesForToday`, for one emission of the query. */
    method LoadIntakesForToday(db: IntakeDb, profileId: int, today: Date, offset: int)
      requires db.Valid()
      modifies this
      ensures intakes == db.InRange(profileId, TodayWindow(today, offset))
      ensures forall e :: e in intakes ==> e.profileId == profileId && LocalDay(e.intakeTime, offset) == today
    {
      intakes := db.InRange(profileId, TodayWindow(today, offset));
    }

    /** `toggleIntake`. */
    method ToggleIntake(db: IntakeDb, intake: IntakeEntity, now: int)
      requires db.Valid()
      modifies db
      ensures db.Valid() && db.lastId == old(db.lastId)
      ensures db.rows == UpdateRow(old(db.rows), Toggled(intake, now))
    {
      var updated := intake.(taken := !intake.taken, takenAt := if !intake.taken then Some(now) else None);
      db.UpdateIntake(updated);
    }

    /** `addPRNIntake`. */
    method AddPrnIntake(db: IntakeDb, profileId: int, supplementId: int, now: int) returns (id: int)
      requires db.Valid()
      modifies db
      ensures db.Valid() && id !in old(db.rows)
      ensures db.rows == old(db.rows)[id := PrnIntake(profileId, supplementId, now).(id := id)]
    {
      var prn := IntakeEntity(0, supplementId, profileId, now, true, Some(now));
      id := db.InsertIntake(prn);
    }
  }
}
