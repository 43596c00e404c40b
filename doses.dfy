/**
 * The dose records of the single-activity revision of the app: a dose with
 * its schedule and its adherence log.
 */
module Doses {
  import opened Wrappers
  import opened Clock

  datatype DoseType = Medication | Supplement

  datatype DoseStatus = Taken | Skipped | Missed

  /**
   * `DoseSchedule`. The weekday list and the duration are stored but, as in
   * the app, nothing that schedules reminders reads them.
   */
  datatype DoseSchedule = DoseSchedule(times: seq<Time>, recurrenceDays: seq<int>, durationDays: Option<int>)

  datatype DoseLog = DoseLog(date: Date, time: Time, status: DoseStatus, reason: Option<string>)

  datatype DoseItem = DoseItem(
    id: int,
    name: string,
    dosage: string,
    kind: DoseType,
    schedule: DoseSchedule,
    adherenceLog: seq<DoseLog>)

  /** Whether `e` records the dose as taken at `time` on `date`. */
  predicate IsTakenAt(e: DoseLog, date: Date, time: Time) {
    e.date == date && e.time == time && e.status == Taken
  }

  /** How many entries of `log` record the dose as taken at `time` on `date`. */
  function TakenCountAt(log: seq<DoseLog>, date: Date, time: Time): (n: nat)
    ensures n <= |log|
    ensures n == 0 <==> forall i :: 0 <= i < |log| ==> !IsTakenAt(log[i], date, time)
  {
    if log == [] then 0
    else TakenCountAt(log[..|log| - 1], date, time) + (if IsTakenAt(log[|log| - 1], date, time) then 1 else 0)
  }

  /** `log.none { it.date == date && it.time == time && it.status == TAKEN }`. */
  predicate NoneTakenAt(log: seq<DoseLog>, date: Date, time: Time) {
    forall i :: 0 <= i < |log| ==> !IsTakenAt(log[i], date, time)
  }

  /** Counting over a log extended by one entry. */
  lemma TakenCountAppend(log: seq<DoseLog>, e: DoseLog, date: Date, time: Time)
    ensures TakenCountAt(log + [e], date, time)
         == TakenCountAt(log, date, time) + (if IsTakenAt(e, date, time) then 1 else 0)
  {
    assert (log + [e])[..|log|] == log;
  }
}
