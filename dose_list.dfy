/**
 * The adherence log as the single-activity revision keeps it: the in-memory
 * dose list (`doseItems`) with its start-up sync from the shared preferences,
 * the UI broadcast that follows the "Taken" button, intake logging, and add,
 * edit and delete; and the checklist screen's local copy of the list, which
 * it edits for immediate feedback while it logs into the shared one.
 */
module DoseLedger {
  import opened Wrappers
  import opened Clock
  import opened Doses
  import opened SlotKeys
  import opened Reminders

  /** The entry every automatic path appends: taken at the slot's time, no reason. */
  function TakenEntry(date: Date, t: Time): DoseLog {
    DoseLog(date, t, Taken, None)
  }

  // ---------------------------------------------------------------------------
  // Start-up sync from the shared preferences

  /** One step of the sync: log the slot as taken if its flag is set and the log has no such entry. */
  function SyncTime(log: seq<DoseLog>, prefs: map<TakenKey, bool>, id: int, t: Time, today: Date): seq<DoseLog> {
    if IsTaken(prefs, TakenKey(id, FormatHHmm(t), today)) && NoneTakenAt(log, today, t)
    then log + [TakenEntry(today, t)]
    else log
  }

  function SyncTimes(log: seq<DoseLog>, prefs: map<TakenKey, bool>, id: int, times: seq<Time>, today: Date): seq<DoseLog> {
    if times == [] then log
    else SyncTime(SyncTimes(log, prefs, id, times[..|times| - 1], today), prefs, id, times[|times| - 1], today)
  }

  function SyncItem(d: DoseItem, prefs: map<TakenKey, bool>, today: Date): DoseItem {
    d.(adherenceLog := SyncTimes(d.adherenceLog, prefs, d.id, d.schedule.times, today))
  }

  function SyncAll(items: seq<DoseItem>, prefs: map<TakenKey, bool>, today: Date): seq<DoseItem> {
    seq(|items|, k requires 0 <= k < |items| => SyncItem(items[k], prefs, today))
  }

  /**
   * The sync only appends to a log, at most one entry per time, and every entry
   * it appends records one of the dose's times as taken today.
   */
  lemma {:induction false} SyncTimesAppendsOnly(log: seq<DoseLog>, prefs: map<TakenKey, bool>, id: int, times: seq<Time>, today: Date)
    ensures var r := SyncTimes(log, prefs, id, times, today);
      && |log| <= |r| <= |log| + |times|
      && r[..|log|] == log
      && forall k :: |log| <= k < |r| ==> r[k].date == today && r[k].status == Taken && r[k].reason == None && r[k].time in times
  {
    if times != [] {
      var init := times[..|times| - 1];
      SyncTimesAppendsOnly(log, prefs, id, init, today);
      var r0 := SyncTimes(log, prefs, id, init, today);
      assert forall t :: t in init ==> t in times;
      assert r0[..|log|] == log;
    }
  }

  /**
   * After the sync a slot of the dose is logged taken exactly once if its flag
   * is set and the log had no such entry; every other count is unchanged.
   */
  lemma {:induction false} SyncTimesCount(log: seq<DoseLog>, prefs: map<TakenKey, bool>, id: int, times: seq<Time>, today: Date, t: Time)
    ensures TakenCountAt(SyncTimes(log, prefs, id, times, today), today, t)
         == if t in times && IsTaken(prefs, TakenKey(id, FormatHHmm(t), today)) && TakenCountAt(log, today, t) == 0
            then 1 else TakenCountAt(log, today, t)
  {
    if times != [] {
      var init := times[..|times| - 1];
      var last := times[|times| - 1];
      assert times == init + [last];
      SyncTimesCount(log, prefs, id, init, today, t);
      var r0 := SyncTimes(log, prefs, id, init, today);
      if IsTaken(prefs, TakenKey(id, FormatHHmm(last), today)) && NoneTakenAt(r0, today, last) {
        TakenCountAppend(r0, TakenEntry(today, last), today, t);
      }
    }
  }

  /** A sync in which every set flag already has its entry changes nothing. */
  lemma {:induction false} SyncTimesNothingToDo(log: seq<DoseLog>, prefs: map<TakenKey, bool>, id: int, times: seq<Time>, today: Date)
    requires forall t :: t in times && IsTaken(prefs, TakenKey(id, FormatHHmm(t), today)) ==> !NoneTakenAt(log, today, t)
    ensures SyncTimes(log, prefs, id, times, today) == log
  {
    if times != [] {
      var init := times[..|times| - 1];
      assert forall t :: t in init ==> t in times;
      SyncTimesNothingToDo(log, prefs, id, init, today);
    }
  }

  /** Running the start-up sync twice has the effect of running it once. */
  lemma SyncIdempotent(d: DoseItem, prefs: map<TakenKey, bool>, today: Date)
    ensures SyncItem(SyncItem(d, prefs, today), prefs, today) == SyncItem(d, prefs, today)
  {
    var once := SyncItem(d, prefs, today);
    forall t | t in d.schedule.times && IsTaken(prefs, TakenKey(d.id, FormatHHmm(t), today))
      ensures !NoneTakenAt(once.adherenceLog, today, t)
    {
      SyncTimesCount(d.adherenceLog, prefs, d.id, d.schedule.times, today, t);
    }
    SyncTimesNothingToDo(once.adherenceLog, prefs, d.id, d.schedule.times, today);
  }

  // ---------------------------------------------------------------------------
  // The UI broadcast after "Taken"

  /** `indexOfFirst { it.id == id }`, with `None` for -1. */
  function FirstIndexOf(items: seq<DoseItem>, id: int): (r: Option<nat>)
    ensures r.Some? ==> r.value < |items| && items[r.value].id == id && forall k :: 0 <= k < r.value ==> items[k].id != id
    ensures r.None? <==> forall k :: 0 <= k < |items| ==> items[k].id != id
  {
    if items == [] then None
    else if items[0].id == id then Some(0)
    else match FirstIndexOf(items[1..], id)
      case None => None
      case Some(k) => Some(k + 1)
  }

  /**
   * The UI receiver: log the dose with this id as taken today at the parsed
   * time unless such an entry exists; an unknown id, a missing time or one that
   * does not parse as "HH:mm" changes nothing.
   */
  function UiTaken(items: seq<DoseItem>, doseId: int, doseTime: Option<string>, today: Date): seq<DoseItem> {
    match FirstIndexOf(items, doseId)
    case None => items
    case Some(idx) =>
      var time := if doseTime.Some? then ParseHHmm(doseTime.value) else None;
      if time.Some? && NoneTakenAt(items[idx].adherenceLog, today, time.value)
      then items[idx := items[idx].(adherenceLog := items[idx].adherenceLog + [TakenEntry(today, time.value)])]
      else items
  }

  /** A time without seconds, as every time the dose dialog produces. */
  predicate WholeMinute(t: Time) {
    t.second == 0 && t.nano == 0
  }

  /**
   * The broadcast the "Taken" button sends for a slot logs that slot as taken
   * today exactly once on the first dose with that id, and leaves every other
   * dose, and every other field of that dose, as it was.
   */
  lemma UiTakenLogsSlot(items: seq<DoseItem>, idx: nat, t: Time, today: Date)
    requires WholeMinute(t)
    requires idx < |items| && FirstIndexOf(items, items[idx].id) == Some(idx)
    ensures var r := UiTaken(items, items[idx].id, Some(FormatHHmm(t)), today);
      && |r| == |items|
      && (forall k :: 0 <= k < |r| && k != idx ==> r[k] == items[k])
      && r[idx] == items[idx].(adherenceLog := r[idx].adherenceLog)
      && TakenCountAt(r[idx].adherenceLog, today, t) == if TakenCountAt(items[idx].adherenceLog, today, t) == 0 then 1 else TakenCountAt(items[idx].adherenceLog, today, t)
  {
    ParseFormatHHmm(t);
    var log := items[idx].adherenceLog;
    var r := UiTaken(items, items[idx].id, Some(FormatHHmm(t)), today);
    if NoneTakenAt(log, today, t) {
      assert r[idx].adherenceLog == log + [TakenEntry(today, t)];
      TakenCountAppend(log, TakenEntry(today, t), today, t);
    } else {
      assert r == items;
    }
  }

  /** An id that no dose has, or a missing time, leaves the list as it was. */
  lemma UiTakenUnknownIgnored(items: seq<DoseItem>, doseId: int, doseTime: Option<string>, today: Date)
    requires (forall k :: 0 <= k < |items| ==> items[k].id != doseId) || doseTime.None?
    ensures UiTaken(items, doseId, doseTime, today) == items
  {
  }

  /** Delivering the same UI broadcast twice has the effect of delivering it once. */
  lemma UiTakenIdempotent(items: seq<DoseItem>, doseId: int, doseTime: Option<string>, today: Date)
    ensures UiTaken(UiTaken(items, doseId, doseTime, today), doseId, doseTime, today) == UiTaken(items, doseId, doseTime, today)
  {
    var once := UiTaken(items, doseId, doseTime, today);
    var f := FirstIndexOf(items, doseId);
    if f.Some? && doseTime.Some? && ParseHHmm(doseTime.value).Some? {
      var idx := f.value;
      var t := ParseHHmm(doseTime.value).value;
      assert forall k :: 0 <= k < |once| ==> once[k].id == items[k].id;
      assert FirstIndexOf(once, doseId) == Some(idx);
      if NoneTakenAt(items[idx].adherenceLog, today, t) {
        var log := once[idx].adherenceLog;
        assert log[|log| - 1] == TakenEntry(today, t);
        assert !NoneTakenAt(log, today, t);
      }
    }
  }

  /**
   * The sync and the UI broadcast agree: after the broadcast for a slot whose
   * flag is set, the start-up sync adds nothing for that slot.
   */
  lemma SyncAfterUiTakenAddsNothing(items: seq<DoseItem>, idx: nat, t: Time, prefs: map<TakenKey, bool>, today: Date)
    requires WholeMinute(t)
    requires idx < |items| && FirstIndexOf(items, items[idx].id) == Some(idx)
    ensures var r := UiTaken(items, items[idx].id, Some(FormatHHmm(t)), today);
      TakenCountAt(SyncItem(r[idx], prefs, today).adherenceLog, today, t) == TakenCountAt(r[idx].adherenceLog, today, t)
  {
    var r := UiTaken(items, items[idx].id, Some(FormatHHmm(t)), today);
    UiTakenLogsSlot(items, idx, t, today);
    SyncTimesCount(r[idx].adherenceLog, prefs, r[idx].id, r[idx].schedule.times, today, t);
  }

  // ---------------------------------------------------------------------------
  // Logging, add, edit, delete

  /** `onLogIntake`: append an entry with the given status at the current time to dose `idx`. */
  function LogIntake(items: seq<DoseItem>, idx: nat, status: DoseStatus, reason: Option<string>, date: Date, now: Time): (r: seq<DoseItem>)
    requires idx < |items|
    ensures |r| == |items| && forall k :: 0 <= k < |r| && k != idx ==> r[k] == items[k]
    ensures |r[idx].adherenceLog| == |items[idx].adherenceLog| + 1
    ensures r[idx].adherenceLog[..|items[idx].adherenceLog|] == items[idx].adherenceLog
    ensures LastOn(r[idx].adherenceLog, date) == Some(DoseLog(date, now, status, reason))
  {
    items[idx := items[idx].(adherenceLog := items[idx].adherenceLog + [DoseLog(date, now, status, reason)])]
  }

  /**
   * The item the add/edit dialog hands on: the edited dose's id (or a fresh
   * one), the fields of the form, one time, and the default, empty log.
   */
  function DialogItem(edited: Option<DoseItem>, freshId: int, name: string, dosage: string, kind: DoseType, time: Time, days: seq<int>): DoseItem {
    DoseItem(if edited.Some? then edited.value.id else freshId, name, dosage, kind, DoseSchedule([time], days, None), [])
  }

  /** `onEdit` applied to what the dialog builds: the dose's whole log is replaced by an empty one. */
  function EditAsWritten(items: seq<DoseItem>, idx: nat, name: string, dosage: string, kind: DoseType, time: Time, days: seq<int>): seq<DoseItem>
    requires idx < |items|
  {
    items[idx := DialogItem(Some(items[idx]), 0, name, dosage, kind, time, days)]
  }

  /** Renaming a dose that was taken once leaves no taken entry on record. */
  lemma EditAsWrittenLosesHistory()
    ensures var t := TimeOf(8, 0);
      var creatine := DoseItem(7, "Creatine", "5 g", Supplement, DoseSchedule([t], [0, 1, 2, 3, 4, 5, 6], None), [TakenEntry(20000, t)]);
      && TakenCountAt(creatine.adherenceLog, 20000, t) == 1
      && TakenCountAt(EditAsWritten([creatine], 0, "Creatine HCl", "5 g", Supplement, t, [0, 1, 2, 3, 4, 5, 6])[0].adherenceLog, 20000, t) == 0
  {
    var t := TimeOf(8, 0);
    var log := [TakenEntry(20000, t)];
    assert log[..0] == [];
  }

  /** Editing a dose: the form's fields replace the dose's, its id and its log are kept. */
  function Edit(items: seq<DoseItem>, idx: nat, saved: DoseItem): (r: seq<DoseItem>)
    requires idx < |items|
    ensures |r| == |items| && forall k :: 0 <= k < |r| && k != idx ==> r[k] == items[k]
    ensures r[idx].id == items[idx].id && r[idx].adherenceLog == items[idx].adherenceLog
    ensures r[idx].name == saved.name && r[idx].dosage == saved.dosage && r[idx].kind == saved.kind && r[idx].schedule == saved.schedule
  {
    items[idx := saved.(id := items[idx].id, adherenceLog := items[idx].adherenceLog)]
  }

  /** `removeAt(idx)`. */
  function Delete(items: seq<DoseItem>, idx: nat): (r: seq<DoseItem>)
    requires idx < |items|
    ensures |r| == |items| - 1
    ensures forall k :: 0 <= k < idx ==> r[k] == items[k]
    ensures forall k :: idx <= k < |r| ==> r[k] == items[k + 1]
  {
    items[..idx] + items[idx + 1..]
  }

  // ---------------------------------------------------------------------------
  // The checklist

  /** `findLast { it.date == d }`. */
  function LastOn(log: seq<DoseLog>, d: Date): (r: Option<DoseLog>)
    ensures r.Some? ==> r.value in log && r.value.date == d
    ensures r.None? <==> forall k :: 0 <= k < |log| ==> log[k].date != d
  {
    if log == [] then None
    else if log[|log| - 1].date == d then Some(log[|log| - 1])
    else LastOn(log[..|log| - 1], d)
  }

  /** What `findLast` finds is the entry of the day that no later entry of the day follows. */
  lemma {:induction false} LastOnIsLast(log: seq<DoseLog>, d: Date)
    requires LastOn(log, d).Some?
    ensures exists k :: 0 <= k < |log| && log[k] == LastOn(log, d).value && forall j :: k < j < |log| ==> log[j].date != d
  {
    var n := |log| - 1;
    if log[n].date == d {
      assert log[n] == LastOn(log, d).value;
    } else {
      LastOnIsLast(log[..n], d);
      var k :| 0 <= k < n && log[..n][k] == LastOn(log[..n], d).value && forall j :: k < j < n ==> log[..n][j].date != d;
      assert log[k] == LastOn(log, d).value;
      assert forall j :: k < j < |log| ==> log[j].date != d by {
        forall j | k < j < |log| ensures log[j].date != d {
          if j < n { assert log[j] == log[..n][j]; }
        }
      }
    }
  }

  /** The checkbox: the last entry of the day records the dose as taken. */
  predicate Checked(item: DoseItem, d: Date) {
    var last := LastOn(item.adherenceLog, d);
    last.Some? && last.value.status == Taken
  }

  /** `removeIf { it.date == d && it.status == TAKEN }`. */
  function RemoveTakenOn(log: seq<DoseLog>, d: Date): (r: seq<DoseLog>)
    ensures |r| <= |log|
    ensures forall e :: e in r <==> e in log && !(e.date == d && e.status == Taken)
  {
    if log == [] then []
    else
      var init := RemoveTakenOn(log[..|log| - 1], d);
      var e := log[|log| - 1];
      assert log == log[..|log| - 1] + [e];
      if e.date == d && e.status == Taken then init else init + [e]
  }

  /**
   * `removeIf` keeps the order and the repetitions of what it keeps: removing
   * from a concatenation removes from each part.
   */
  lemma {:induction false} RemoveTakenOnAppend(a: seq<DoseLog>, b: seq<DoseLog>, d: Date)
    ensures RemoveTakenOn(a + b, d) == RemoveTakenOn(a, d) + RemoveTakenOn(b, d)
    decreases |b|
  {
    if b == [] {
      assert a + b == a;
    } else {
      var n := |b| - 1;
      assert (a + b)[..|a + b| - 1] == a + b[..n];
      assert (a + b)[|a + b| - 1] == b[n];
      RemoveTakenOnAppend(a, b[..n], d);
    }
  }

  /** On a single entry `removeIf` drops it exactly when it is a taken entry of the day. */
  lemma RemoveTakenOnOne(e: DoseLog, d: Date)
    ensures RemoveTakenOn([e], d) == if e.date == d && e.status == Taken then [] else [e]
  {
    assert [e][..0] == [];
  }

  /** The change the checklist makes to its own copy of the dose. */
  function LocalToggle(item: DoseItem, d: Date, isChecked: bool, now: Time): DoseItem {
    if isChecked then item.(adherenceLog := item.adherenceLog + [TakenEntry(d, now)])
    else item.(adherenceLog := RemoveTakenOn(item.adherenceLog, d))
  }

  /** The status the checklist logs into the shared list: unchecking logs a skip. */
  function StatusFor(isChecked: bool): DoseStatus {
    if isChecked then Taken else Skipped
  }

  /** In the checklist's own copy, the checkbox shows what was just chosen. */
  lemma LocalToggleShowsChoice(item: DoseItem, d: Date, isChecked: bool, now: Time)
    ensures Checked(LocalToggle(item, d, isChecked, now), d) == isChecked
  {
    var log := LocalToggle(item, d, isChecked, now).adherenceLog;
    if isChecked {
      assert LastOn(log, d) == Some(TakenEntry(d, now));
    }
  }

  /**
   * Once the copy is refreshed from the shared list, the checkbox still shows
   * what was chosen: the shared log's last entry of the day is the one just
   * logged, even though unchecking removed nothing from it.
   */
  lemma SharedLogShowsChoice(items: seq<DoseItem>, idx: nat, d: Date, isChecked: bool, now: Time)
    requires idx < |items|
    ensures Checked(LogIntake(items, idx, StatusFor(isChecked), None, d, now)[idx], d) == isChecked
    ensures TakenCountAt(LogIntake(items, idx, StatusFor(isChecked), None, d, now)[idx].adherenceLog, d, now)
         == TakenCountAt(items[idx].adherenceLog, d, now) + (if isChecked then 1 else 0)
  {
    TakenCountAppend(items[idx].adherenceLog, DoseLog(d, now, StatusFor(isChecked), None), d, now);
  }

  // ---------------------------------------------------------------------------
  // The state holders

  /** The activity's `doseItems` state. */
  class DoseList {
    var items: seq<DoseItem>

    constructor (initial: seq<DoseItem>)
      ensures items == initial
    {
      items := initial;
    }

    /** The start-up effect that copies set "taken" flags into the logs. */
    method SyncFromPrefs(prefs: map<TakenKey, bool>, today: Date)
      modifies this
      ensures items == SyncAll(old(items), prefs, today)
    {
      var idx := 0;
      while idx < |items|
        invariant 0 <= idx <= |items| && |items| == |old(items)|
        invariant forall k :: 0 <= k < idx ==> items[k] == SyncItem(old(items)[k], prefs, today)
        invariant forall k :: idx <= k < |items| ==> items[k] == old(items)[k]
      {
        var item := items[idx];
        var log := SyncedLog(item, prefs, today);
        items := items[idx := item.(adherenceLog := log)];
        idx := idx + 1;
      }
    }

    /** The sync's inner loop over the times of one dose. */
    static method SyncedLog(item: DoseItem, prefs: map<TakenKey, bool>, today: Date) returns (log: seq<DoseLog>)
      ensures log == SyncTimes(item.adherenceLog, prefs, item.id, item.schedule.times, today)
    {
      log := item.adherenceLog;
      var j := 0;
      while j < |item.schedule.times|
        invariant 0 <= j <= |item.schedule.times|
        invariant log == SyncTimes(item.adherenceLog, prefs, item.id, item.schedule.times[..j], today)
      {
        var time := item.schedule.times[j];
        var key := TakenKey(item.id, FormatHHmm(time), today);
        if key in prefs && prefs[key] {
          if NoneTakenAt(log, today, time) {
            log := log + [DoseLog(today, time, Taken, None)];
          }
        }
        assert item.schedule.times[..j + 1][..j] == item.schedule.times[..j];
        j := j + 1;
      }
      assert item.schedule.times[..j] == item.schedule.times;
    }

    /** The receiver of the activity's UI broadcast. */
    method OnDoseTakenUi(doseId: int, doseTime: Option<string>, today: Date)
      modifies this
      ensures items == UiTaken(old(items), doseId, doseTime, today)
    {
      var idx := FirstIndexOf(items, doseId);
      if idx.Some? {
        var item := items[idx.value];
        var time := if doseTime.Some? then ParseHHmm(doseTime.value) else None;
        if time.Some? && NoneTakenAt(item.adherenceLog, today, time.value) {
          items := items[idx.value := item.(adherenceLog := item.adherenceLog + [DoseLog(today, time.value, Taken, None)])];
        }
      }
    }

    /** `onLogIntake(idx, status, reason, date)`. */
    method LogIntakeAt(idx: nat, status: DoseStatus, reason: Option<string>, date: Date, now: Time)
      requires idx < |items|
      modifies this
      ensures items == LogIntake(old(items), idx, status, reason, date, now)
    {
      var item := items[idx];
      items := items[idx := item.(adherenceLog := item.adherenceLog + [DoseLog(date, now, status, reason)])];
    }

    /** `onAdd`. */
    method Add(d: DoseItem)
      modifies this
      ensures items == old(items) + [d]
    {
      items := items + [d];
    }

    /** `onEdit`, keeping the dose's id and log. */
    method EditAt(idx: nat, saved: DoseItem)
      requires idx < |items|
      modifies this
      ensures items == Edit(old(items), idx, saved)
    {
      var item := items[idx];
      items := items[idx := saved.(id := item.id, adherenceLog := item.adherenceLog)];
    }

    /** `onDelete`. */
    method DeleteAt(idx: nat)
      requires idx < |items|
      modifies this
      ensures items == Delete(old(items), idx)
    {
      items := items[..idx] + items[idx + 1..];
    }

    /**
     * Deleting a dose as it should be done: remove it from the list and cancel
     * the alarm under each of its slot codes, so none of them can fire later.
     */
    method DeleteAndCancel(device: Device, idx: nat)
      requires idx < |items|
      modifies this, device
      ensures items == Delete(old(items), idx)
      ensures device.State() == CancelDose(old(device.State()), old(items[idx]))
    {
      var item := items[idx];
      device.CancelDoseReminders(item);
      DeleteAt(idx);
    }
  }

  /** The checklist screen's `localDoseItems`. */
  class Checklist {
    var local: seq<DoseItem>

    constructor (shared: seq<DoseItem>)
      ensures local == shared
    {
      local := shared;
    }

    /** The effect that refreshes the copy whenever the shared list or the date changes. */
    method Resync(shared: seq<DoseItem>)
      modifies this
      ensures local == shared
    {
      local := shared;
    }

    /** The checkbox of dose `idx` set to `isChecked` for `date`. */
    method SetChecked(store: DoseList, idx: nat, date: Date, isChecked: bool, now: Time)
      requires idx < |local| && idx < |store.items|
      modifies this, store
      ensures local == old(local)[idx := LocalToggle(old(local)[idx], date, isChecked, now)]
      ensures store.items == LogIntake(old(store.items), idx, StatusFor(isChecked), None, date, now)
    {
      var updated := local[idx];
      if isChecked {
        updated := updated.(adherenceLog := updated.adherenceLog + [TakenEntry(date, now)]);
        store.LogIntakeAt(idx, Taken, None, date, now);
      } else {
        updated := updated.(adherenceLog := RemoveTakenOn(updated.adherenceLog, date));
        store.LogIntakeAt(idx, Skipped, None, date, now);
      }
      local := local[idx := updated];
    }

    /** A click on the card: flip what the checkbox shows. */
    method ToggleCard(store: DoseList, idx: nat, date: Date, now: Time)
      requires idx < |local| && idx < |store.items|
      modifies this, store
      ensures local == old(local)[idx := LocalToggle(old(local)[idx], date, !Checked(old(local)[idx], date), now)]
      ensures store.items == LogIntake(old(store.items), idx, StatusFor(!Checked(old(local)[idx], date)), None, date, now)
    {
      var checked := Checked(local[idx], date);
      SetChecked(store, idx, date, !checked, now);
    }
  }
}
