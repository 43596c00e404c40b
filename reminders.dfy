/**
 * The reminder state machine of the single-activity revision: the pass that
 * registers one exact alarm per (dose, time) slot, the branch that cancels
 * them when notifications are switched off, the receiver that shows the
 * "missed dose" notification when an alarm fires, and the receiver behind its
 * "Taken" button.
 *
 * The platform services are values: the `suppletrack` shared preferences as a
 * map from key to flag, the alarm manager as a map from request code to the
 * alarm registered under it, and the notification manager as the set of ids
 * on screen. `Device` holds them as fields; its methods are proved to act as
 * the functions below, and the lemmas are stated about those functions.
 */
module Reminders {
  import opened Wrappers
  import opened Decimal
  import opened Clock
  import opened Doses
  import opened SlotKeys

  /** The extras of a broadcast intent; each may be missing. */
  datatype Extras = Extras(doseId: Option<int>, doseName: Option<string>, doseTime: Option<string>, doseDate: Option<Date>)

  /** An exact alarm: when it fires and what it delivers to the missed-dose receiver. */
  datatype Alarm = Alarm(at: int, extras: Extras)

  datatype Platform = Platform(prefs: map<TakenKey, bool>, alarms: map<int, Alarm>, shown: set<int>)

  /** `prefs.getBoolean(key, false)`. */
  predicate IsTaken(prefs: map<TakenKey, bool>, key: TakenKey) {
    key in prefs && prefs[key]
  }

  /** One time of one dose. */
  datatype Slot = Slot(doseId: int, doseName: string, time: Time)

  function SlotsOf(d: DoseItem): (s: seq<Slot>)
    ensures |s| == |d.schedule.times|
    ensures forall k :: 0 <= k < |s| ==> s[k] == Slot(d.id, d.name, d.schedule.times[k])
  {
    seq(|d.schedule.times|, k requires 0 <= k < |d.schedule.times| => Slot(d.id, d.name, d.schedule.times[k]))
  }

  /** The slots in the order the nested loops visit them: dose by dose, time by time. */
  function Slots(doses: seq<DoseItem>): seq<Slot> {
    if doses == [] then [] else Slots(doses[..|doses| - 1]) + SlotsOf(doses[|doses| - 1])
  }

  function SlotCode(s: Slot): int {
    RequestCode(s.doseId, s.time)
  }

  function SlotKey(s: Slot, day: Date): TakenKey {
    TakenKey(s.doseId, FormatHHmm(s.time), day)
  }

  /** The extras the scheduler puts on a slot's alarm intent. */
  function SlotExtras(s: Slot, day: Date): Extras {
    Extras(Some(s.doseId), Some(s.doseName), Some(FormatHHmm(s.time)), Some(day))
  }

  function SlotAlarm(s: Slot, day: Date): Alarm {
    Alarm(SlotInstant(day, s.time), SlotExtras(s, day))
  }

  /**
   * What one scheduling pass reads from outside: today's date, the wall clock,
   * whether exact alarms are permitted, and the request codes for which the
   * alarm manager throws `SecurityException`.
   */
  datatype Env = Env(today: Date, now: int, canScheduleExact: bool, refused: set<int>)

  /** The three conditions under which the pass asks for an alarm. */
  predicate Due(prefs: map<TakenKey, bool>, s: Slot, env: Env) {
    && SlotInstant(env.today, s.time) >= env.now
    && env.canScheduleExact
    && !IsTaken(prefs, SlotKey(s, env.today))
  }

  /** A due slot whose registration the alarm manager accepts. */
  predicate Lands(prefs: map<TakenKey, bool>, s: Slot, env: Env) {
    Due(prefs, s, env) && SlotCode(s) !in env.refused
  }

  function Register(alarms: map<int, Alarm>, prefs: map<TakenKey, bool>, s: Slot, env: Env): map<int, Alarm> {
    if Lands(prefs, s, env) then alarms[SlotCode(s) := SlotAlarm(s, env.today)] else alarms
  }

  function RegisterAll(alarms: map<int, Alarm>, prefs: map<TakenKey, bool>, slots: seq<Slot>, env: Env): map<int, Alarm> {
    if slots == [] then alarms
    else Register(RegisterAll(alarms, prefs, slots[..|slots| - 1], env), prefs, slots[|slots| - 1], env)
  }

  /** `scheduleMissedDoseNotifications`: nothing is cancelled, alarms are only added or replaced. */
  function Schedule(p: Platform, doses: seq<DoseItem>, env: Env): Platform {
    p.(alarms := RegisterAll(p.alarms, p.prefs, Slots(doses), env))
  }

  function SlotCodes(slots: seq<Slot>): set<int> {
    if slots == [] then {} else SlotCodes(slots[..|slots| - 1]) + {SlotCode(slots[|slots| - 1])}
  }

  /**
   * The notifications-disabled branch: cancel the alarm under every slot code of
   * the current doses, then clear every notification.
   */
  function Disable(p: Platform, doses: seq<DoseItem>): Platform {
    p.(alarms := p.alarms - SlotCodes(Slots(doses)), shown := {})
  }

  /** Cancel the alarm of every time of one dose. */
  function CancelDose(p: Platform, d: DoseItem): Platform {
    p.(alarms := p.alarms - SlotCodes(SlotsOf(d)))
  }

  /** The key a receiver reads or writes, with the intent's defaults filled in. */
  function KeyOf(e: Extras, today: Date): TakenKey {
    TakenKey(e.doseId.GetOr(-1), e.doseTime.GetOr(""), e.doseDate.GetOr(today))
  }

  /** The notification id computed from an intent's dose id and time. */
  function NotificationIdOf(e: Extras): Option<int> {
    NotificationId(e.doseId.GetOr(-1), e.doseTime.GetOr(""))
  }

  /**
   * The id the missed-dose receiver shows its notification under; `None` when
   * either `toInt()` on the way (the action's request code, then the id) throws.
   */
  function ReminderId(e: Extras): Option<int> {
    if ParseInt32(RemoveColons(e.doseTime.GetOr(""))).None? then None else NotificationIdOf(e)
  }

  /** `MissedDoseReceiver.onReceive`. */
  function MissedDose(p: Platform, e: Extras, today: Date): Platform {
    if IsTaken(p.prefs, KeyOf(e, today)) then p
    else match ReminderId(e)
      case None => p
      case Some(n) => p.(shown := p.shown + {n})
  }

  /** `DoseTakenReceiver.onReceive`: write the flag, then cancel the notification. */
  function DoseTaken(p: Platform, e: Extras, today: Date): Platform {
    var written := p.(prefs := p.prefs[KeyOf(e, today) := true]);
    match NotificationIdOf(e)
    case None => written
    case Some(n) => written.(shown := written.shown - {n})
  }

  /** The alarm manager firing the alarm under `code`: it is consumed and its intent delivered. */
  function Fire(p: Platform, code: int, today: Date): Platform {
    if code in p.alarms then MissedDose(p.(alarms := p.alarms - {code}), p.alarms[code].extras, today) else p
  }

  // ---------------------------------------------------------------------------
  // The scheduling pass

  lemma {:induction false} SlotsAppend(doses: seq<DoseItem>, d: DoseItem)
    ensures Slots(doses + [d]) == Slots(doses) + SlotsOf(d)
  {
    assert (doses + [d])[..|doses|] == doses;
  }

  /** The slots the nested loops have visited before time `j` of dose `i`. */
  function Visited(doses: seq<DoseItem>, i: nat, j: nat): seq<Slot>
    requires i < |doses| && j <= |doses[i].schedule.times|
  {
    Slots(doses[..i]) + SlotsOf(doses[i])[..j]
  }

  lemma VisitedStart(doses: seq<DoseItem>, i: nat)
    requires i < |doses|
    ensures Visited(doses, i, 0) == Slots(doses[..i])
  {
  }

  lemma VisitedEnd(doses: seq<DoseItem>, i: nat)
    requires i < |doses|
    ensures Visited(doses, i, |doses[i].schedule.times|) == Slots(doses[..i + 1])
  {
    assert SlotsOf(doses[i])[..|doses[i].schedule.times|] == SlotsOf(doses[i]);
    assert doses[..i + 1] == doses[..i] + [doses[i]];
    SlotsAppend(doses[..i], doses[i]);
  }

  lemma VisitedStep(doses: seq<DoseItem>, i: nat, j: nat)
    requires i < |doses| && j < |doses[i].schedule.times|
    ensures Visited(doses, i, j + 1) == Visited(doses, i, j) + [Slot(doses[i].id, doses[i].name, doses[i].schedule.times[j])]
  {
    assert SlotsOf(doses[i])[..j + 1] == SlotsOf(doses[i])[..j] + [SlotsOf(doses[i])[j]];
  }

  /** One step of the scheduling loop, as the registration of one more visited slot. */
  lemma ScheduleStep(a0: map<int, Alarm>, prefs: map<TakenKey, bool>, doses: seq<DoseItem>, i: nat, j: nat, env: Env)
    requires i < |doses| && j < |doses[i].schedule.times|
    ensures var s := Slot(doses[i].id, doses[i].name, doses[i].schedule.times[j]);
      RegisterAll(a0, prefs, Visited(doses, i, j + 1), env) == Register(RegisterAll(a0, prefs, Visited(doses, i, j), env), prefs, s, env)
  {
    VisitedStep(doses, i, j);
    RegisterAllAppend(a0, prefs, Visited(doses, i, j), Slot(doses[i].id, doses[i].name, doses[i].schedule.times[j]), env);
  }

  /** One step of the loop that cancels a dose's alarms, as the removal of one more slot's code. */
  lemma CancelDoseStep(a0: map<int, Alarm>, d: DoseItem, j: nat, current: map<int, Alarm>)
    requires j < |d.schedule.times|
    requires current == a0 - SlotCodes(SlotsOf(d)[..j])
    ensures var c := RequestCode(d.id, d.schedule.times[j]);
      (if c in current then current - {c} else current) == a0 - SlotCodes(SlotsOf(d)[..j + 1])
  {
    assert SlotsOf(d)[..j + 1] == SlotsOf(d)[..j] + [SlotsOf(d)[j]];
    SlotCodesAppend(SlotsOf(d)[..j], SlotsOf(d)[j]);
    CancelOneMore(a0, SlotCodes(SlotsOf(d)[..j]), SlotCode(SlotsOf(d)[j]));
  }

  lemma {:induction false} SlotCodesJoin(a: seq<Slot>, b: seq<Slot>)
    ensures SlotCodes(a + b) == SlotCodes(a) + SlotCodes(b)
  {
    if b != [] {
      assert (a + b)[..|a + b| - 1] == a + b[..|b| - 1];
      assert (a + b)[|a + b| - 1] == b[|b| - 1];
      SlotCodesJoin(a, b[..|b| - 1]);
    } else {
      assert a + b == a;
    }
  }

  /** One step of the disable branch's outer loop: the codes of one more dose are gone. */
  lemma DisableStep(a0: map<int, Alarm>, doses: seq<DoseItem>, i: nat)
    requires i < |doses|
    ensures (a0 - SlotCodes(Slots(doses[..i]))) - SlotCodes(SlotsOf(doses[i])) == a0 - SlotCodes(Slots(doses[..i + 1]))
  {
    assert doses[..i + 1] == doses[..i] + [doses[i]];
    SlotsAppend(doses[..i], doses[i]);
    SlotCodesJoin(Slots(doses[..i]), SlotsOf(doses[i]));
    RemoveTwice(a0, SlotCodes(Slots(doses[..i])), SlotCodes(SlotsOf(doses[i])));
  }

  lemma RemoveTwice(m: map<int, Alarm>, x: set<int>, y: set<int>)
    ensures (m - x) - y == m - (x + y)
  {
  }

  lemma RegisterAllAppend(alarms: map<int, Alarm>, prefs: map<TakenKey, bool>, slots: seq<Slot>, s: Slot, env: Env)
    ensures RegisterAll(alarms, prefs, slots + [s], env) == Register(RegisterAll(alarms, prefs, slots, env), prefs, s, env)
  {
    assert (slots + [s])[..|slots|] == slots;
  }

  /**
   * A code that no landing slot maps to keeps whatever the alarm manager held
   * under it: the pass neither adds, replaces nor cancels it.
   */
  lemma {:induction false} RegisterAllUntouched(alarms: map<int, Alarm>, prefs: map<TakenKey, bool>, slots: seq<Slot>, env: Env, c: int)
    requires forall k :: 0 <= k < |slots| && Lands(prefs, slots[k], env) ==> SlotCode(slots[k]) != c
    ensures c in RegisterAll(alarms, prefs, slots, env) <==> c in alarms
    ensures c in alarms ==> RegisterAll(alarms, prefs, slots, env)[c] == alarms[c]
  {
    if slots != [] {
      var init := slots[..|slots| - 1];
      assert forall k :: 0 <= k < |init| ==> init[k] == slots[k];
      RegisterAllUntouched(alarms, prefs, init, env, c);
    }
  }

  /**
   * A landing slot that no later landing slot shares a code with leaves its own
   * alarm under its code, whatever happened to the other slots.
   */
  lemma {:induction false} RegisterAllLands(alarms: map<int, Alarm>, prefs: map<TakenKey, bool>, slots: seq<Slot>, env: Env, k: nat)
    requires k < |slots| && Lands(prefs, slots[k], env)
    requires forall j :: k < j < |slots| && Lands(prefs, slots[j], env) ==> SlotCode(slots[j]) != SlotCode(slots[k])
    ensures SlotCode(slots[k]) in RegisterAll(alarms, prefs, slots, env)
    ensures RegisterAll(alarms, prefs, slots, env)[SlotCode(slots[k])] == SlotAlarm(slots[k], env.today)
  {
    var init := slots[..|slots| - 1];
    if k < |slots| - 1 {
      assert forall j :: 0 <= j < |init| ==> init[j] == slots[j];
      RegisterAllLands(alarms, prefs, init, env, k);
    }
  }

  /** Every alarm the pass writes is for a moment not before `now`. */
  lemma {:induction false} RegisterAllFuture(alarms: map<int, Alarm>, prefs: map<TakenKey, bool>, slots: seq<Slot>, env: Env, c: int)
    requires c in RegisterAll(alarms, prefs, slots, env)
    ensures (c in alarms && RegisterAll(alarms, prefs, slots, env)[c] == alarms[c])
         || RegisterAll(alarms, prefs, slots, env)[c].at >= env.now
  {
    if slots != [] {
      var init := slots[..|slots| - 1];
      var s := slots[|slots| - 1];
      if !(Lands(prefs, s, env) && SlotCode(s) == c) {
        RegisterAllFuture(alarms, prefs, init, env, c);
      }
    }
  }

  /** No two slots of the list share a request code. */
  predicate DistinctCodes(slots: seq<Slot>) {
    forall i, j :: 0 <= i < j < |slots| ==> SlotCode(slots[i]) != SlotCode(slots[j])
  }

  /**
   * Slots of safe, distinct (dose id, hour, minute) have distinct codes, because
   * the request code is injective on them.
   */
  lemma DistinctSlotsHaveDistinctCodes(slots: seq<Slot>)
    requires forall k :: 0 <= k < |slots| ==> 0 <= slots[k].doseId <= MaxSafeId
    requires forall i, j :: 0 <= i < j < |slots| ==>
      (slots[i].doseId, slots[i].time.hour, slots[i].time.minute) != (slots[j].doseId, slots[j].time.hour, slots[j].time.minute)
    ensures DistinctCodes(slots)
  {
    forall i, j | 0 <= i < j < |slots| ensures SlotCode(slots[i]) != SlotCode(slots[j]) {
      if SlotCode(slots[i]) == SlotCode(slots[j]) {
        RequestCodeInjective(slots[i].doseId, slots[i].time, slots[j].doseId, slots[j].time);
      }
    }
  }

  /**
   * When codes are distinct and the slot's code held no alarm before, the pass
   * leaves an alarm under it exactly when the slot is due (its time today is
   * not past, exact alarms are allowed, its key is not taken) and the alarm
   * manager accepts it; a refusal for one slot does not affect any other.
   */
  lemma ScheduleRegistersExactlyLanding(p: Platform, doses: seq<DoseItem>, env: Env, k: nat)
    requires DistinctCodes(Slots(doses)) && k < |Slots(doses)|
    requires SlotCode(Slots(doses)[k]) !in p.alarms
    ensures var s := Slots(doses)[k];
      var q := Schedule(p, doses, env);
      (SlotCode(s) in q.alarms <==> Lands(p.prefs, s, env))
      && (SlotCode(s) in q.alarms ==> q.alarms[SlotCode(s)] == SlotAlarm(s, env.today))
  {
    var slots := Slots(doses);
    if Lands(p.prefs, slots[k], env) {
      RegisterAllLands(p.alarms, p.prefs, slots, env, k);
    } else {
      RegisterAllUntouched(p.alarms, p.prefs, slots, env, SlotCode(slots[k]));
    }
  }

  // ---------------------------------------------------------------------------
  // The disabled branch

  lemma {:induction false} SlotCodesAppend(slots: seq<Slot>, s: Slot)
    ensures SlotCodes(slots + [s]) == SlotCodes(slots) + {SlotCode(s)}
  {
    assert (slots + [s])[..|slots|] == slots;
  }

  /** Cancelling one more code, if it is still registered, is removing one more code from the map. */
  lemma CancelOneMore(m: map<int, Alarm>, gone: set<int>, c: int)
    ensures (if c in m - gone then (m - gone) - {c} else m - gone) == m - (gone + {c})
  {
  }

  lemma {:induction false} SlotCodesMembership(slots: seq<Slot>, c: int)
    ensures c in SlotCodes(slots) <==> exists k :: 0 <= k < |slots| && SlotCode(slots[k]) == c
  {
    if slots != [] {
      var init := slots[..|slots| - 1];
      SlotCodesMembership(init, c);
      if c in SlotCodes(init) {
        var k :| 0 <= k < |init| && SlotCode(init[k]) == c;
        assert slots[k] == init[k];
      }
      if exists k :: 0 <= k < |slots| && SlotCode(slots[k]) == c {
        var k :| 0 <= k < |slots| && SlotCode(slots[k]) == c;
        if k < |init| { assert init[k] == slots[k]; }
      }
    }
  }

  /** No slot of the list has request code `c`. */
  predicate NoSlotHasCode(slots: seq<Slot>, c: int) {
    forall k :: 0 <= k < |slots| ==> SlotCode(slots[k]) != c
  }

  /** A code survives the removal of a slot list's codes exactly when no slot of the list has it. */
  lemma RemoveSlotCodes(m: map<int, Alarm>, slots: seq<Slot>, c: int)
    ensures c in m - SlotCodes(slots) <==> c in m && NoSlotHasCode(slots, c)
  {
    SlotCodesMembership(slots, c);
  }

  /**
   * Switching notifications off leaves no alarm under any slot code of the
   * current doses, keeps every other alarm, and clears the screen.
   */
  lemma DisableCancelsListedSlots(p: Platform, doses: seq<DoseItem>, c: int)
    ensures var q := Disable(p, doses);
      && q.shown == {}
      && q.prefs == p.prefs
      && (c in q.alarms <==> c in p.alarms && NoSlotHasCode(Slots(doses), c))
      && (c in q.alarms ==> q.alarms[c] == p.alarms[c])
  {
    var q := Disable(p, doses);
    assert q.alarms == p.alarms - SlotCodes(Slots(doses));
    RemoveSlotCodes(p.alarms, Slots(doses), c);
  }

  // ---------------------------------------------------------------------------
  // The receivers

  /** The scheduler's extras yield a parsable reminder id, equal to the alarm's request code. */
  lemma SlotReminderId(s: Slot, day: Date)
    requires 0 <= s.doseId <= MaxSafeId
    ensures ReminderId(SlotExtras(s, day)) == Some(SlotCode(s))
    ensures NotificationIdOf(SlotExtras(s, day)) == Some(SlotCode(s))
  {
    NotificationIdIsRequestCode(s.doseId, s.time);
    HHmmDigits(s.time);
    ParseUnsigned(Pad2(s.time.hour) + Pad2(s.time.minute));
  }

  /**
   * When a slot's alarm fires, a notification under the slot's code appears if
   * and only if the slot's key is not taken; nothing else changes.
   */
  lemma MissedDoseShowsIffUntaken(p: Platform, s: Slot, day: Date, today: Date)
    requires 0 <= s.doseId <= MaxSafeId
    ensures MissedDose(p, SlotExtras(s, day), today)
         == if IsTaken(p.prefs, SlotKey(s, day)) then p else p.(shown := p.shown + {SlotCode(s)})
  {
    SlotReminderId(s, day);
  }

  /** The extras the "Taken" action carries for a slot: no dose name. */
  function TakenExtras(s: Slot, day: Date): Extras {
    Extras(Some(s.doseId), None, Some(FormatHHmm(s.time)), Some(day))
  }

  /**
   * Pressing "Taken" sets the very key the scheduler and the missed-dose
   * receiver read, removes the notification the missed-dose receiver showed,
   * and leaves the alarms alone.
   */
  lemma DoseTakenMarksSlot(p: Platform, s: Slot, day: Date, today: Date)
    requires 0 <= s.doseId <= MaxSafeId
    ensures var q := DoseTaken(p, TakenExtras(s, day), today);
      && IsTaken(q.prefs, SlotKey(s, day))
      && q.shown == p.shown - {SlotCode(s)}
      && q.alarms == p.alarms
  {
    NotificationIdIsRequestCode(s.doseId, s.time);
  }

  /** Pressing "Taken" twice has the effect of pressing it once. */
  lemma DoseTakenIdempotent(p: Platform, e: Extras, today: Date)
    ensures DoseTaken(DoseTaken(p, e, today), e, today) == DoseTaken(p, e, today)
  {
    var q := DoseTaken(p, e, today);
    assert q.prefs[KeyOf(e, today) := true] == q.prefs;
  }

  /** After "Taken", an alarm delivering the same key shows nothing. */
  lemma NoReminderAfterTaken(p: Platform, e: Extras, e': Extras, today: Date, today': Date)
    requires KeyOf(e, today) == KeyOf(e', today')
    ensures MissedDose(DoseTaken(p, e, today), e', today') == DoseTaken(p, e, today)
  {
  }

  /**
   * After "Taken" for a slot today, the next scheduling pass neither adds nor
   * replaces the alarm under that slot's code, provided no other slot shares it.
   */
  lemma NoAlarmAfterTaken(p: Platform, doses: seq<DoseItem>, env: Env, k: nat)
    requires DistinctCodes(Slots(doses)) && k < |Slots(doses)|
    requires 0 <= Slots(doses)[k].doseId <= MaxSafeId
    ensures var s := Slots(doses)[k];
      var q := DoseTaken(p, TakenExtras(s, env.today), env.today);
      var r := Schedule(q, doses, env);
      (SlotCode(s) in r.alarms <==> SlotCode(s) in p.alarms)
      && (SlotCode(s) in p.alarms ==> r.alarms[SlotCode(s)] == p.alarms[SlotCode(s)])
  {
    var slots := Slots(doses);
    var s := slots[k];
    var q := DoseTaken(p, TakenExtras(s, env.today), env.today);
    DoseTakenMarksSlot(p, s, env.today, env.today);
    forall j | 0 <= j < |slots| && Lands(q.prefs, slots[j], env) ensures SlotCode(slots[j]) != SlotCode(s) {
      if j != k {
        if j < k { assert SlotCode(slots[j]) != SlotCode(slots[k]); }
        else { assert SlotCode(slots[k]) != SlotCode(slots[j]); }
      }
    }
    RegisterAllUntouched(q.alarms, q.prefs, slots, env, SlotCode(s));
  }

  /**
   * An alarm the scheduler registered for a slot is consumed when it fires, and
   * shows the slot's notification exactly when the slot is still not taken.
   */
  lemma FireScheduledAlarm(p: Platform, s: Slot, day: Date, today: Date)
    requires 0 <= s.doseId <= MaxSafeId
    requires SlotCode(s) in p.alarms && p.alarms[SlotCode(s)] == SlotAlarm(s, day)
    ensures var q := p.(alarms := p.alarms - {SlotCode(s)});
      Fire(p, SlotCode(s), today) == if IsTaken(p.prefs, SlotKey(s, day)) then q else q.(shown := q.shown + {SlotCode(s)})
  {
    MissedDoseShowsIffUntaken(p.(alarms := p.alarms - {SlotCode(s)}), s, day, today);
  }

  // ---------------------------------------------------------------------------
  // Deleting a dose

  /**
   * Deleting a dose only removes it from the list; the next pass adds alarms
   * for the remaining doses and cancels none, so the deleted dose's alarm is
   * still registered and, when it fires, shows a "missed dose" notification for
   * a dose that no longer exists.
   */
  lemma StaleAlarmAfterDelete(p: Platform, d: DoseItem, env: Env)
    requires 0 <= d.id <= MaxSafeId && |d.schedule.times| == 1
    requires Lands(p.prefs, SlotsOf(d)[0], env)
    ensures var s := SlotsOf(d)[0];
      var afterDelete := Schedule(Schedule(p, [d], env), [], env);
      && afterDelete.alarms[SlotCode(s)] == SlotAlarm(s, env.today)
      && SlotCode(s) in Fire(afterDelete, SlotCode(s), env.today).shown
  {
    var s := SlotsOf(d)[0];
    assert [d][..0] == [];
    assert SlotsOf(d) == [s];
    assert Slots([d]) == [s];
    assert [s][..0] == [];
    assert RegisterAll(p.alarms, p.prefs, [s], env) == Register(p.alarms, p.prefs, s, env);
    var q := Schedule(p, [d], env);
    assert q.alarms[SlotCode(s)] == SlotAlarm(s, env.today);
    assert Schedule(q, [], env) == q;
    FireScheduledAlarm(q, s, env.today, env.today);
  }

  /** A once-daily 08:00 dose with id 7, scheduled at midnight of day 20000 and then deleted, still fires under request code 70800. */
  lemma StaleAlarmExample()
    ensures var d := DoseItem(7, "Creatine", "5 g", Supplement, DoseSchedule([TimeOf(8, 0)], [1, 2, 3, 4, 5, 6, 7], None), []);
      var env := Env(20000, 20000 * MillisPerDay, true, {});
      var afterDelete := Schedule(Schedule(Platform(map[], map[], {}), [d], env), [], env);
      && 70800 in afterDelete.alarms
      && Fire(afterDelete, 70800, 20000).shown == {70800}
  {
    var d := DoseItem(7, "Creatine", "5 g", Supplement, DoseSchedule([TimeOf(8, 0)], [1, 2, 3, 4, 5, 6, 7], None), []);
    var env := Env(20000, 20000 * MillisPerDay, true, {});
    var s := SlotsOf(d)[0];
    assert SlotCode(s) == 70800;
    StaleAlarmAfterDelete(Platform(map[], map[], {}), d, env);
  }

  /** Cancelling a dose's alarms on deletion leaves none of its slots able to fire, and every other alarm as it was. */
  lemma CancelDoseSilencesDose(p: Platform, d: DoseItem, c: int, today: Date)
    ensures var q := CancelDose(p, d);
      && (c in q.alarms <==> c in p.alarms && NoSlotHasCode(SlotsOf(d), c))
      && (c in q.alarms ==> q.alarms[c] == p.alarms[c])
      && (!NoSlotHasCode(SlotsOf(d), c) ==> Fire(q, c, today) == q)
  {
    RemoveSlotCodes(p.alarms, SlotsOf(d), c);
  }

  // ---------------------------------------------------------------------------
  // The platform services as mutable state

  class Device {
    var prefs: map<TakenKey, bool>
    var alarms: map<int, Alarm>
    var shown: set<int>

    function State(): Platform
      reads this
    {
      Platform(prefs, alarms, shown)
    }

    constructor ()
      ensures State() == Platform(map[], map[], {})
    {
      prefs, alarms, shown := map[], map[], {};
    }

    /** `scheduleMissedDoseNotifications(context, doseItems)`. */
    method ScheduleMissedDoseNotifications(doses: seq<DoseItem>, env: Env)
      modifies this
      ensures State() == Schedule(old(State()), doses, env)
    {
      ghost var a0 := alarms;
      var i := 0;
      while i < |doses|
        invariant 0 <= i <= |doses|
        invariant prefs == old(prefs) && shown == old(shown)
        invariant alarms == RegisterAll(a0, prefs, Slots(doses[..i]), env)
      {
        var item := doses[i];
        var j := 0;
        VisitedStart(doses, i);
        while j < |item.schedule.times|
          invariant 0 <= j <= |item.schedule.times|
          invariant prefs == old(prefs) && shown == old(shown)
          invariant alarms == RegisterAll(a0, prefs, Visited(doses, i, j), env)
        {
          ScheduleStep(a0, prefs, doses, i, j, env);
          ScheduleSlot(item.id, item.name, item.schedule.times[j], env);
          j := j + 1;
        }
        VisitedEnd(doses, i);
        i := i + 1;
      }
      assert doses[..|doses|] == doses;
    }

    /** The body of the scheduler's inner loop, for one time of one dose. */
    method ScheduleSlot(doseId: int, doseName: string, time: Time, env: Env)
      modifies this
      ensures prefs == old(prefs) && shown == old(shown)
      ensures alarms == Register(old(alarms), prefs, Slot(doseId, doseName, time), env)
    {
      var key := TakenKey(doseId, FormatHHmm(time), env.today);
      var alreadyTaken := key in prefs && prefs[key];
      var at := SlotInstant(env.today, time);
      if at >= env.now {
        var code := RequestCode(doseId, time);
        if env.canScheduleExact && !alreadyTaken {
          // setExactAndAllowWhileIdle; a SecurityException is caught and the loop goes on
          if code !in env.refused {
            alarms := alarms[code := Alarm(at, Extras(Some(doseId), Some(doseName), Some(FormatHHmm(time)), Some(env.today)))];
          }
        }
      }
    }

    /** The notifications-disabled branch of the rescheduling effect. */
    method CancelAllReminders(doses: seq<DoseItem>)
      modifies this
      ensures State() == Disable(old(State()), doses)
    {
      ghost var a0 := alarms;
      var i := 0;
      while i < |doses|
        invariant 0 <= i <= |doses|
        invariant prefs == old(prefs) && shown == old(shown)
        invariant alarms == a0 - SlotCodes(Slots(doses[..i]))
      {
        CancelDoseReminders(doses[i]);
        DisableStep(a0, doses, i);
        i := i + 1;
      }
      assert doses[..|doses|] == doses;
      // NotificationManagerCompat.cancelAll()
      shown := {};
    }

    /** The disable branch's inner loop: cancel the alarm of every time of one dose. */
    method CancelDoseReminders(item: DoseItem)
      modifies this
      ensures State() == CancelDose(old(State()), item)
    {
      ghost var a0 := alarms;
      var j := 0;
      assert SlotsOf(item)[..0] == [];
      while j < |item.schedule.times|
        invariant 0 <= j <= |item.schedule.times|
        invariant prefs == old(prefs) && shown == old(shown)
        invariant alarms == a0 - SlotCodes(SlotsOf(item)[..j])
      {
        CancelDoseStep(a0, item, j, alarms);
        CancelSlot(RequestCode(item.id, item.schedule.times[j]));
        j := j + 1;
      }
      assert SlotsOf(item)[..j] == SlotsOf(item);
    }

    /** The body of the cancelling loop: `FLAG_NO_CREATE` finds an intent only when an alarm is registered under the code. */
    method CancelSlot(code: int)
      modifies this
      ensures prefs == old(prefs) && shown == old(shown)
      ensures alarms == if code in old(alarms) then old(alarms) - {code} else old(alarms)
    {
      if code in alarms {
        alarms := alarms - {code};
      }
    }

    /** The rescheduling effect run at start-up and whenever the doses or the toggle change. */
    method Reschedule(notificationsEnabled: bool, doses: seq<DoseItem>, env: Env)
      modifies this
      ensures State() == if notificationsEnabled then Schedule(old(State()), doses, env) else Disable(old(State()), doses)
    {
      if notificationsEnabled {
        ScheduleMissedDoseNotifications(doses, env);
      } else {
        CancelAllReminders(doses);
      }
    }

    /** `MissedDoseReceiver.onReceive`. */
    method OnMissedDose(e: Extras, today: Date)
      modifies this
      ensures State() == MissedDose(old(State()), e, today)
    {
      var doseId := e.doseId.GetOr(-1);
      var doseTime := e.doseTime.GetOr("");
      var key := TakenKey(doseId, doseTime, e.doseDate.GetOr(today));
      var alreadyTaken := key in prefs && prefs[key];
      if !alreadyTaken {
        var actionCode := ParseInt32(RemoveColons(doseTime));
        if actionCode.Some? {
          var id := NotificationId(doseId, doseTime);
          if id.Some? {
            shown := shown + {id.value};
          }
        }
      }
    }

    /** `DoseTakenReceiver.onReceive`; the UI broadcast it sends is `DoseList.OnDoseTakenUi`. */
    method OnDoseTaken(e: Extras, today: Date)
      modifies this
      ensures State() == DoseTaken(old(State()), e, today)
    {
      var doseId := e.doseId.GetOr(-1);
      var doseTime := e.doseTime.GetOr("");
      prefs := prefs[TakenKey(doseId, doseTime, e.doseDate.GetOr(today)) := true];
      var id := NotificationId(doseId, doseTime);
      if id.Some? {
        shown := shown - {id.value};
      }
    }

    /** The alarm manager firing the alarm registered under `code`. */
    method DeliverAlarm(code: int, today: Date)
      modifies this
      ensures State() == Fire(old(State()), code, today)
    {
      if code in alarms {
        var e := alarms[code].extras;
        alarms := alarms - {code};
        OnMissedDose(e, today);
      }
    }
  }
}
