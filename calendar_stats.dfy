/**
 * The calendar screen of the single-activity revision: the adherence score,
 * the status and background of a day cell in the month and week views, the
 * start of the shown week, and the padded month grid under its Monday-first
 * header.
 */
module CalendarStats {
  import opened Wrappers
  import opened Clock
  import opened Doses
  import opened DoseLedger

  // ---------------------------------------------------------------------------
  // Adherence

  /** How many entries of `logs` record a taken dose. */
  function CountTaken(logs: seq<DoseLog>): (n: nat)
    ensures n <= |logs|
    ensures n == 0 <==> forall k :: 0 <= k < |logs| ==> logs[k].status != Taken
    ensures n == |logs| <==> forall k :: 0 <= k < |logs| ==> logs[k].status == Taken
  {
    if logs == [] then 0
    else CountTaken(logs[..|logs| - 1]) + (if logs[|logs| - 1].status == Taken then 1 else 0)
  }

  /** `doseItems.flatMap { it.adherenceLog }`. */
  function AllLogs(items: seq<DoseItem>): seq<DoseLog> {
    if items == [] then [] else AllLogs(items[..|items| - 1]) + items[|items| - 1].adherenceLog
  }

  // Facts about the rounded-down percentage `taken * 100 / total`.

  lemma DivFacts(a: int, n: int)
    requires a >= 0 && n > 0
    ensures a / n >= 0 && (a / n) * n <= a < (a / n) * n + n
  {
  }

  lemma MulMono(x: int, y: int, n: int)
    requires x <= y && n >= 0
    ensures x * n <= y * n
  {
    assert y * n - x * n == (y - x) * n;
  }

  /** A multiple of `n` not above `a` is a lower bound on `a / n`. */
  lemma DivAtLeast(a: int, n: int, q: int)
    requires a >= 0 && n > 0 && q * n <= a
    ensures q <= a / n
  {
    DivFacts(a, n);
    if q > a / n {
      MulMono(a / n + 1, q, n);
    }
  }

  /** A multiple of `n` above `a` is an upper bound on `a / n`. */
  lemma DivBelow(a: int, n: int, q: int)
    requires a >= 0 && n > 0 && a < q * n
    ensures a / n < q
  {
    DivFacts(a, n);
    if a / n >= q {
      MulMono(q, a / n, n);
    }
  }

  /** `taken * 100 / total`, for a positive total. */
  function Percent(taken: nat, total: nat): (pct: int)
    requires taken <= total && total > 0
    ensures 0 <= pct <= 100
    ensures pct == 100 <==> taken == total
    ensures pct == 0 <== taken == 0
  {
    PercentFacts(taken, total);
    taken * 100 / total
  }

  lemma PercentFacts(taken: nat, total: nat)
    requires taken <= total && total > 0
    ensures 0 <= taken * 100 / total <= 100
    ensures taken * 100 / total == 100 <==> taken == total
  {
    DivFacts(taken * 100, total);
    DivBelow(taken * 100, total, 101);
    if taken == total {
      DivAtLeast(taken * 100, total, 100);
    } else {
      DivBelow(taken * 100, total, 100);
    }
  }

  /** The integer percentage of taken entries among all entries; 0 for no entries. */
  function Adherence(items: seq<DoseItem>): (pct: int)
    ensures 0 <= pct <= 100
  {
    var taken := CountTaken(AllLogs(items));
    var total := |AllLogs(items)|;
    if total > 0 then Percent(taken, total) else 0
  }

  /** The percentage rounds down: it is 100 exactly when every entry is taken, 0 when none is or there are none. */
  lemma AdherenceExtremes(items: seq<DoseItem>)
    ensures Adherence(items) == 100 <==> |AllLogs(items)| > 0 && forall e :: e in AllLogs(items) ==> e.status == Taken
    ensures (forall e :: e in AllLogs(items) ==> e.status != Taken) ==> Adherence(items) == 0
  {
    var logs := AllLogs(items);
    if |logs| > 0 && CountTaken(logs) < |logs| {
      var k :| 0 <= k < |logs| && logs[k].status != Taken;
      assert logs[k] in logs;
    }
    if forall e :: e in logs ==> e.status != Taken {
      assert forall k :: 0 <= k < |logs| ==> logs[k] in logs;
    }
  }

  /** Three taken entries and one skipped one score 75. */
  lemma AdherenceExample(t: Time)
    ensures var log := [TakenEntry(1, t), TakenEntry(2, t), DoseLog(3, t, Skipped, None), TakenEntry(4, t)];
      Adherence([DoseItem(1, "Vitamin D", "1000 IU", Supplement, DoseSchedule([t], [], None), log)]) == 75
  {
    var log := [TakenEntry(1, t), TakenEntry(2, t), DoseLog(3, t, Skipped, None), TakenEntry(4, t)];
    var items := [DoseItem(1, "Vitamin D", "1000 IU", Supplement, DoseSchedule([t], [], None), log)];
    assert items[..0] == [];
    assert AllLogs(items) == log;
    assert log[..3][..2][..1][..0] == [];
    assert CountTaken(log) == 3;
  }

  lemma CountTakenJoin(a: seq<DoseLog>, b: seq<DoseLog>)
    ensures CountTaken(a + b) == CountTaken(a) + CountTaken(b)
  {
    if b != [] {
      assert (a + b)[..|a + b| - 1] == a + b[..|b| - 1];
      assert (a + b)[|a + b| - 1] == b[|b| - 1];
      CountTakenJoin(a, b[..|b| - 1]);
    } else {
      assert a + b == a;
    }
  }

  /** Replacing one dose's log by one with one more entry adds that entry to the totals. */
  lemma {:induction false} TotalsAfterAppend(items: seq<DoseItem>, idx: nat, e: DoseLog)
    requires idx < |items|
    ensures var r := items[idx := items[idx].(adherenceLog := items[idx].adherenceLog + [e])];
      && |AllLogs(r)| == |AllLogs(items)| + 1
      && CountTaken(AllLogs(r)) == CountTaken(AllLogs(items)) + (if e.status == Taken then 1 else 0)
  {
    var r := items[idx := items[idx].(adherenceLog := items[idx].adherenceLog + [e])];
    var n := |items| - 1;
    assert r[..n] == items[..n] || idx < n;
    if idx == n {
      assert r[..n] == items[..n];
      CountTakenJoin(AllLogs(items[..n]), items[n].adherenceLog + [e]);
      CountTakenJoin(AllLogs(items[..n]), items[n].adherenceLog);
      CountTakenJoin(items[n].adherenceLog, [e]);
    } else {
      assert r[..n] == items[..n][idx := items[idx].(adherenceLog := items[idx].adherenceLog + [e])];
      TotalsAfterAppend(items[..n], idx, e);
      CountTakenJoin(AllLogs(r[..n]), items[n].adherenceLog);
      CountTakenJoin(AllLogs(items[..n]), items[n].adherenceLog);
    }
  }

  /** One more taken entry never lowers the percentage, and one more other entry never raises it. */
  lemma PercentStep(taken: nat, total: nat)
    requires taken <= total && total > 0
    ensures Percent(taken, total) <= Percent(taken + 1, total + 1)
    ensures Percent(taken, total + 1) <= Percent(taken, total)
  {
    var q := taken * 100 / total;
    DivFacts(taken * 100, total);
    assert q <= 100;
    assert q * (total + 1) == q * total + q;
    DivAtLeast((taken + 1) * 100, total + 1, q);
    var q' := taken * 100 / (total + 1);
    DivFacts(taken * 100, total + 1);
    assert q' * (total + 1) == q' * total + q';
    DivAtLeast(taken * 100, total, q');
  }

  /**
   * Logging an intake as taken never lowers the adherence score and logging
   * one as skipped (what unchecking does) never raises it.
   */
  lemma LoggingMovesAdherence(items: seq<DoseItem>, idx: nat, status: DoseStatus, reason: Option<string>, date: Date, now: Time)
    requires idx < |items|
    ensures status == Taken ==> Adherence(items) <= Adherence(LogIntake(items, idx, status, reason, date, now))
    ensures status != Taken ==> Adherence(LogIntake(items, idx, status, reason, date, now)) <= Adherence(items)
  {
    var e := DoseLog(date, now, status, reason);
    var r := LogIntake(items, idx, status, reason, date, now);
    assert r == items[idx := items[idx].(adherenceLog := items[idx].adherenceLog + [e])];
    TotalsAfterAppend(items, idx, e);
    var taken, total := CountTaken(AllLogs(items)), |AllLogs(items)|;
    assert Adherence(items) == if total > 0 then Percent(taken, total) else 0;
    assert Adherence(r) == Percent(CountTaken(AllLogs(r)), total + 1);
    if total > 0 {
      PercentStep(taken, total);
    }
  }

  // ---------------------------------------------------------------------------
  // Day cells

  /** `doseItems.flatMap { it.adherenceLog.filter { log -> log.date == day } }`. */
  function LogsOn(items: seq<DoseItem>, day: Date): (r: seq<DoseLog>)
    ensures forall e :: e in r ==> e.date == day
  {
    if items == [] then []
    else LogsOn(items[..|items| - 1], day) + DayEntries(items[|items| - 1].adherenceLog, day)
  }

  function DayEntries(log: seq<DoseLog>, day: Date): (r: seq<DoseLog>)
    ensures forall e :: e in r <==> e in log && e.date == day
  {
    if log == [] then []
    else
      var init := DayEntries(log[..|log| - 1], day);
      assert log == log[..|log| - 1] + [log[|log| - 1]];
      if log[|log| - 1].date == day then init + [log[|log| - 1]] else init
  }

  /** `filter` keeps order and repetitions: filtering a concatenation filters each part. */
  lemma {:induction false} DayEntriesAppend(a: seq<DoseLog>, b: seq<DoseLog>, day: Date)
    ensures DayEntries(a + b, day) == DayEntries(a, day) + DayEntries(b, day)
    decreases |b|
  {
    if b == [] {
      assert a + b == a;
    } else {
      var n := |b| - 1;
      assert (a + b)[..|a + b| - 1] == a + b[..n];
      assert (a + b)[|a + b| - 1] == b[n];
      DayEntriesAppend(a, b[..n], day);
    }
  }

  /** On a single entry `filter` keeps it exactly when it is dated that day. */
  lemma DayEntriesOne(e: DoseLog, day: Date)
    ensures DayEntries([e], day) == if e.date == day then [e] else []
  {
    assert [e][..0] == [];
  }

  /** The entries of a day are the dated entries of the doses' logs. */
  lemma {:induction false} LogsOnMembership(items: seq<DoseItem>, day: Date, e: DoseLog)
    ensures e in LogsOn(items, day) <==> e.date == day && exists k :: 0 <= k < |items| && e in items[k].adherenceLog
  {
    if items != [] {
      var n := |items| - 1;
      LogsOnMembership(items[..n], day, e);
      if e in LogsOn(items[..n], day) {
        var k :| 0 <= k < n && e in items[..n][k].adherenceLog;
        assert items[k] == items[..n][k];
      }
      if e.date == day && exists k :: 0 <= k < |items| && e in items[k].adherenceLog {
        var k :| 0 <= k < |items| && e in items[k].adherenceLog;
        if k < n {
          assert items[..n][k] == items[k];
        }
      }
    }
  }

  datatype DayStatus = NoEntries | AllTaken | SomeTaken | NoneTaken

  /** The `when` over `total` and `taken` that picks a cell's colour and icon. */
  function StatusOf(logs: seq<DoseLog>): (s: DayStatus)
    ensures s == NoEntries <==> logs == []
    ensures s == AllTaken <==> logs != [] && forall e :: e in logs ==> e.status == Taken
    ensures s == NoneTaken <==> logs != [] && forall e :: e in logs ==> e.status != Taken
    ensures s == SomeTaken <==> (exists e :: e in logs && e.status == Taken) && (exists e :: e in logs && e.status != Taken)
  {
    var taken := CountTaken(logs);
    var total := |logs|;
    if total == 0 then NoEntries
    else if taken == total then AllTaken
    else if taken > 0 then SomeTaken
    else NoneTaken
  }

  function DayStatusOf(items: seq<DoseItem>, day: Date): DayStatus {
    StatusOf(LogsOn(items, day))
  }

  /** The cell colours of both views. */
  datatype Shade = TakenGreen | PartialYellow | MissedRed | EmptyGrey | TodayTint

  /**
   * The fixed dark-mode colour of a shade as an ARGB value; the today tint is
   * the theme's primary colour at half opacity, which has no fixed value.
   */
  function Argb(s: Shade): (c: Option<int>)
    ensures c.None? <==> s == TodayTint
    ensures c.Some? ==> 0xFF00_0000 <= c.value <= 0xFFFF_FFFF
  {
    match s
    case TakenGreen => Some(0xFF43A047)
    case PartialYellow => Some(0xFFFFC107)
    case MissedRed => Some(0xFFD32F2F)
    case EmptyGrey => Some(0xFF424242)
    case TodayTint => None
  }

  function StatusShade(s: DayStatus): Shade {
    match s
    case NoEntries => EmptyGrey
    case AllTaken => TakenGreen
    case SomeTaken => PartialYellow
    case NoneTaken => MissedRed
  }

  /** A cell's background: today is green once everything is taken, tinted otherwise. */
  function CellBackground(s: DayStatus, isToday: bool): Shade {
    if isToday && s == AllTaken then TakenGreen
    else if isToday then TodayTint
    else StatusShade(s)
  }

  /**
   * Today's cell shows green exactly when it has entries and all are taken;
   * any other day shows the colour of its status, so the colours of two days
   * differ only if their statuses do.
   */
  lemma CellBackgroundMeaning(items: seq<DoseItem>, day: Date, today: Date)
    ensures var bg := CellBackground(DayStatusOf(items, day), day == today);
      && (day == today ==> (bg == TakenGreen <==> LogsOn(items, day) != [] && forall e :: e in LogsOn(items, day) ==> e.status == Taken))
      && (day == today ==> bg in {TakenGreen, TodayTint})
      && (day != today ==> (bg == MissedRed <==> LogsOn(items, day) != [] && forall e :: e in LogsOn(items, day) ==> e.status != Taken))
      && (day != today ==> (bg == EmptyGrey <==> LogsOn(items, day) == []))
  {
  }

  // ---------------------------------------------------------------------------
  // The week view

  /** `today.with(DayOfWeek.MONDAY)`: the Monday of the ISO week holding `d`. */
  function WeekStart(d: Date): (m: Date)
    ensures DayOfWeekValue(m) == 1
    ensures m <= d < m + 7
  {
    d - (DayOfWeekValue(d) - 1)
  }

  /** The seven days the week view shows, Monday first. */
  function WeekDays(start: Date): (days: seq<Date>)
    ensures |days| == 7
    ensures forall k :: 0 <= k < 7 ==> days[k] == start + k
  {
    seq(7, k => start + k)
  }

  /** Started from `WeekStart`, the week view's columns are Monday to Sunday and contain the day. */
  lemma WeekViewColumns(d: Date)
    ensures var days := WeekDays(WeekStart(d));
      && (forall k :: 0 <= k < 7 ==> DayOfWeekValue(days[k]) == k + 1)
      && d in days
  {
    var m := WeekStart(d);
    forall k | 0 <= k < 7 ensures DayOfWeekValue(WeekDays(m)[k]) == k + 1 {
      DayOfWeekAdvances(m, k);
    }
    assert WeekDays(m)[d - m] == d;
  }

  // ---------------------------------------------------------------------------
  // The month grid

  /** Cell `k` of a grid with `lead` blank cells before `count` consecutive days from `first`. */
  function GridCell(lead: nat, first: Date, count: nat, k: int): Option<Date> {
    if lead <= k < lead + count then Some(first + (k - lead)) else None
  }

  /** The three loops that pad the grid: `lead` blanks, the days, then blanks up to a full week. */
  method PadMonthGrid(lead: nat, first: Date, daysInMonth: nat) returns (grid: seq<Option<Date>>)
    ensures |grid| % 7 == 0
    ensures lead + daysInMonth <= |grid| < lead + daysInMonth + 7
    ensures forall k :: 0 <= k < |grid| ==> grid[k] == GridCell(lead, first, daysInMonth, k)
  {
    grid := [];
    var i := 1;
    while i <= lead
      invariant 1 <= i <= lead + 1 && |grid| == i - 1
      invariant forall k :: 0 <= k < |grid| ==> grid[k] == None
    {
      grid := grid + [None];
      i := i + 1;
    }
    i := 0;
    while i < daysInMonth
      invariant 0 <= i <= daysInMonth && |grid| == lead + i
      invariant forall k :: 0 <= k < |grid| ==> grid[k] == GridCell(lead, first, daysInMonth, k)
    {
      grid := grid + [Some(first + i)];
      i := i + 1;
    }
    while |grid| % 7 != 0
      invariant lead + daysInMonth <= |grid| <= lead + daysInMonth + 6
      invariant |grid| - (lead + daysInMonth) <= (7 - (lead + daysInMonth) % 7) % 7
      invariant forall k :: 0 <= k < |grid| ==> grid[k] == GridCell(lead, first, daysInMonth, k)
      decreases lead + daysInMonth + 7 - |grid|
    {
      grid := grid + [None];
    }
  }

  /** The number of blanks the month view puts before the 1st: the weekday counted from Sunday. */
  function SundayBasedLead(first: Date): (lead: nat)
    ensures lead < 7
  {
    DayOfWeekValue(first) % 7
  }

  /** The number of blanks that a Monday-first header calls for: the weekday counted from Monday. */
  function MondayBasedLead(first: Date): (lead: nat)
    ensures lead < 7
  {
    DayOfWeekValue(first) - 1
  }

  /** The header over column `c` of the month view, as an ISO weekday: "Mo" is 1, ..., "So" is 7. */
  function HeaderWeekday(c: int): int {
    c % 7 + 1
  }

  /** The grid as the month view builds it. */
  method MonthGridAsWritten(first: Date, daysInMonth: nat) returns (grid: seq<Option<Date>>)
    ensures |grid| % 7 == 0
    ensures SundayBasedLead(first) + daysInMonth <= |grid| < SundayBasedLead(first) + daysInMonth + 7
    ensures forall k :: 0 <= k < |grid| ==> grid[k] == GridCell(SundayBasedLead(first), first, daysInMonth, k)
  {
    grid := PadMonthGrid(SundayBasedLead(first), first, daysInMonth);
  }

  /** The grid with the lead its header calls for. */
  method MonthGrid(first: Date, daysInMonth: nat) returns (grid: seq<Option<Date>>)
    ensures |grid| % 7 == 0
    ensures MondayBasedLead(first) + daysInMonth <= |grid| < MondayBasedLead(first) + daysInMonth + 7
    ensures forall k :: 0 <= k < |grid| ==> grid[k] == GridCell(MondayBasedLead(first), first, daysInMonth, k)
  {
    grid := PadMonthGrid(MondayBasedLead(first), first, daysInMonth);
  }

  /** With the Sunday-based lead, every day of every month sits under the header of the following weekday. */
  lemma AsWrittenHeaderOffByOne(first: Date, daysInMonth: nat, k: nat)
    requires GridCell(SundayBasedLead(first), first, daysInMonth, k).Some?
    ensures var d := GridCell(SundayBasedLead(first), first, daysInMonth, k).value;
      HeaderWeekday(k) == DayOfWeekValue(d) % 7 + 1 && HeaderWeekday(k) != DayOfWeekValue(d)
  {
    var lead := SundayBasedLead(first);
    DayOfWeekAdvances(first, k - lead);
  }

  /** April 2024 begins on a Monday, and the month view puts the 1st under "Di". */
  lemma AsWrittenApril2024()
    ensures DayOfWeekValue(19814) == 1
    ensures GridCell(SundayBasedLead(19814), 19814, 30, 1) == Some(19814)
    ensures HeaderWeekday(1) == 2
  {
    assert 19814 + 3 == 7 * 2831;
    assert DayOfWeekValue(19814) == 1;
    assert SundayBasedLead(19814) == 1;
  }

  /** With the Monday-based lead every day sits under its own weekday. */
  lemma MondayLeadHeaderMatches(first: Date, daysInMonth: nat, k: nat)
    requires GridCell(MondayBasedLead(first), first, daysInMonth, k).Some?
    ensures HeaderWeekday(k) == DayOfWeekValue(GridCell(MondayBasedLead(first), first, daysInMonth, k).value)
  {
    var lead := MondayBasedLead(first);
    DayOfWeekAdvances(first, k - lead);
  }
}
