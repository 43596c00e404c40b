/**
 * The calendar of the database-backed revision: the month's intakes grouped
 * by day in the view model, the Sunday-first grid of weeks the screen lays
 * out, and the colour of a day from its intakes.
 */
module IntakeCalendar {
  import opened Wrappers
  import opened Clock
  import opened IntakeRecords
  import opened CalendarStats

  // ---------------------------------------------------------------------------
  // Grouping by day

  /** The intakes whose day under `day` is `d`, in input order. */
  function OnDay(items: seq<IntakeEntity>, day: IntakeEntity -> Date, d: Date): (r: seq<IntakeEntity>)
    ensures forall e :: e in r <==> e in items && day(e) == d
  {
    if items == [] then []
    else
      var init := OnDay(items[..|items| - 1], day, d);
      var e := items[|items| - 1];
      assert items == items[..|items| - 1] + [e];
      if day(e) == d then init + [e] else init
  }

  /** Selecting from a concatenation selects from each part, keeping order and repetitions. */
  lemma {:induction false} OnDayAppend(a: seq<IntakeEntity>, b: seq<IntakeEntity>, day: IntakeEntity -> Date, d: Date)
    ensures OnDay(a + b, day, d) == OnDay(a, day, d) + OnDay(b, day, d)
    decreases |b|
  {
    if b == [] {
      assert a + b == a;
    } else {
      var n := |b| - 1;
      assert (a + b)[..|a + b| - 1] == a + b[..n];
      assert (a + b)[|a + b| - 1] == b[n];
      OnDayAppend(a, b[..n], day, d);
    }
  }

  /** A single intake is selected exactly when it falls on the day. */
  lemma OnDayOne(e: IntakeEntity, day: IntakeEntity -> Date, d: Date)
    ensures OnDay([e], day, d) == if day(e) == d then [e] else []
  {
    assert [e][..0] == [];
  }

  /** `groupBy`: each day that some intake falls on, with its intakes in input order. */
  function GroupByDay(items: seq<IntakeEntity>, day: IntakeEntity -> Date): map<Date, seq<IntakeEntity>> {
    if items == [] then map[]
    else
      var m := GroupByDay(items[..|items| - 1], day);
      var e := items[|items| - 1];
      m[day(e) := (if day(e) in m then m[day(e)] else []) + [e]]
  }

  /** `calendarIntakes[date].orEmpty()`. */
  function IntakesOn(m: map<Date, seq<IntakeEntity>>, d: Date): seq<IntakeEntity> {
    if d in m then m[d] else []
  }

  /**
   * A group holds exactly the intakes of its day, in input order, and a day
   * is a key exactly when it has intakes; so looking up any day, key or not,
   * yields that day's intakes.
   */
  lemma {:induction false} GroupByDayIsFilter(items: seq<IntakeEntity>, day: IntakeEntity -> Date, d: Date)
    ensures d in GroupByDay(items, day) <==> OnDay(items, day, d) != []
    ensures IntakesOn(GroupByDay(items, day), d) == OnDay(items, day, d)
  {
    if items != [] {
      var init := items[..|items| - 1];
      GroupByDayIsFilter(init, day, d);
      var e := items[|items| - 1];
      assert items == init + [e];
      if day(e) == d {
        assert e in OnDay(items, day, d);
      }
    }
  }

  /** `LocalDate.ofEpochDay(it.intakeTime / (24 * 60 * 60 * 1000L))`: the UTC date, by truncating division. */
  function UtcDay(t: int): Date {
    TruncDiv(t, MillisPerDay)
  }

  function UtcDayOf(e: IntakeEntity): Date {
    UtcDay(e.intakeTime)
  }

  /** An intake's date on the wall clock of the zone `offset`. */
  function LocalDayOf(offset: int): IntakeEntity -> Date {
    (e: IntakeEntity) => LocalDay(e.intakeTime, offset)
  }

  /** The grouping the view model performs. */
  function GroupAsWritten(items: seq<IntakeEntity>): map<Date, seq<IntakeEntity>> {
    GroupByDay(items, UtcDayOf)
  }

  /** The grouping by the date on the wall clock of the zone the window was computed in. */
  function GroupByLocalDay(items: seq<IntakeEntity>, offset: int): map<Date, seq<IntakeEntity>> {
    GroupByDay(items, LocalDayOf(offset))
  }

  /** The instants `loadIntakesForMonth` asks for: the month's days in the zone `offset`. */
  function MonthWindow(first: Date, daysInMonth: nat, offset: int): (w: Window)
    ensures forall t :: w.Contains(t) <==> first <= LocalDay(t, offset) < first + daysInMonth
    ensures w.lo == StartOfDay(first, offset) && w.hi + 1 == StartOfDay(first + daysInMonth, offset)
  {
    var w := WindowBetween(StartOfDay(first, offset), StartOfDay(first + daysInMonth, offset));
    assert forall t :: w.Contains(t) <==> first <= LocalDay(t, offset) < first + daysInMonth by {
      forall t ensures w.Contains(t) <==> first <= LocalDay(t, offset) < first + daysInMonth {
        DaysWindowIsLocalDays(first, daysInMonth, offset, t);
      }
    }
    w
  }

  /**
   * A month's window ends one millisecond before the next month's begins, so
   * no instant lies in both and every instant of the two months lies in one.
   */
  lemma ConsecutiveMonthWindows(first: Date, n: nat, m: nat, offset: int, t: int)
    ensures MonthWindow(first, n, offset).hi + 1 == MonthWindow(first + n, m, offset).lo
    ensures !(MonthWindow(first, n, offset).Contains(t) && MonthWindow(first + n, m, offset).Contains(t))
    ensures first <= LocalDay(t, offset) < first + n + m <==> MonthWindow(first, n, offset).Contains(t) || MonthWindow(first + n, m, offset).Contains(t)
  {
  }

  /**
   * In a zone one hour ahead of UTC, an intake at 00:30 on 1 April 2024 is
   * inside April's window but is grouped under 31 March, so no day of the
   * April grid shows it.
   */
  lemma AsWrittenLosesEarlyIntake()
    ensures var e := IntakeEntity(1, 1, 1, 19814 * MillisPerDay - 1_800_000, true, Some(19814 * MillisPerDay - 1_800_000));
      && MonthWindow(19814, 30, 3_600_000).Contains(e.intakeTime)
      && GroupAsWritten([e]).Keys == {19813}
      && forall d :: 19814 <= d < 19814 + 30 ==> IntakesOn(GroupAsWritten([e]), d) == []
  {
    var e := IntakeEntity(1, 1, 1, 19814 * MillisPerDay - 1_800_000, true, Some(19814 * MillisPerDay - 1_800_000));
    assert [e][..0] == [];
    assert UtcDayOf(e) == 19813;
    assert GroupByDay([e][..0], UtcDayOf) == map[];
    assert GroupAsWritten([e]) == map[][19813 := [] + [e]];
    assert LocalDay(e.intakeTime, 3_600_000) == 19814;
  }

  /**
   * Grouped by local date, every intake the month's query returns lies under
   * a day of that month, and each day of the month shows exactly its intakes.
   */
  lemma LocalGroupingKeepsMonth(items: seq<IntakeEntity>, first: Date, daysInMonth: nat, offset: int, d: Date)
    requires forall e :: e in items ==> MonthWindow(first, daysInMonth, offset).Contains(e.intakeTime)
    ensures forall k :: k in GroupByLocalDay(items, offset) ==> first <= k < first + daysInMonth
    ensures forall e :: e in IntakesOn(GroupByLocalDay(items, offset), d) <==> e in items && LocalDay(e.intakeTime, offset) == d
  {
    var day := LocalDayOf(offset);
    forall k | k in GroupByLocalDay(items, offset) ensures first <= k < first + daysInMonth {
      GroupByDayIsFilter(items, day, k);
      var e := OnDay(items, day, k)[0];
      assert e in OnDay(items, day, k);
    }
    GroupByDayIsFilter(items, day, d);
  }

  /** `IntakeCalendarViewModel`. */
  class CalendarViewModel {
    var calendarIntakes: map<Date, seq<IntakeEntity>>

    constructor ()
      ensures calendarIntakes == map[]
    {
      calendarIntakes := map[];
    }

    /**
     * `loadIntakesForMonth`, for one emission of the query: the month's rows
     * grouped by their UTC date, `intakeTime / 86400000`.
     */
    method LoadIntakesForMonth(db: IntakeDb, profileId: int, first: Date, daysInMonth: nat, offset: int)
      requires db.Valid()
      modifies this
      ensures calendarIntakes == GroupAsWritten(db.InRange(profileId, MonthWindow(first, daysInMonth, offset)))
      ensures forall d :: IntakesOn(calendarIntakes, d) == OnDay(db.InRange(profileId, MonthWindow(first, daysInMonth, offset)), UtcDayOf, d)
    {
      var items := db.InRange(profileId, MonthWindow(first, daysInMonth, offset));
      forall d ensures IntakesOn(GroupAsWritten(items), d) == OnDay(items, UtcDayOf, d) {
        GroupByDayIsFilter(items, UtcDayOf, d);
      }
      calendarIntakes := GroupAsWritten(items);
    }

    /**
     * The corrected `loadIntakesForMonth`: the same rows grouped by the local
     * date of the zone the month's window was computed in, so that every key
     * is a day of the month.
     */
    method LoadIntakesForMonthLocal(db: IntakeDb, profileId: int, first: Date, daysInMonth: nat, offset: int)
      requires db.Valid()
      modifies this
      ensures calendarIntakes == GroupByLocalDay(db.InRange(profileId, MonthWindow(first, daysInMonth, offset)), offset)
      ensures forall k :: k in calendarIntakes ==> first <= k < first + daysInMonth
    {
      var items := db.InRange(profileId, MonthWindow(first, daysInMonth, offset));
      LocalGroupingKeepsMonth(items, first, daysInMonth, offset, first);
      calendarIntakes := GroupByLocalDay(items, offset);
    }
  }

  // ---------------------------------------------------------------------------
  // The grid of weeks

  /** `CalendarMonthGrid`'s rows: blanks up to the weekday counted from Sunday, the days, blanks to the end of the last row. */
  method CalendarWeeks(first: Date, daysInMonth: nat) returns (weeks: seq<seq<Option<Date>>>)
    ensures |weeks| == (SundayBasedLead(first) + daysInMonth + 6) / 7
    ensures forall r :: 0 <= r < |weeks| ==> |weeks[r]| == 7
    ensures forall r, c :: 0 <= r < |weeks| && 0 <= c < |weeks[r]| ==> weeks[r][c] == GridCell(SundayBasedLead(first), first, daysInMonth, 7 * r + c)
  {
    var lead := SundayBasedLead(first);
    weeks := [];
    var week: seq<Option<Date>> := [];
    var i := 0;
    while i < lead
      invariant 0 <= i <= lead && |week| == i
      invariant forall c :: 0 <= c < |week| ==> week[c] == GridCell(lead, first, daysInMonth, c)
    {
      week := week + [None];
      i := i + 1;
    }
    i := 0;
    while i < daysInMonth
      invariant 0 <= i <= daysInMonth
      invariant 7 * |weeks| + |week| == lead + i && |week| < 7
      invariant forall r :: 0 <= r < |weeks| ==> |weeks[r]| == 7
      invariant forall r, c :: 0 <= r < |weeks| && 0 <= c < |weeks[r]| ==> weeks[r][c] == GridCell(lead, first, daysInMonth, 7 * r + c)
      invariant forall c :: 0 <= c < |week| ==> week[c] == GridCell(lead, first, daysInMonth, 7 * |weeks| + c)
    {
      week := week + [Some(first + i)];
      if |week| == 7 {
        weeks := weeks + [week];
        week := [];
      }
      i := i + 1;
    }
    if |week| > 0 {
      while |week| < 7
        invariant 0 < |week| <= 7 && 7 * |weeks| + |week| >= lead + daysInMonth
        invariant forall c :: 0 <= c < |week| ==> week[c] == GridCell(lead, first, daysInMonth, 7 * |weeks| + c)
      {
        week := week + [None];
      }
      weeks := weeks + [week];
    }
  }

  /** Under the "S M T W T F S" header, every date sits in the column of its weekday counted from Sunday. */
  lemma WeeksUnderSundayHeader(first: Date, daysInMonth: nat, r: nat, c: nat)
    requires c < 7 && GridCell(SundayBasedLead(first), first, daysInMonth, 7 * r + c).Some?
    ensures c == DayOfWeekValue(GridCell(SundayBasedLead(first), first, daysInMonth, 7 * r + c).value) % 7
  {
    var lead := SundayBasedLead(first);
    var v := DayOfWeekValue(first);
    var d := GridCell(lead, first, daysInMonth, 7 * r + c).value;
    DayOfWeekAdvances(first, 7 * r + c - lead);
    WholeWeeks(v - 1 + c - lead, r);
    assert (DayOfWeekValue(d) - 1) % 7 == (v - 1 + c - lead) % 7;
  }

  /** Whole weeks do not change the weekday. */
  lemma {:induction false} WholeWeeks(x: int, r: nat)
    ensures (x + 7 * r) % 7 == x % 7
  {
    if r > 0 {
      WholeWeeks(x, r - 1);
      assert x + 7 * r == (x + 7 * (r - 1)) + 7;
    }
  }

  // ---------------------------------------------------------------------------
  // The colour of a day

  datatype IntakeDayStatus = NoIntakes | AllTakenIntakes | NoneTakenIntakes | MixedIntakes

  /** The `when` that picks a day's colours. */
  function IntakeStatus(intakes: seq<IntakeEntity>): (s: IntakeDayStatus)
    ensures s == NoIntakes <==> intakes == []
    ensures s == AllTakenIntakes <==> intakes != [] && forall e :: e in intakes ==> e.taken
    ensures s == NoneTakenIntakes <==> intakes != [] && forall e :: e in intakes ==> !e.taken
    ensures s == MixedIntakes <==> (exists e :: e in intakes && e.taken) && (exists e :: e in intakes && !e.taken)
  {
    if intakes == [] then NoIntakes
    else
      assert intakes[0] in intakes;
      if forall e :: e in intakes ==> e.taken then AllTakenIntakes
      else if forall e :: e in intakes ==> !e.taken then NoneTakenIntakes
      else MixedIntakes
  }

  /** A day's circle colour; the selected date is always blue. */
  function IntakeBackground(intakes: seq<IntakeEntity>, isSelected: bool): (argb: int)
    ensures isSelected ==> argb == 0xFF90CAF9
    ensures !isSelected && intakes == [] ==> argb == 0
  {
    if isSelected then 0xFF90CAF9
    else match IntakeStatus(intakes)
      case NoIntakes => 0x00000000
      case AllTakenIntakes => 0xFFC8E6C9
      case NoneTakenIntakes => 0xFFFFCDD2
      case MixedIntakes => 0xFFFFF9C4
  }

  /** Distinct statuses give distinct colours on days that are not selected. */
  lemma IntakeBackgroundDistinguishes(a: seq<IntakeEntity>, b: seq<IntakeEntity>)
    requires IntakeStatus(a) != IntakeStatus(b)
    ensures IntakeBackground(a, false) != IntakeBackground(b, false)
  {
  }
}
