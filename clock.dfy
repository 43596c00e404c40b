/**
 * Clock values of `java.time` as the app uses them. A `LocalDate` is its
 * epoch day (days since 1970-01-01), a `LocalTime` its four fields, and an
 * instant a count of milliseconds.
 */
module Clock {
  import opened Wrappers
  import opened Decimal

  /** A `LocalDate`, as its epoch day. */
  type Date = int

  const MillisPerDay: int := 24 * 60 * 60 * 1000
  const MillisPerMinute: int := 60 * 1000

  datatype LocalTime = LocalTime(hour: int, minute: int, second: int, nano: int)

  predicate ValidTime(t: LocalTime) {
    0 <= t.hour < 24 && 0 <= t.minute < 60 && 0 <= t.second < 60 && 0 <= t.nano < 1_000_000_000
  }

  /** Every `LocalTime` object holds fields in range. */
  type Time = t: LocalTime | ValidTime(t) witness LocalTime(0, 0, 0, 0)

  /** `LocalTime.of(hour, minute)`. */
  function TimeOf(hour: int, minute: int): (t: Time)
    requires 0 <= hour < 24 && 0 <= minute < 60
    ensures t.hour == hour && t.minute == minute && t.second == 0 && t.nano == 0
  {
    LocalTime(hour, minute, 0, 0)
  }

  /** Two digits, zero-padded, as the `HH` and `mm` pattern letters print. */
  function Pad2(n: nat): (s: string)
    requires n < 100
    ensures |s| == 2 && AllDigits(s)
  {
    [DigitChar(n / 10), DigitChar(n % 10)]
  }

  /** `time.format(DateTimeFormatter.ofPattern("HH:mm"))`; seconds are dropped. */
  function FormatHHmm(t: Time): (s: string)
    ensures |s| == 5 && s[2] == ':'
  {
    Pad2(t.hour) + ":" + Pad2(t.minute)
  }

  /**
   * `LocalTime.parse(s, DateTimeFormatter.ofPattern("HH:mm"))`: exactly two
   * digits, a colon and two digits, naming an hour below 24 and a minute below
   * 60. The formatter resolves in its default smart style, which also reads
   * "24:00" as the midnight that ends the day and drops the extra day. Anything
   * else throws `DateTimeParseException`, modelled as `None`.
   */
  function ParseHHmm(s: string): (r: Option<Time>)
    ensures r.Some? ==> r.value.second == 0 && r.value.nano == 0
    ensures r.Some? ==> |s| == 5 && s[2] == ':'
    ensures s == "24:00" ==> r == Some(TimeOf(0, 0))
  {
    if |s| == 5 && IsDigit(s[0]) && IsDigit(s[1]) && s[2] == ':' && IsDigit(s[3]) && IsDigit(s[4]) then
      var h := DigitValue(s[0]) * 10 + DigitValue(s[1]);
      var m := DigitValue(s[3]) * 10 + DigitValue(s[4]);
      if h < 24 && m < 60 then Some(TimeOf(h, m))
      else if h == 24 && m == 0 then Some(TimeOf(0, 0))
      else None
    else None
  }

  /** Parsing the formatted text gives the time back, truncated to the minute. */
  lemma ParseFormatHHmm(t: Time)
    ensures ParseHHmm(FormatHHmm(t)) == Some(TimeOf(t.hour, t.minute))
  {
    var s := FormatHHmm(t);
    assert s[0] == DigitChar(t.hour / 10) && s[1] == DigitChar(t.hour % 10);
    assert s[3] == DigitChar(t.minute / 10) && s[4] == DigitChar(t.minute % 10);
  }

  /** Whatever parses is the formatted text of what it parses to, except "24:00", which formats back as "00:00". */
  lemma FormatParseHHmm(s: string)
    requires ParseHHmm(s).Some?
    ensures FormatHHmm(ParseHHmm(s).value) == if s == "24:00" then "00:00" else s
  {
    var t := ParseHHmm(s).value;
    var h := DigitValue(s[0]) * 10 + DigitValue(s[1]);
    var m := DigitValue(s[3]) * 10 + DigitValue(s[4]);
    var f := FormatHHmm(t);
    if h < 24 && m < 60 {
      assert t.hour == h && t.minute == m;
      assert f[0] == s[0] && f[1] == s[1] && f[2] == s[2] && f[3] == s[3] && f[4] == s[4];
      assert s != "24:00";
    } else {
      assert h == 24 && m == 0;
      assert s[0] == '2' && s[1] == '4' && s[3] == '0' && s[4] == '0';
      assert s == "24:00";
    }
  }

  /**
   * `date.dayOfWeek.value`: 1 for Monday up to 7 for Sunday. Epoch day 0,
   * 1970-01-01, was a Thursday.
   */
  function DayOfWeekValue(d: Date): (v: int)
    ensures 1 <= v <= 7
  {
    (d + 3) % 7 + 1
  }

  /** Each following day moves the weekday one step round the week. */
  lemma DayOfWeekAdvances(d: Date, k: nat)
    ensures (DayOfWeekValue(d + k) - 1) % 7 == (DayOfWeekValue(d) - 1 + k) % 7
  {
  }

  /**
   * The instant of `time` on `day`, as `Calendar` computes it after setting the
   * date, hour and minute and clearing seconds and milliseconds; instants are
   * local wall-clock milliseconds.
   */
  function SlotInstant(day: Date, t: Time): (ms: int)
    ensures day * MillisPerDay <= ms < (day + 1) * MillisPerDay
  {
    day * MillisPerDay + (t.hour * 60 + t.minute) * MillisPerMinute
  }

  /** Kotlin's `/` on `Long`, which truncates toward zero. */
  function TruncDiv(a: int, b: int): (q: int)
    requires b > 0
    ensures a >= 0 ==> q * b <= a < (q + 1) * b
    ensures a < 0 ==> (q - 1) * b < a <= q * b
  {
    if a >= 0 then a / b else -((-a) / b)
  }

  /**
   * `date.atStartOfDay(zone).toInstant().toEpochMilli()` for a zone whose
   * offset from UTC is `offset` milliseconds.
   */
  function StartOfDay(d: Date, offset: int): int {
    d * MillisPerDay - offset
  }

  /** An inclusive range of epoch milliseconds `[lo, hi]`. */
  datatype Window = Window(lo: int, hi: int) {
    predicate Contains(t: int) {
      lo <= t <= hi
    }
  }

  /**
   * The window from one start-of-day up to one millisecond before another, as
   * both the month and the today queries build it.
   */
  function WindowBetween(start: int, nextStart: int): (w: Window)
    ensures forall t :: w.Contains(t) <==> start <= t < nextStart
    ensures w.hi + 1 == nextStart
  {
    Window(start, nextStart - 1)
  }

  /** The date of the instant `t` on the wall clock of a zone `offset` milliseconds ahead of UTC. */
  function LocalDay(t: int, offset: int): Date {
    (t + offset) / MillisPerDay
  }

  /**
   * The window from the start of day `first` to the start of day `first + n`
   * holds exactly the instants whose local date is one of those `n` days.
   */
  lemma DaysWindowIsLocalDays(first: Date, n: nat, offset: int, t: int)
    ensures WindowBetween(StartOfDay(first, offset), StartOfDay(first + n, offset)).Contains(t)
        <==> first <= LocalDay(t, offset) < first + n
  {
    var q := LocalDay(t, offset);
    assert q * MillisPerDay <= t + offset < q * MillisPerDay + MillisPerDay;
    if first <= q < first + n {
      assert first * MillisPerDay <= q * MillisPerDay;
      assert (q + 1) * MillisPerDay <= (first + n) * MillisPerDay;
    }
    if q < first {
      assert (q + 1) * MillisPerDay <= first * MillisPerDay;
    }
    if q >= first + n {
      assert (first + n) * MillisPerDay <= q * MillisPerDay;
    }
  }
}
