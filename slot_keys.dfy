/**
 * How the reminder code names a (dose, time) slot: the alarm request code,
 * the notification id and the "taken" preference key.
 */
module SlotKeys {
  import opened Wrappers
  import opened Decimal
  import opened Clock

  /**
   * The largest dose id whose request codes stay below `Int.MAX_VALUE`. The
   * app's ids are 1 for the sample dose and otherwise drawn from 0..100000.
   */
  const MaxSafeId: int := 214748

  /** Two's-complement wrap-around of a JVM `Int`. */
  function Wrap32(x: int): (r: int)
    ensures IntMin <= r <= IntMax
    ensures IntMin <= x <= IntMax ==> r == x
  {
    (x - IntMin) % 0x1_0000_0000 + IntMin
  }

  /**
   * `item.id * 10000 + time.hour * 100 + time.minute` in `Int` arithmetic: the
   * request code under which a slot's alarm is registered and cancelled.
   */
  function RequestCode(id: int, t: Time): (c: int)
    ensures 0 <= id <= MaxSafeId ==> c == id * 10000 + t.hour * 100 + t.minute && 0 <= c <= IntMax
  {
    Wrap32(id * 10000 + t.hour * 100 + t.minute)
  }

  /** For safe ids the request code determines the dose id, hour and minute. */
  lemma RequestCodeInjective(id1: int, t1: Time, id2: int, t2: Time)
    requires 0 <= id1 <= MaxSafeId && 0 <= id2 <= MaxSafeId
    requires RequestCode(id1, t1) == RequestCode(id2, t2)
    ensures id1 == id2 && t1.hour == t2.hour && t1.minute == t2.minute
  {
    var c := RequestCode(id1, t1);
    HourMinuteDecode(id1, t1.hour, t1.minute);
    HourMinuteDecode(id2, t2.hour, t2.minute);
  }

  lemma HourMinuteDecode(id: int, h: int, m: int)
    requires 0 <= h < 24 && 0 <= m < 60
    ensures (id * 10000 + h * 100 + m) % 100 == m
    ensures (id * 10000 + h * 100 + m) / 100 == id * 100 + h
    ensures (id * 100 + h) % 100 == h && (id * 100 + h) / 100 == id
  {
    assert id * 10000 + h * 100 + m == (id * 100 + h) * 100 + m;
  }

  /**
   * `(doseId.toString() + doseTime.replace(":", "")).toInt()`: the id under
   * which the missed-dose notification is shown and cancelled; `None` where
   * `toInt()` throws.
   */
  function NotificationId(doseId: int, doseTime: string): Option<int> {
    ParseInt32(ToText(doseId) + RemoveColons(doseTime))
  }

  /**
   * For a safe id and a time formatted as `HH:mm`, the notification id parses
   * and equals the alarm's request code.
   */
  lemma NotificationIdIsRequestCode(id: int, t: Time)
    requires 0 <= id <= MaxSafeId
    ensures NotificationId(id, FormatHHmm(t)) == Some(RequestCode(id, t))
  {
    var hm := Pad2(t.hour) + Pad2(t.minute);
    HHmmDigits(t);
    DigitsValueAppend(Digits(id), hm);
    DigitsRoundTrip(id);
    assert Pow10(|hm|) == 10000 by {
      assert Pow10(1) == 10 && Pow10(2) == 100 && Pow10(3) == 1000;
    }
    var s := Digits(id) + hm;
    assert ToText(id) + RemoveColons(FormatHHmm(t)) == s;
    var v := id * 10000 + t.hour * 100 + t.minute;
    assert DigitsValue(s) == v;
    assert v <= IntMax by {
      assert id * 10000 <= MaxSafeId * 10000;
    }
    ParseUnsigned(s);
  }

  /** `toInt()` of a plain digit string within range is its value. */
  lemma ParseUnsigned(s: string)
    requires |s| > 0 && AllDigits(s) && DigitsValue(s) <= IntMax
    ensures ParseInt32(s) == Some(DigitsValue(s))
  {
    assert IsDigit(s[0]);
  }

  /** Dropping the colon from `HH:mm` leaves four digits worth `hour * 100 + minute`. */
  lemma HHmmDigits(t: Time)
    ensures RemoveColons(FormatHHmm(t)) == Pad2(t.hour) + Pad2(t.minute)
    ensures AllDigits(Pad2(t.hour) + Pad2(t.minute))
    ensures DigitsValue(Pad2(t.hour) + Pad2(t.minute)) == t.hour * 100 + t.minute
  {
    var hh, mm := Pad2(t.hour), Pad2(t.minute);
    RemoveColonsAppend(hh + ":", mm);
    RemoveColonsAppend(hh, ":");
    RemoveColonsKeepsColonFree(hh);
    RemoveColonsKeepsColonFree(mm);
    assert RemoveColons(":") == [];
    DigitsValueAppend(hh, mm);
    Pad2Value(t.hour);
    Pad2Value(t.minute);
  }

  lemma Pad2Value(n: nat)
    requires n < 100
    ensures DigitsValue(Pad2(n)) == n
  {
    var p := Pad2(n);
    assert p[..1] == [p[0]];
    assert [p[0]][..0] == [];
    assert DigitsValue([p[0]]) == n / 10;
  }

  /**
   * The preference key `taken_{doseId}_{time}_{date}`, kept as the triple it is
   * built from; `TakenKeyTextInjective` shows the string form loses nothing.
   */
  datatype TakenKey = TakenKey(doseId: int, time: string, date: Date)

  /** The key string, with the date already rendered as text. */
  function TakenKeyText(doseId: int, time: string, dateText: string): string {
    "taken_" + (ToText(doseId) + "_" + (time + "_" + dateText))
  }

  predicate NoUnderscore(s: string) {
    forall i :: 0 <= i < |s| ==> s[i] != '_'
  }

  /**
   * Keys built from times without an underscore (every `HH:mm` text) are equal
   * only when dose id, time text and date text are.
   */
  lemma TakenKeyTextInjective(id1: int, time1: string, date1: string, id2: int, time2: string, date2: string)
    requires NoUnderscore(time1) && NoUnderscore(time2)
    requires TakenKeyText(id1, time1, date1) == TakenKeyText(id2, time2, date2)
    ensures id1 == id2 && time1 == time2 && date1 == date2
  {
    var r1, r2 := time1 + "_" + date1, time2 + "_" + date2;
    TakenKeyTextShape(id1, time1, date1);
    TakenKeyTextShape(id2, time2, date2);
    TextHasNoUnderscore(id1);
    TextHasNoUnderscore(id2);
    SplitAtUnderscore(ToText(id1), r1, ToText(id2), r2);
    ToTextInjective(id1, id2);
    SplitAtUnderscore(time1, date1, time2, date2);
  }

  lemma TakenKeyTextShape(id: int, time: string, date: string)
    ensures TakenKeyText(id, time, date)[6..] == ToText(id) + "_" + (time + "_" + date)
  {
  }

  lemma TextHasNoUnderscore(n: int)
    ensures NoUnderscore(ToText(n))
  {
    var s := ToText(n);
    forall i | 0 <= i < |s| ensures s[i] != '_' {
      if n < 0 && i > 0 {
        assert s[i] == Digits(-n)[i - 1];
      }
    }
  }

  /** The length of the text before the first underscore. */
  function FieldLength(s: string): (n: nat)
    ensures n <= |s|
  {
    if s == [] || s[0] == '_' then 0 else 1 + FieldLength(s[1..])
  }

  lemma {:induction false} FieldLengthJoined(a: string, b: string)
    requires NoUnderscore(a)
    ensures FieldLength(a + "_" + b) == |a|
  {
    if a != [] {
      assert (a + "_" + b)[1..] == a[1..] + "_" + b;
      FieldLengthJoined(a[1..], b);
    }
  }

  /** Text joined by an underscore splits back at the first underscore. */
  lemma SplitAtUnderscore(a1: string, b1: string, a2: string, b2: string)
    requires NoUnderscore(a1) && NoUnderscore(a2)
    requires a1 + "_" + b1 == a2 + "_" + b2
    ensures a1 == a2 && b1 == b2
  {
    var s := a1 + "_" + b1;
    FieldLengthJoined(a1, b1);
    FieldLengthJoined(a2, b2);
    assert a1 == s[..|a1|] == a2;
    assert b1 == s[|a1| + 1..] == b2;
  }
}
