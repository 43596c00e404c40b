/**
 * Decimal text of integers as the JVM writes and reads it: `Int.toString()`
 * and `String.toInt()` on 32-bit `Int`. The reminder code builds notification
 * ids by gluing decimal strings together and parsing the result back, so the
 * model needs both directions and the arithmetic of concatenation.
 */
module Decimal {
  import opened Wrappers

  const IntMin: int := -0x8000_0000
  const IntMax: int := 0x7FFF_FFFF

  predicate IsDigit(c: char) {
    '0' <= c <= '9'
  }

  predicate AllDigits(s: string) {
    forall i :: 0 <= i < |s| ==> IsDigit(s[i])
  }

  function DigitChar(d: nat): (c: char)
    requires d < 10
    ensures IsDigit(c)
  {
    ('0' as int + d) as char
  }

  function DigitValue(c: char): (d: nat)
    requires IsDigit(c)
    ensures d < 10
  {
    c as int - '0' as int
  }

  function Pow10(k: nat): (p: nat)
    ensures p >= 1
  {
    if k == 0 then 1 else 10 * Pow10(k - 1)
  }

  /** The digits of `n`, most significant first, with no leading zero. */
  function Digits(n: nat): (s: string)
    ensures |s| > 0 && AllDigits(s)
  {
    if n < 10 then [DigitChar(n)] else Digits(n / 10) + [DigitChar(n % 10)]
  }

  /** `Int.toString()`: a minus sign for negative values, then the digits. */
  function ToText(n: int): string {
    if n < 0 then "-" + Digits(-n) else Digits(n)
  }

  /** The number a string of digits denotes; leading zeros are allowed. */
  function DigitsValue(s: string): nat
    requires AllDigits(s)
  {
    if s == [] then 0 else DigitsValue(s[..|s| - 1]) * 10 + DigitValue(s[|s| - 1])
  }

  /** The text after one leading sign, if there is one. */
  function Magnitude(s: string): (m: string)
    ensures |m| == |s| || (|s| > 0 && |m| == |s| - 1 && (s[0] == '-' || s[0] == '+'))
  {
    if |s| > 0 && (s[0] == '-' || s[0] == '+') then s[1..] else s
  }

  /** Integer text: an optional sign followed by at least one decimal digit. */
  predicate IntegerText(s: string) {
    |Magnitude(s)| > 0 && AllDigits(Magnitude(s))
  }

  /** The value integer text denotes: its digits, negated after a minus sign. */
  function SignedValue(s: string): int
    requires IntegerText(s)
  {
    if s[0] == '-' then 0 - DigitsValue(Magnitude(s)) else DigitsValue(Magnitude(s))
  }

  /**
   * `String.toInt()`: an optional sign, then at least one digit, and the value
   * must fit a 32-bit `Int`; anything else throws `NumberFormatException`,
   * modelled as `None`.
   */
  function ParseInt32(s: string): (r: Option<int>)
    ensures r.Some? <==> IntegerText(s) && IntMin <= SignedValue(s) <= IntMax
    ensures r.Some? ==> r.value == SignedValue(s)
    ensures r.Some? && AllDigits(s) ==> r.value == DigitsValue(s)
    ensures s == [] ==> r.None?
  {
    if |s| > 0 && (s[0] == '-' || s[0] == '+') then
      var body := s[1..];
      if |body| > 0 && AllDigits(body) then
        var v: int := if s[0] == '-' then 0 - DigitsValue(body) as int else DigitsValue(body);
        if IntMin <= v <= IntMax then Some(v) else None
      else None
    else if |s| > 0 && AllDigits(s) && DigitsValue(s) <= IntMax then
      Some(DigitsValue(s))
    else None
  }

  /** Reading back the digits of `n` gives `n`. */
  lemma {:induction false} DigitsRoundTrip(n: nat)
    ensures DigitsValue(Digits(n)) == n
  {
    if n >= 10 {
      DigitsRoundTrip(n / 10);
      var s := Digits(n / 10) + [DigitChar(n % 10)];
      assert s[..|s| - 1] == Digits(n / 10);
    }
  }

  lemma AllDigitsAppend(s: string, t: string)
    requires AllDigits(s) && AllDigits(t)
    ensures AllDigits(s + t)
  {
    forall i | 0 <= i < |s + t| ensures IsDigit((s + t)[i]) {
      if i >= |s| { assert (s + t)[i] == t[i - |s|]; }
    }
  }

  /** Appending digits shifts the value left by as many decimal places. */
  lemma {:induction false} DigitsValueAppend(s: string, t: string)
    requires AllDigits(s) && AllDigits(t)
    ensures AllDigits(s + t)
    ensures DigitsValue(s + t) == DigitsValue(s) * Pow10(|t|) + DigitsValue(t)
  {
    AllDigitsAppend(s, t);
    if t == [] {
      assert s + t == s;
    } else {
      var t' := t[..|t| - 1];
      var last := t[|t| - 1];
      assert (s + t)[..|s + t| - 1] == s + t';
      assert (s + t)[|s + t| - 1] == last;
      DigitsValueAppend(s, t');
      var a, p, b, d := DigitsValue(s), Pow10(|t'|), DigitsValue(t'), DigitValue(last);
      assert DigitsValue(s + t) == DigitsValue(s + t') * 10 + d;
      assert DigitsValue(s + t') == a * p + b;
      assert DigitsValue(t) == b * 10 + d;
      assert Pow10(|t|) == 10 * p;
      ShiftArithmetic(a, p, b, d);
    }
  }

  lemma ShiftArithmetic(a: int, p: int, b: int, d: int)
    ensures (a * p + b) * 10 + d == a * (10 * p) + (b * 10 + d)
  {
  }

  /** `toInt()` undoes `toString()` for every 32-bit value. */
  lemma ToTextRoundTrip(n: int)
    requires IntMin <= n <= IntMax
    ensures ParseInt32(ToText(n)) == Some(n)
  {
    var t := ToText(n);
    if n < 0 {
      DigitsRoundTrip(-n);
      assert t[0] == '-' && t[1..] == Digits(-n);
      assert Magnitude(t) == Digits(-n);
      assert SignedValue(t) == n;
    } else {
      DigitsRoundTrip(n);
      assert IsDigit(t[0]);
      assert Magnitude(t) == t;
      assert SignedValue(t) == n;
    }
  }

  /** Distinct integers have distinct decimal texts. */
  lemma ToTextInjective(m: int, n: int)
    requires ToText(m) == ToText(n)
    ensures m == n
  {
    SignOfText(m);
    SignOfText(n);
    if m < 0 {
      assert ToText(m)[1..] == Digits(-m) && ToText(n)[1..] == Digits(-n);
      DigitsRoundTrip(-m);
      DigitsRoundTrip(-n);
    } else {
      DigitsRoundTrip(m);
      DigitsRoundTrip(n);
    }
  }

  /** The text starts with a minus sign exactly for negative values. */
  lemma SignOfText(n: int)
    ensures |ToText(n)| > 0 && (ToText(n)[0] == '-' <==> n < 0)
  {
    if n >= 0 { assert IsDigit(Digits(n)[0]); }
  }

  /** Kotlin's `String.replace(":", "")`. */
  function RemoveColons(s: string): (r: string)
    ensures forall i :: 0 <= i < |r| ==> r[i] != ':'
    ensures |r| <= |s|
  {
    if s == [] then []
    else if s[0] == ':' then RemoveColons(s[1..])
    else [s[0]] + RemoveColons(s[1..])
  }

  lemma {:induction false} RemoveColonsKeepsColonFree(s: string)
    requires forall i :: 0 <= i < |s| ==> s[i] != ':'
    ensures RemoveColons(s) == s
  {
    if s != [] { RemoveColonsKeepsColonFree(s[1..]); }
  }

  lemma {:induction false} RemoveColonsAppend(s: string, t: string)
    ensures RemoveColons(s + t) == RemoveColons(s) + RemoveColons(t)
  {
    if s == [] {
      assert s + t == t;
    } else {
      assert (s + t)[1..] == s[1..] + t;
      RemoveColonsAppend(s[1..], t);
    }
  }
}
