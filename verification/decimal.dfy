/**
 * Decimal text of integers: Python's `str(n)` on an int and `int(s)` on a
 * string of ASCII digits.  The serialized week keys its days by `str(day)`
 * and reads them back with `int(day_str)`; the year-month argument is read
 * with `int` too.
 */
module Decimal {
  import opened Wrappers

  predicate IsDigit(c: char) {
    '0' <= c <= '9'
  }

  predicate AllDigits(s: string) {
    forall i :: 0 <= i < |s| ==> IsDigit(s[i])
  }

  function DigitChar(n: nat): (c: char)
    requires n < 10
    ensures IsDigit(c) && c as int - '0' as int == n
  {
    ('0' as int + n) as char
  }

  /** The value of a string of decimal digits, leading zeros allowed. */
  function DigitsValue(s: string): nat
    requires AllDigits(s)
  {
    if s == [] then 0 else DigitsValue(s[..|s| - 1]) * 10 + (s[|s| - 1] as int - '0' as int)
  }

  /** `str(n)` for n >= 0: no leading zero except for "0" itself. */
  function NatToDecimal(n: nat): (s: string)
    ensures |s| > 0 && AllDigits(s)
    ensures s[0] == '0' ==> n == 0 && |s| == 1
  {
    if n < 10 then [DigitChar(n)] else NatToDecimal(n / 10) + [DigitChar(n % 10)]
  }

  /** The form `str` gives a non-negative int. */
  predicate Canonical(s: string) {
    |s| > 0 && AllDigits(s) && (s[0] == '0' ==> |s| == 1)
  }

  lemma {:induction false} ValueOfDecimal(n: nat)
    ensures DigitsValue(NatToDecimal(n)) == n
  {
    if n >= 10 {
      var s := NatToDecimal(n);
      assert s[..|s| - 1] == NatToDecimal(n / 10);
      ValueOfDecimal(n / 10);
    }
  }

  lemma {:induction false} DecimalOfValue(s: string)
    requires Canonical(s)
    ensures NatToDecimal(DigitsValue(s)) == s
  {
    var n := DigitsValue(s);
    if |s| == 1 {
      assert s[..0] == [];
    } else {
      var p := s[..|s| - 1];
      assert p[0] == s[0];
      assert p[0] != '0';
      LeadingDigitPositive(p);
      DecimalOfValue(p);
      assert n / 10 == DigitsValue(p) && n % 10 == s[|s| - 1] as int - '0' as int;
    }
  }

  lemma {:induction false} LeadingDigitPositive(s: string)
    requires |s| > 0 && AllDigits(s) && s[0] != '0'
    ensures DigitsValue(s) > 0
  {
    if |s| > 1 {
      var p := s[..|s| - 1];
      assert p[0] == s[0];
      LeadingDigitPositive(p);
    }
  }

  /** `str(day)`: the key a day has in the serialized week. */
  function DayKey(d: int): string {
    if d < 0 then "-" + NatToDecimal(-d) else NatToDecimal(d)
  }

  /** `int(day_str)`, restricted to the canonical texts `str` produces. */
  function ParseDayKey(s: string): (r: Option<int>)
    ensures r.Some? ==> DayKey(r.value) == s
  {
    if |s| > 1 && s[0] == '-' && Canonical(s[1..]) && s[1] != '0' then
      var v: int := DigitsValue(s[1..]);
      DecimalOfValue(s[1..]);
      LeadingDigitPositive(s[1..]);
      assert s == "-" + s[1..];
      Some(-v)
    else if Canonical(s) then
      DecimalOfValue(s);
      Some(DigitsValue(s) as int)
    else None
  }

  lemma DayKeyRoundTrip(d: int)
    ensures ParseDayKey(DayKey(d)) == Some(d)
  {
    var t := NatToDecimal(if d < 0 then -d else d);
    ValueOfDecimal(if d < 0 then -d else d);
    assert Canonical(t);
    if d < 0 {
      var s := DayKey(d);
      assert s == "-" + t && s[1..] == t;
      assert t[0] != '0';
    } else {
      assert DayKey(d) == t && IsDigit(t[0]);
    }
  }

  lemma DayKeyInjective(a: int, b: int)
    requires DayKey(a) == DayKey(b)
    ensures a == b
  {
    DayKeyRoundTrip(a);
    DayKeyRoundTrip(b);
  }
}
