/**
 * The year-month argument of the command-line entry point: `YYYY-MM`, or
 * nothing for the current month.  The current year is a parameter (the
 * program reads the clock).
 */
module Cli {
  import opened Wrappers
  import opened Decimal

  /** The earliest year the argument may name. */
  const FirstYear := 2020

  datatype Target = CurrentMonth | Month(year: int, month: int)

  datatype ArgError =
    | BadFormat(text: string)
    | YearOutOfRange(year: int, latest: int)
    | MonthOutOfRange(month: int)

  /** `\d{4}-\d{1,2}`, over ASCII digits. */
  predicate Shape(t: string) {
    (|t| == 6 || |t| == 7) && AllDigits(t[..4]) && t[4] == '-' && AllDigits(t[5..])
  }

  /** `re.match(r'^\d{4}-\d{1,2}$', s)`: `$` also matches just before a final newline. */
  predicate MatchesYearMonth(s: string) {
    Shape(s) || (|s| > 0 && s[|s| - 1] == '\n' && Shape(s[..|s| - 1]))
  }

  /** The text without the newline `$` lets through; `int` ignores it. */
  function Body(s: string): (t: string)
    requires MatchesYearMonth(s)
    ensures Shape(t)
  {
    if Shape(s) then s else s[..|s| - 1]
  }

  /** The number the four year digits of a matching argument spell. */
  function YearOf(s: string): nat
    requires MatchesYearMonth(s)
  {
    DigitsValue(Body(s)[..4])
  }

  /** The number the one or two month digits of a matching argument spell. */
  function MonthOf(s: string): nat
    requires MatchesYearMonth(s)
  {
    DigitsValue(Body(s)[5..])
  }

  /** `parse_year_month(date_str)`, with `datetime.now().year` as currentYear. */
  function ParseYearMonth(arg: Option<string>, currentYear: int): (r: Result<Target, ArgError>)
    ensures r == Success(CurrentMonth) <==> arg.None? || arg.value == ""
    ensures r.Failure? && r.error.BadFormat? <==> arg.Some? && arg.value != "" && !MatchesYearMonth(arg.value)
    ensures r.Success? && r.value.Month? ==>
              FirstYear <= r.value.year <= currentYear + 10 && r.value.year <= 9999 && 1 <= r.value.month <= 12
    ensures r.Failure? && r.error.YearOutOfRange? ==>
              !(FirstYear <= r.error.year <= currentYear + 10) && r.error.latest == currentYear + 10
    ensures r.Failure? && r.error.MonthOutOfRange? ==> !(1 <= r.error.month <= 12)
    // a well-formed argument: its digits decide, the year checked before the month
    ensures arg.Some? && arg.value != "" && MatchesYearMonth(arg.value) ==>
              (r == Success(Month(YearOf(arg.value), MonthOf(arg.value))) <==>
                 FirstYear <= YearOf(arg.value) <= currentYear + 10 && 1 <= MonthOf(arg.value) <= 12)
    ensures arg.Some? && arg.value != "" && MatchesYearMonth(arg.value) &&
            !(FirstYear <= YearOf(arg.value) <= currentYear + 10) ==>
              r == Failure(YearOutOfRange(YearOf(arg.value), currentYear + 10))
    ensures arg.Some? && arg.value != "" && MatchesYearMonth(arg.value) &&
            FirstYear <= YearOf(arg.value) <= currentYear + 10 && !(1 <= MonthOf(arg.value) <= 12) ==>
              r == Failure(MonthOutOfRange(MonthOf(arg.value)))
  {
    if arg.None? || arg.value == "" then Success(CurrentMonth)
    else
      var s := arg.value;
      if !MatchesYearMonth(s) then Failure(BadFormat(s))
      else
        var t := Body(s);
        var year, month := YearOf(s), MonthOf(s);
        DigitsBound(t[..4]);
        if year < FirstYear || year > currentYear + 10 then Failure(YearOutOfRange(year, currentYear + 10))
        else if month < 1 || month > 12 then Failure(MonthOutOfRange(month))
        else Success(Month(year, month))
  }

  lemma {:induction false} DigitsBound(s: string)
    requires AllDigits(s)
    ensures DigitsValue(s) < Pow10(|s|)
  {
    if s != [] {
      DigitsBound(s[..|s| - 1]);
    }
  }

  function Pow10(k: nat): (p: nat)
    ensures p >= 1
  {
    if k == 0 then 1 else 10 * Pow10(k - 1)
  }

  /** `f"{year}-{month:02d}"`, the form the entry point echoes the target month in. */
  function FormatYearMonth(year: nat, month: nat): string
    requires month < 100
  {
    NatToDecimal(year) + "-" + (if month < 10 then "0" + NatToDecimal(month) else NatToDecimal(month))
  }

  lemma FourDigitYear(n: nat)
    requires 1000 <= n <= 9999
    ensures |NatToDecimal(n)| == 4
  {
    assert |NatToDecimal(n / 1000)| == 1;
    assert |NatToDecimal(n / 100)| == 2;
    assert |NatToDecimal(n / 10)| == 3;
  }

  lemma TwoDigitMonth(m: nat)
    requires 1 <= m <= 12
    ensures var t := if m < 10 then "0" + NatToDecimal(m) else NatToDecimal(m);
            |t| == 2 && AllDigits(t) && DigitsValue(t) == m
  {
    ValueOfDecimal(m);
    if m < 10 {
      var t := "0" + NatToDecimal(m);
      assert t[..1] == "0";
      assert DigitsValue(t[..1]) == 0;
    } else {
      assert |NatToDecimal(m / 10)| == 1;
    }
  }

  /** Every target month the argument accepts is accepted in its formatted form. */
  lemma FormatThenParse(year: nat, month: nat, currentYear: int)
    requires FirstYear <= year <= currentYear + 10 && year <= 9999 && 1 <= month <= 12
    ensures ParseYearMonth(Some(FormatYearMonth(year, month)), currentYear) == Success(Month(year, month))
  {
    var s := FormatYearMonth(year, month);
    FourDigitYear(year);
    ValueOfDecimal(year);
    TwoDigitMonth(month);
    var m := if month < 10 then "0" + NatToDecimal(month) else NatToDecimal(month);
    assert s[..4] == NatToDecimal(year);
    assert s[5..] == m;
    assert Shape(s);
  }

  /** Parsing normalises: the formatted form of a parsed month parses to the same month. */
  lemma ParseThenFormat(s: string, currentYear: int)
    requires ParseYearMonth(Some(s), currentYear).Success?
    requires ParseYearMonth(Some(s), currentYear).value.Month?
    ensures var t := ParseYearMonth(Some(s), currentYear).value;
            ParseYearMonth(Some(FormatYearMonth(t.year, t.month)), currentYear) == Success(t)
  {
    var t := ParseYearMonth(Some(s), currentYear).value;
    FormatThenParse(t.year, t.month, currentYear);
  }

  /** The value of the year text used below. */
  lemma Year2025()
    ensures DigitsValue("2025") == 2025
  {
    assert "2025"[..3] == "202" && "202"[..2] == "20" && "20"[..1] == "2" && "2"[..0] == "";
  }

  /** The pattern's `$` lets one final newline through. */
  lemma TrailingNewlineAccepted()
    ensures ParseYearMonth(Some("2025-09\n"), 2025) == Success(Month(2025, 9))
  {
    assert !Shape("2025-09\n");
    assert Body("2025-09\n") == "2025-09";
    assert "2025-09"[..4] == "2025" && "2025-09"[5..] == "09";
    Year2025();
    assert DigitsValue("09") == 9 by {
      assert "09"[..1] == "0" && "0"[..0] == "";
    }
  }

  /** `\d{1,2}` accepts a one-digit month. */
  lemma OneDigitMonthAccepted()
    ensures ParseYearMonth(Some("2025-9"), 2025) == Success(Month(2025, 9))
  {
    assert "2025-9"[..4] == "2025" && "2025-9"[5..] == "9";
    Year2025();
    assert DigitsValue("9") == 9 by {
      assert "9"[..0] == "";
    }
  }

  /** Only one final newline gets through. */
  lemma TwoNewlinesRejected()
    ensures ParseYearMonth(Some("2025-09\n\n"), 2025) == Failure(BadFormat("2025-09\n\n"))
  {
    assert !Shape("2025-09\n");
  }
}
