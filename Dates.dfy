/** Proleptic Gregorian civil dates and the "2006-01-02" layout the loyalty
    module uses for rollup dates: Go's `time.Format` and `time.Parse` with
    that layout, and `AddDate(0, 0, 1)`. */
module Dates {
  import opened Base
  import opened Strings

  datatype Date = Date(year: nat, month: int, day: int)

  predicate IsLeap(year: nat)
  {
    year % 4 == 0 && (year % 100 != 0 || year % 400 == 0)
  }

  /** Number of days in a month of a given year (Go's daysIn). */
  function DaysIn(year: nat, month: int): (n: int)
    requires 1 <= month <= 12
    ensures 28 <= n <= 31
  {
    if month == 2 then (if IsLeap(year) then 29 else 28)
    else if month == 4 || month == 6 || month == 9 || month == 11 then 30
    else 31
  }

  predicate ValidDate(d: Date)
  {
    1 <= d.month <= 12 && 1 <= d.day <= DaysIn(d.year, d.month)
  }

  /** A calendar date as produced by converting a block time to a local time zone. */
  type LocalDate = d: Date | ValidDate(d) witness Date(1970, 1, 1)

  // ----- day numbering, the reference the successor is checked against -----

  function YearLength(year: nat): int
  {
    if IsLeap(year) then 366 else 365
  }

  /** Days from 0000-01-01 to the first day of `year`. */
  function DaysBeforeYear(year: nat): nat
  {
    if year == 0 then 0 else DaysBeforeYear(year - 1) + YearLength(year - 1)
  }

  /** Days from the first of January to the first day of `month`. */
  function DaysBeforeMonth(year: nat, month: int): nat
    requires 1 <= month <= 12
  {
    if month == 1 then 0 else DaysBeforeMonth(year, month - 1) + DaysIn(year, month - 1)
  }

  /** The number of days between 0000-01-01 and `d`. */
  function Ordinal(d: Date): nat
    requires ValidDate(d)
  {
    DaysBeforeYear(d.year) + DaysBeforeMonth(d.year, d.month) + d.day - 1
  }

  lemma DecemberStart(year: nat)
    ensures DaysBeforeMonth(year, 12) + 31 == YearLength(year)
  {
    var feb := DaysIn(year, 2);
    assert DaysBeforeMonth(year, 2) == 31;
    assert DaysBeforeMonth(year, 3) == 31 + feb;
    assert DaysBeforeMonth(year, 4) == 62 + feb;
    assert DaysBeforeMonth(year, 5) == 92 + feb;
    assert DaysBeforeMonth(year, 6) == 123 + feb;
    assert DaysBeforeMonth(year, 7) == 153 + feb;
    assert DaysBeforeMonth(year, 8) == 184 + feb;
    assert DaysBeforeMonth(year, 9) == 215 + feb;
    assert DaysBeforeMonth(year, 10) == 245 + feb;
    assert DaysBeforeMonth(year, 11) == 276 + feb;
    assert DaysBeforeMonth(year, 12) == 306 + feb;
  }

  /** The next calendar day (Go's `t.AddDate(0, 0, 1)` on a date). */
  function NextDay(d: Date): (r: Date)
    requires ValidDate(d)
    ensures ValidDate(r)
    ensures Ordinal(r) == Ordinal(d) + 1
  {
    if d.day < DaysIn(d.year, d.month) then Date(d.year, d.month, d.day + 1)
    else if d.month < 12 then
      assert DaysBeforeMonth(d.year, d.month + 1) == DaysBeforeMonth(d.year, d.month) + DaysIn(d.year, d.month);
      Date(d.year, d.month + 1, 1)
    else
      DecemberStart(d.year);
      assert DaysBeforeYear(d.year + 1) == DaysBeforeYear(d.year) + YearLength(d.year);
      Date(d.year + 1, 1, 1)
  }

  /** Different valid dates have different day numbers, so NextDay is the one
      date whose number follows that of `d`. */
  lemma {:induction false} OrdinalInjective(a: Date, b: Date)
    requires ValidDate(a) && ValidDate(b)
    requires Ordinal(a) == Ordinal(b)
    ensures a == b
  {
    if a.year < b.year {
      OrdinalBelowNextYear(a);
      DaysBeforeYearMonotone(a.year + 1, b.year);
      assert false;
    } else if b.year < a.year {
      OrdinalBelowNextYear(b);
      DaysBeforeYearMonotone(b.year + 1, a.year);
      assert false;
    } else if a.month < b.month {
      DaysBeforeMonthMonotone(a.year, a.month + 1, b.month);
      assert false;
    } else if b.month < a.month {
      DaysBeforeMonthMonotone(a.year, b.month + 1, a.month);
      assert false;
    }
  }

  lemma {:induction false} DaysBeforeYearMonotone(x: nat, y: nat)
    requires x <= y
    ensures DaysBeforeYear(x) <= DaysBeforeYear(y)
    decreases y - x
  {
    if x < y {
      DaysBeforeYearMonotone(x, y - 1);
    }
  }

  lemma {:induction false} DaysBeforeMonthMonotone(year: nat, x: int, y: int)
    requires 1 <= x <= y <= 12
    ensures DaysBeforeMonth(year, x) <= DaysBeforeMonth(year, y)
    ensures x > 1 ==> DaysBeforeMonth(year, x - 1) + DaysIn(year, x - 1) <= DaysBeforeMonth(year, y)
    decreases y - x
  {
    if x < y {
      DaysBeforeMonthMonotone(year, x, y - 1);
    }
  }

  lemma OrdinalBelowNextYear(d: Date)
    requires ValidDate(d)
    ensures Ordinal(d) < DaysBeforeYear(d.year + 1)
  {
    DecemberStart(d.year);
    DaysBeforeMonthMonotone(d.year, d.month, 12);
  }

  // ----- the "2006-01-02" layout -----

  /** `time.Format("2006-01-02")`: the year padded to four digits (wider years
      are written in full), then the zero-padded month and day. */
  function FormatDate(d: Date): (s: string)
    requires ValidDate(d)
    ensures |s| >= 10
  {
    PadDecimal(d.year, 4) + "-" + PadDecimal(d.month, 2) + "-" + PadDecimal(d.day, 2)
  }

  /** The digit fields of a string laid out as `y-mm-dd`, counted from its
      end. */
  predicate DateLayout(s: string)
  {
    |s| >= 10 && AllDigits(s[..|s| - 6]) && AllDigits(s[|s| - 5..|s| - 3]) && AllDigits(s[|s| - 2..])
  }

  /** Reads a date laid out as FormatDate writes it, taking the day and the
      month from the end, whatever the year's width. */
  function ReadFormattedDate(s: string): Date
    requires DateLayout(s)
  {
    Date(DigitsValue(s[..|s| - 6]), DigitsValue(s[|s| - 5..|s| - 3]), DigitsValue(s[|s| - 2..]))
  }

  /** The three fields of `y-mm-dd` sit at fixed distances from its end. */
  lemma LayoutSlices(y: string, m: string, dd: string)
    requires |m| == 2 && |dd| == 2
    ensures var s := y + "-" + m + "-" + dd;
      s[..|s| - 6] == y && s[|s| - 5..|s| - 3] == m && s[|s| - 2..] == dd
  {
    var s := y + "-" + m + "-" + dd;
    assert s == y + ("-" + m + "-" + dd);
  }

  /** The layout of the fields alone, apart from the calendar. */
  lemma {:induction false} FieldsReadBack(year: nat, month: nat, day: nat)
    requires month < 100 && day < 100
    ensures var s := PadDecimal(year, 4) + "-" + PadDecimal(month, 2) + "-" + PadDecimal(day, 2);
      DateLayout(s) && ReadFormattedDate(s) == Date(year, month, day)
  {
    var y := PadDecimal(year, 4);
    var m := PadDecimal(month, 2);
    var dd := PadDecimal(day, 2);
    PadDecimalLength(month, 2);
    PadDecimalLength(day, 2);
    LayoutSlices(y, m, dd);
    PadDecimalValue(year, 4);
    PadDecimalValue(month, 2);
    PadDecimalValue(day, 2);
  }

  /** A formatted date reads back as the date it came from. */
  lemma {:induction false} FormatDateFields(d: Date)
    requires ValidDate(d)
    ensures DateLayout(FormatDate(d)) && ReadFormattedDate(FormatDate(d)) == d
  {
    FieldsReadBack(d.year, d.month, d.day);
  }

  /** Different valid dates format differently. */
  lemma FormatDateInjective(a: Date, b: Date)
    requires ValidDate(a) && ValidDate(b)
    requires FormatDate(a) == FormatDate(b)
    ensures a == b
  {
    FormatDateFields(a);
    FormatDateFields(b);
  }

  /** `time.Parse("2006-01-02", s)`: exactly four year digits, a dash, two
      month digits, a dash and two day digits, nothing else, with the month
      in 1..12 and the day within that month. */
  function ParseDate(s: string): (r: Option<Date>)
    ensures r.Some? ==> ValidDate(r.value) && r.value.year <= 9999
  {
    if |s| == 10 && AllDigits(s[..4]) && s[4] == '-' && AllDigits(s[5..7]) && s[7] == '-'
       && AllDigits(s[8..])
    then
      DigitsValueBound(s[..4]);
      var d := Date(DigitsValue(s[..4]), DigitsValue(s[5..7]), DigitsValue(s[8..]));
      if ValidDate(d) then Some(d) else None
    else None
  }

  /** The fields alone, apart from the calendar: a four-digit year and two
      two-digit fields are found at the fixed positions ParseDate reads. */
  lemma {:induction false} FieldsParseBack(year: nat, month: nat, day: nat)
    requires year < 10000 && month < 100 && day < 100
    ensures var s := PadDecimal(year, 4) + "-" + PadDecimal(month, 2) + "-" + PadDecimal(day, 2);
      && |s| == 10 && s[4] == '-' && s[7] == '-'
      && AllDigits(s[..4]) && AllDigits(s[5..7]) && AllDigits(s[8..])
      && DigitsValue(s[..4]) == year && DigitsValue(s[5..7]) == month && DigitsValue(s[8..]) == day
  {
    var y := PadDecimal(year, 4);
    var m := PadDecimal(month, 2);
    var dd := PadDecimal(day, 2);
    PadDecimalLength(year, 4);
    PadDecimalLength(month, 2);
    PadDecimalLength(day, 2);
    PadDecimalValue(year, 4);
    PadDecimalValue(month, 2);
    PadDecimalValue(day, 2);
    var s := y + "-" + m + "-" + dd;
    assert s[..4] == y;
    assert s[5..7] == m;
    assert s[8..] == dd;
  }

  /** A formatted date with a four-digit year parses back to itself. */
  lemma ParseFormatDate(d: Date)
    requires ValidDate(d) && d.year <= 9999
    ensures ParseDate(FormatDate(d)) == Some(d)
  {
    FieldsParseBack(d.year, d.month, d.day);
  }

  /** Whatever ParseDate accepts is exactly the formatting of what it returns. */
  lemma FormatParseDate(s: string)
    requires ParseDate(s).Some?
    ensures FormatDate(ParseDate(s).value) == s
  {
    var d := ParseDate(s).value;
    PadDecimalOfDigits(s[..4]);
    PadDecimalOfDigits(s[5..7]);
    PadDecimalOfDigits(s[8..]);
    assert s == s[..4] + "-" + s[5..7] + "-" + s[8..];
  }
}
