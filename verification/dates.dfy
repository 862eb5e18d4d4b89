/**
 The `--date-range` validator: `is_valid_date` (a `datetime.strptime` with
 format `%Y-%m-%d`) and `is_valid_date_range` (a regular-expression shape
 check, a split on the comma, two date checks and an order check).
 */
module Dates {
  import opened Wrappers
  import opened Text

  datatype Date = Date(year: nat, month: nat, day: nat)

  // ---------------------------------------------------------------------------
  // The proleptic Gregorian calendar as `datetime.date` accepts it
  // ---------------------------------------------------------------------------

  const MinYear: nat := 1
  const MaxYear: nat := 9999

  predicate IsLeapYear(y: int) {
    y % 4 == 0 && (y % 100 != 0 || y % 400 == 0)
  }

  function DaysInMonth(y: int, m: int): nat
    requires 1 <= m <= 12
  {
    if m == 2 then (if IsLeapYear(y) then 29 else 28)
    else if m == 4 || m == 6 || m == 9 || m == 11 then 30
    else 31
  }

  predicate IsCalendarDate(d: Date) {
    && MinYear <= d.year <= MaxYear
    && 1 <= d.month <= 12
    && 1 <= d.day <= DaysInMonth(d.year, d.month)
  }

  /** Comparison of `datetime` values at midnight: by year, then month, then day. */
  predicate DateLe(a: Date, b: Date) {
    a.year < b.year || (a.year == b.year && (a.month < b.month || (a.month == b.month && a.day <= b.day)))
  }

  // ---------------------------------------------------------------------------
  // strptime(s, '%Y-%m-%d')
  // ---------------------------------------------------------------------------

  /** `%m` is the pattern `1[0-2]|0[1-9]|[1-9]`. */
  predicate IsMonthToken(t: string) {
    || (|t| == 2 && t[0] == '1' && '0' <= t[1] <= '2')
    || (|t| == 2 && t[0] == '0' && '1' <= t[1] <= '9')
    || (|t| == 1 && '1' <= t[0] <= '9')
  }

  /** `%d` is the pattern `3[01]|[12]\d|0[1-9]|[1-9]| [1-9]`. */
  predicate IsDayToken(t: string) {
    || (|t| == 2 && t[0] == '3' && (t[1] == '0' || t[1] == '1'))
    || (|t| == 2 && (t[0] == '1' || t[0] == '2') && IsDigit(t[1]))
    || (|t| == 2 && t[0] == '0' && '1' <= t[1] <= '9')
    || (|t| == 2 && t[0] == ' ' && '1' <= t[1] <= '9')
    || (|t| == 1 && '1' <= t[0] <= '9')
  }

  function DayTokenValue(t: string): nat
    requires IsDayToken(t)
  {
    if t[0] == ' ' then DigitValue(t[1]) else DigitsValue(t)
  }

  /** The day directive is last, so it must take all of the remaining text. */
  function ParseDay(y: nat, m: nat, rest: string): Option<Date> {
    if IsDayToken(rest) then Some(Date(y, m, DayTokenValue(rest))) else None
  }

  /**
   The fields strptime's pattern match extracts, or None when the pattern
   does not match the whole string. `%m` prefers its two-character
   alternatives and falls back to one character only when the next
   character is the literal `-`.
   */
  function ParseDate(s: string): Option<Date> {
    if |s| < 5 || !AllDigits(s[..4]) || s[4] != '-' then None
    else
      var y := DigitsValue(s[..4]);
      var rest := s[5..];
      if |rest| >= 3 && rest[2] == '-' && IsMonthToken(rest[..2]) then
        ParseDay(y, DigitsValue(rest[..2]), rest[3..])
      else if |rest| >= 2 && rest[1] == '-' && IsMonthToken(rest[..1]) then
        ParseDay(y, DigitsValue(rest[..1]), rest[2..])
      else None
  }

  /** `is_valid_date`: strptime neither fails to match nor builds an impossible date. */
  predicate IsValidDate(s: string) {
    ParseDate(s).Some? && IsCalendarDate(ParseDate(s).value)
  }

  // ---------------------------------------------------------------------------
  // is_valid_date_range
  // ---------------------------------------------------------------------------

  /** The text `\d{4}-\d{2}-\d{2}` (ASCII digits). */
  predicate IsFixedDate(t: string) {
    |t| == 10 && forall i :: 0 <= i < 10 ==> if i == 4 || i == 7 then t[i] == '-' else IsDigit(t[i])
  }

  /** Exactly `\d{4}-\d{2}-\d{2},\d{4}-\d{2}-\d{2}`. */
  predicate IsRangeShape(s: string) {
    |s| == 21 && IsFixedDate(s[..10]) && s[10] == ',' && IsFixedDate(s[11..])
  }

  /** `re.match` with the anchors `^...$`: `$` also matches before one final newline. */
  predicate MatchesRangePattern(s: string) {
    IsRangeShape(s) || (|s| == 22 && s[21] == '\n' && IsRangeShape(s[..21]))
  }

  /** `is_valid_date_range`. */
  predicate IsValidDateRange(s: string) {
    if !MatchesRangePattern(s) then false
    else
      var parts := Split(s, ',');
      // The pattern admits exactly one comma, so the two-way unpacking never fails.
      if |parts| != 2 then false
      else if !(IsValidDate(parts[0]) && IsValidDate(parts[1])) then false
      else DateLe(ParseDate(parts[0]).value, ParseDate(parts[1]).value)
  }

  // ---------------------------------------------------------------------------
  // Properties
  // ---------------------------------------------------------------------------

  /** The numeric fields of a fixed-width date text. */
  function Fields(t: string): (d: Date)
    requires IsFixedDate(t)
    ensures d.month <= 99 && d.day <= 99
  {
    assert AllDigits(t[..4]) && AllDigits(t[5..7]) && AllDigits(t[8..]);
    TwoDigits(t[5..7]);
    TwoDigits(t[8..]);
    Date(DigitsValue(t[..4]), DigitsValue(t[5..7]), DigitsValue(t[8..]))
  }

  lemma TwoDigits(t: string)
    requires |t| == 2 && AllDigits(t)
    ensures DigitsValue(t) == 10 * DigitValue(t[0]) + DigitValue(t[1])
    ensures DigitsValue(t) <= 99
  {
    var h := t[..1];
    assert h[..0] == [] && h[0] == t[0];
    assert DigitsValue(h) == DigitValue(t[0]);
    assert t[..|t| - 1] == h;
  }

  lemma MonthTokenOfTwoDigits(t: string)
    requires |t| == 2 && AllDigits(t)
    ensures IsMonthToken(t) <==> 1 <= DigitsValue(t) <= 12
  {
    TwoDigits(t);
  }

  lemma DayTokenOfTwoDigits(t: string)
    requires |t| == 2 && AllDigits(t)
    ensures IsDayToken(t) <==> 1 <= DigitsValue(t) <= 31
    ensures IsDayToken(t) ==> DayTokenValue(t) == DigitsValue(t)
  {
    TwoDigits(t);
  }

  /**
   On a fixed-width text strptime accepts exactly the real calendar dates,
   and the date it builds is the one the digits spell.
   */
  lemma FixedDateValid(t: string)
    requires IsFixedDate(t)
    ensures IsValidDate(t) <==> IsCalendarDate(Fields(t))
    ensures IsValidDate(t) ==> ParseDate(t) == Some(Fields(t))
  {
    var rest := t[5..];
    assert AllDigits(t[..4]);
    assert rest[..2] == t[5..7] && rest[3..] == t[8..];
    assert AllDigits(t[5..7]) && AllDigits(t[8..]);
    MonthTokenOfTwoDigits(t[5..7]);
    DayTokenOfTwoDigits(t[8..]);
    assert rest[1] == t[6];
  }

  /** Comparing texts `x + sep + c` and `y + sep + d` with equal-width heads decides on the heads first. */
  lemma LexLeAfterField(x: string, c: string, y: string, d: string, sep: char)
    requires |x| == |y|
    ensures LexLe(x + [sep] + c, y + [sep] + d) <==> LexLt(x, y) || (x == y && LexLe(c, d))
  {
    assert x + [sep] + c == x + ([sep] + c);
    assert y + [sep] + d == y + ([sep] + d);
    LexLeAppend(x, [sep] + c, y, [sep] + d);
    assert ([sep] + c)[1..] == c && ([sep] + d)[1..] == d;
  }

  /** On fixed-width date texts the `str` order compares the year digits, then the month digits, then the day digits. */
  lemma FixedDateTextOrder(a: string, b: string)
    requires IsFixedDate(a) && IsFixedDate(b)
    ensures LexLe(a, b) <==>
      || LexLt(a[..4], b[..4])
      || (a[..4] == b[..4] && (LexLt(a[5..7], b[5..7]) || (a[5..7] == b[5..7] && LexLe(a[8..], b[8..]))))
  {
    assert a == a[..4] + ['-'] + a[5..] && b == b[..4] + ['-'] + b[5..];
    LexLeAfterField(a[..4], a[5..], b[..4], b[5..], '-');
    assert a[5..] == a[5..7] + ['-'] + a[8..] && b[5..] == b[5..7] + ['-'] + b[8..];
    LexLeAfterField(a[5..7], a[8..], b[5..7], b[8..], '-');
  }

  /** On fixed-width date texts, Python's `str` order is the calendar order. */
  lemma FixedDateOrder(a: string, b: string)
    requires IsFixedDate(a) && IsFixedDate(b)
    ensures LexLe(a, b) <==> DateLe(Fields(a), Fields(b))
  {
    assert AllDigits(a[..4]) && AllDigits(a[5..7]) && AllDigits(a[8..]);
    assert AllDigits(b[..4]) && AllDigits(b[5..7]) && AllDigits(b[8..]);
    DigitOrder(a[..4], b[..4]);
    DigitOrder(a[5..7], b[5..7]);
    DigitOrder(a[8..], b[8..]);
    FixedDateTextOrder(a, b);
  }

  /** A well-shaped range splits on its single comma into its two date texts. */
  lemma SplitRange(s: string)
    requires MatchesRangePattern(s)
    ensures Split(s, ',') == [s[..10], s[11..]]
  {
    if IsRangeShape(s) {
      assert ',' !in s[..10];
      assert ',' !in s[11..];
    } else {
      var c := s[..21];
      assert s[..10] == c[..10];
      assert ',' !in s[..10];
      assert s[11..] == c[11..] + [s[21]];
      assert ',' !in s[11..];
    }
    assert s == s[..10] + [','] + s[11..];
    SplitJoin([s[..10], s[11..]], ',');
  }

  /**
   `is_valid_date_range` holds exactly for the text `YYYY-MM-DD,YYYY-MM-DD`
   whose halves are real calendar dates with the start not after the end;
   the order test is the plain string order of the two halves.
   */
  lemma {:induction false} ValidRangeCharacterization(s: string)
    ensures IsValidDateRange(s) <==>
      && IsRangeShape(s)
      && IsCalendarDate(Fields(s[..10]))
      && IsCalendarDate(Fields(s[11..]))
      && LexLe(s[..10], s[11..])
  {
    if IsRangeShape(s) {
      SplitRange(s);
      FixedDateValid(s[..10]);
      FixedDateValid(s[11..]);
      FixedDateOrder(s[..10], s[11..]);
    } else if MatchesRangePattern(s) {
      TrailingNewlineRejected(s);
    }
  }

  /** The one extra text the pattern lets through, a range plus a final newline, fails the date check. */
  lemma TrailingNewlineRejected(s: string)
    requires |s| == 22 && s[21] == '\n' && IsRangeShape(s[..21])
    ensures MatchesRangePattern(s)
    ensures !IsValidDateRange(s)
  {
    assert IsFixedDate(s[..10]) by { assert s[..10] == s[..21][..10]; }
    SplitRange(s);
    var e := s[11..];
    assert e[..4] == s[..21][11..][..4];
    assert e[5..][3..] == e[8..];
    assert !IsDayToken(e[8..]);
    assert !IsValidDate(e);
  }

  /** A reversed range is refused. */
  lemma ReversedRangeRejected(s: string)
    requires IsRangeShape(s) && s[..10] != s[11..] && LexLe(s[11..], s[..10])
    ensures !IsValidDateRange(s)
  {
    ValidRangeCharacterization(s);
    if LexLe(s[..10], s[11..]) {
      LexLeAntisym(s[..10], s[11..]);
    }
  }
}
