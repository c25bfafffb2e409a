/**
  Gregorian calendar arithmetic and the two date readers the store relies on:

  - Python's `datetime.strptime(s, '%Y-%m-%d')`, which decides whether a sale
    date typed into the sale form is accepted (`validate_date`);
  - SQLite's `strftime`, which turns a stored `sale_date` into the Day, Week,
    Month and Year buckets of the sales report.

  Week numbers follow the `%W` conversion of C `strftime` (section 7.27.3.5 of
  ISO C11), which SQLite implements as well: weeks start on Monday, and the days
  of a year before its first Monday are in week 00. This is not ISO 8601 week
  numbering.
*/
module Calendar {
  import opened Wrappers
  import opened Text

  datatype Date = Date(year: int, month: int, day: int)

  predicate IsLeapYear(y: int) {
    y % 4 == 0 && (y % 100 != 0 || y % 400 == 0)
  }

  function DaysInMonth(y: int, m: int): (n: int)
    requires 1 <= m <= 12
    ensures 28 <= n <= 31
    ensures m == 2 ==> (n == 29 <==> IsLeapYear(y))
  {
    if m == 2 then (if IsLeapYear(y) then 29 else 28)
    else if m == 4 || m == 6 || m == 9 || m == 11 then 30
    else 31
  }

  function DaysInYear(y: int): int {
    if IsLeapYear(y) then 366 else 365
  }

  /** A date that exists on the proleptic Gregorian calendar. */
  predicate IsRealDate(d: Date) {
    1 <= d.month <= 12 && 1 <= d.day <= DaysInMonth(d.year, d.month)
  }

  /** A date whose year fits the four digits both date readers require. */
  predicate InFourDigitRange(d: Date) {
    0 <= d.year <= 9999 && 1 <= d.month <= 12 && 1 <= d.day <= 31
  }

  predicate DateBefore(a: Date, b: Date) {
    || a.year < b.year
    || (a.year == b.year && a.month < b.month)
    || (a.year == b.year && a.month == b.month && a.day < b.day)
  }

  // ---------------------------------------------------------------------
  // Python: datetime.strptime(s, '%Y-%m-%d')
  // ---------------------------------------------------------------------

  /*
    `strptime` compiles '%Y-%m-%d' to the regular expression
        (\d\d\d\d)-(1[0-2]|0[1-9]|[1-9])-(3[01]|[12]\d|0[1-9]|[1-9]| [1-9])
    matches it at the start of the string and rejects any unconverted rest.
    Every string of that language splits in exactly one way, so "the match
    consumes the whole string" is the same as "the string is in the language",
    which is what the functions below decide. The `datetime` constructor then
    rejects year 0 and a day past the end of its month.
  */

  /** The value of a `%m` field: `1[0-2]`, `0[1-9]` or `[1-9]`. */
  function StrptimeMonth(t: string): (r: Option<int>)
    ensures r.Some? ==> 1 <= r.value <= 12
  {
    if |t| == 1 && '1' <= t[0] <= '9' then Some(DigitValue(t[0]))
    else if |t| == 2 && t[0] == '1' && '0' <= t[1] <= '2' then Some(10 + DigitValue(t[1]))
    else if |t| == 2 && t[0] == '0' && '1' <= t[1] <= '9' then Some(DigitValue(t[1]))
    else None
  }

  /** The value of a `%d` field: `3[01]`, `[12]\d`, `0[1-9]`, `[1-9]` or a space and `[1-9]`. */
  function StrptimeDay(t: string): (r: Option<int>)
    ensures r.Some? ==> 1 <= r.value <= 31
  {
    if |t| == 1 && '1' <= t[0] <= '9' then Some(DigitValue(t[0]))
    else if |t| == 2 && t[0] == '3' && '0' <= t[1] <= '1' then Some(30 + DigitValue(t[1]))
    else if |t| == 2 && '1' <= t[0] <= '2' && IsDigit(t[1]) then Some(10 * DigitValue(t[0]) + DigitValue(t[1]))
    else if |t| == 2 && (t[0] == '0' || t[0] == ' ') && '1' <= t[1] <= '9' then Some(DigitValue(t[1]))
    else None
  }

  /** The fields `strptime` reads from `s`, before the calendar check. */
  function StrptimeFields(s: string): (r: Option<Date>)
    ensures r.Some? ==> InFourDigitRange(r.value)
  {
    if |s| < 5 || !AllDigits(s[..4]) || s[4] != '-' then None
    else
      var rest := s[5..];
      var monthWidth := if |rest| >= 2 && rest[1] == '-' then 1 else 2;
      if |rest| <= monthWidth || rest[monthWidth] != '-' then None
      else
        match (StrptimeMonth(rest[..monthWidth]), StrptimeDay(rest[monthWidth + 1..]))
        case (Some(m), Some(d)) => Some(Date(Value(s[..4]), m, d))
        case _ => None
  }

  /** `validate_date`: whether `strptime(s, '%Y-%m-%d')` succeeds. */
  predicate ValidateDate(s: string) {
    match StrptimeFields(s)
    case Some(d) => d.year >= 1 && IsRealDate(d)
    case None => false
  }

  /** `strptime` reads `<year>-<month>-<day>` field by field when the month field is one or two characters. */
  lemma FieldsOf(y: string, m: string, d: string)
    requires |y| == 4 && AllDigits(y)
    requires |m| == 1 || (|m| == 2 && m[1] != '-')
    ensures StrptimeFields(y + "-" + m + "-" + d) ==
      match (StrptimeMonth(m), StrptimeDay(d))
      case (Some(mv), Some(dv)) => Some(Date(Value(y), mv, dv))
      case _ => None
  {
    var s := y + "-" + m + "-" + d;
    assert s[..4] == y && s[4] == '-';
    var rest := s[5..];
    assert rest == m + "-" + d;
    assert rest[..|m|] == m && rest[|m|] == '-' && rest[|m| + 1..] == d;
  }

  // ---------------------------------------------------------------------
  // Canonical spellings and SQLite's reading of them
  // ---------------------------------------------------------------------

  function YearKey(d: Date): (s: string)
    requires InFourDigitRange(d)
    ensures |s| == 4
  {
    Pad(d.year, 4)
  }

  function MonthKey(d: Date): (s: string)
    requires InFourDigitRange(d)
    ensures |s| == 7
  {
    YearKey(d) + "-" + Pad(d.month, 2)
  }

  /** `YYYY-MM-DD`, what `strftime('%Y-%m-%d', d)` prints. */
  function DayKey(d: Date): (s: string)
    requires InFourDigitRange(d)
    ensures |s| == 10
  {
    MonthKey(d) + "-" + Pad(d.day, 2)
  }

  /**
    The date SQLite reads from a TEXT value of the exact form `YYYY-MM-DD`
    naming a real day; every other value reads as NULL here.
  */
  function SqliteDate(s: string): (r: Option<Date>)
    ensures r.Some? ==> IsRealDate(r.value) && InFourDigitRange(r.value)
  {
    if |s| == 10 && AllDigits(s[..4]) && s[4] == '-' && AllDigits(s[5..7]) && s[7] == '-' && AllDigits(s[8..])
    then
      var d := Date(Value(s[..4]), Value(s[5..7]), Value(s[8..]));
      if 1 <= d.month <= 12 && 1 <= d.day <= DaysInMonth(d.year, d.month) then Some(d) else None
    else None
  }

  lemma {:induction false} PadOfValue(t: string)
    requires AllDigits(t)
    ensures Pad(Value(t), |t|) == t
  {
    if |t| > 0 {
      var p := Pow10(|t| - 1);
      var v := Value(t);
      var r := Value(t[1..]);
      DivModUnique(v, p, DigitValue(t[0]), r);
      assert v / p == DigitValue(t[0]) && v % p == r;
      PadOfValue(t[1..]);
      assert Pad(v, |t|) == [DigitChar(DigitValue(t[0]))] + Pad(r, |t| - 1);
      assert t == [t[0]] + t[1..];
    }
  }

  lemma PadInjective(a: nat, b: nat, w: nat)
    requires a < Pow10(w) && b < Pow10(w)
    ensures Pad(a, w) == Pad(b, w) <==> a == b
  {
  }

  /** SQLite reads back exactly the date a canonical key names. */
  lemma {:induction false} SqliteDateOfDayKey(d: Date)
    requires IsRealDate(d) && InFourDigitRange(d)
    ensures SqliteDate(DayKey(d)) == Some(d)
  {
    var s := DayKey(d);
    assert s[..4] == Pad(d.year, 4);
    assert s[5..7] == Pad(d.month, 2);
    assert s[8..] == Pad(d.day, 2);
  }

  /** Every value SQLite reads as a date is that date's canonical key. */
  lemma {:induction false} DayKeyOfSqliteDate(s: string)
    requires SqliteDate(s).Some?
    ensures DayKey(SqliteDate(s).value) == s
  {
    PadOfValue(s[..4]);
    PadOfValue(s[5..7]);
    PadOfValue(s[8..]);
    assert s == s[..4] + "-" + s[5..7] + "-" + s[8..];
  }

  /**
    `validate_date` accepts a canonical `YYYY-MM-DD` string exactly when it
    names a real date in year 1 or later.
  */
  lemma {:induction false} ValidateDayKey(d: Date)
    requires InFourDigitRange(d)
    ensures ValidateDate(DayKey(d)) <==> d.year >= 1 && IsRealDate(d)
  {
    var y4, m2, d2 := Pad(d.year, 4), Pad(d.month, 2), Pad(d.day, 2);
    assert DayKey(d) == y4 + "-" + m2 + "-" + d2;
    MonthField(d.month);
    DayField(d.day);
    FieldsOf(y4, m2, d2);
  }

  /** A two-digit month written by `%m` reads back under `strptime`. */
  lemma MonthField(m: nat)
    requires 1 <= m <= 12
    ensures StrptimeMonth(Pad(m, 2)) == Some(m)
  {
    PadTwo(m);
  }

  /** A two-digit day written by `%d` reads back under `strptime`. */
  lemma DayField(d: nat)
    requires 1 <= d <= 31
    ensures StrptimeDay(Pad(d, 2)) == Some(d)
  {
    PadTwo(d);
    var t := Pad(d, 2);
    assert DigitValue(t[0]) == d / 10 && DigitValue(t[1]) == d % 10;
    if d < 10 {
      assert t[0] == '0';
    } else if d < 30 {
      assert '1' <= t[0] <= '2';
    } else {
      assert t[0] == '3';
    }
  }

  /** Two-digit padding writes the tens digit, then the units digit. */
  lemma PadTwo(n: nat)
    requires n < 100
    ensures Pad(n, 2) == [DigitChar(n / 10), DigitChar(n % 10)]
  {
    assert Pad(n % 10, 1) == [DigitChar(n % 10)];
  }

  /** February 29 is accepted exactly in leap years. */
  lemma LeapDayAccepted(y: int)
    requires 1 <= y <= 9999
    ensures ValidateDate(DayKey(Date(y, 2, 29))) <==> IsLeapYear(y)
  {
    ValidateDayKey(Date(y, 2, 29));
  }

  /** The spellings `strptime` reads as the month `m`: two digits, or one digit below 10. */
  predicate MonthSpelling(t: string, m: nat)
    requires 1 <= m <= 12
  {
    t == Pad(m, 2) || (m < 10 && t == [DigitChar(m)])
  }

  /** The spellings `strptime` reads as the day `d`: two digits, or below 10 one digit alone or after a space. */
  predicate DaySpelling(t: string, d: nat)
    requires 1 <= d <= 31
  {
    t == Pad(d, 2) || (d < 10 && (t == [DigitChar(d)] || t == [' ', DigitChar(d)]))
  }

  lemma MonthSpellingReads(t: string, m: nat)
    requires 1 <= m <= 12 && MonthSpelling(t, m)
    ensures StrptimeMonth(t) == Some(m)
    ensures |t| == 1 || (|t| == 2 && t[1] != '-')
  {
    if t == Pad(m, 2) {
      MonthField(m);
      PadTwo(m);
    }
  }

  lemma DaySpellingReads(t: string, d: nat)
    requires 1 <= d <= 31 && DaySpelling(t, d)
    ensures StrptimeDay(t) == Some(d)
  {
    if t == Pad(d, 2) {
      DayField(d);
    }
  }

  /**
    `strptime` also accepts one-digit months and days and a space before a
    one-digit day: whichever of these spellings a date is written in, it is
    accepted exactly when the canonical spelling is.
  */
  lemma ShortFieldsAccepted(d: Date, m: string, dd: string)
    requires InFourDigitRange(d)
    requires MonthSpelling(m, d.month) && DaySpelling(dd, d.day)
    ensures ValidateDate(YearKey(d) + "-" + m + "-" + dd) <==> d.year >= 1 && IsRealDate(d)
  {
    MonthSpellingReads(m, d.month);
    DaySpellingReads(dd, d.day);
    FieldsOf(YearKey(d), m, dd);
  }

  /** Year 0 is out of `datetime`'s range, whatever the month and day fields say. */
  lemma YearZeroRejected(rest: string)
    ensures !ValidateDate("0000" + rest)
  {
    var s := "0000" + rest;
    assert s[..4] == "0000";
    Year0000();
  }

  lemma Year0000()
    ensures AllDigits("0000") && Value("0000") == 0
  {
    ValueCons('0', "");
    assert "0" == ['0'] + "";
    ValueCons('0', "0");
    assert "00" == ['0'] + "0";
    ValueCons('0', "00");
    assert "000" == ['0'] + "00";
    ValueCons('0', "000");
    assert "0000" == ['0'] + "000";
  }

  /** Nothing may follow the day: any text after a `YYYY-MM-DD` date is rejected. */
  lemma TrailingTextRejected(d: Date, t: string)
    requires InFourDigitRange(d) && |t| > 0
    ensures !ValidateDate(DayKey(d) + t)
  {
    var y4, m2, d2 := Pad(d.year, 4), Pad(d.month, 2), Pad(d.day, 2);
    assert DayKey(d) + t == y4 + "-" + m2 + "-" + (d2 + t);
    PadTwo(d.month);
    FieldsOf(y4, m2, d2 + t);
  }

  /** Year 0 and trailing text are rejected for every input. */
  lemma OutOfRangeRejected(rest: string, d: Date, t: string)
    requires InFourDigitRange(d) && |t| > 0
    ensures !ValidateDate("0000" + rest)
    ensures !ValidateDate(DayKey(d) + t)
  {
    YearZeroRejected(rest);
    TrailingTextRejected(d, t);
  }

  // ---------------------------------------------------------------------
  // Key order is chronological
  // ---------------------------------------------------------------------

  /** Comparing `h1 + t1` with `h2 + t2` for heads of equal length. */
  lemma HeadThenTail(h1: string, t1: string, h2: string, t2: string)
    requires |h1| == |h2|
    ensures LexLess(h1 + t1, h2 + t2) <==> LexLess(h1, h2) || (h1 == h2 && LexLess(t1, t2))
  {
    if h1 == h2 {
      LexLessCommonHead(h1, t1, t2);
      LexLessIrreflexive(h1);
    } else {
      LexLessDifferentHeads(h1, h2, t1, t2);
    }
  }

  lemma PadOrder(a: nat, b: nat, w: nat)
    requires a < Pow10(w) && b < Pow10(w)
    ensures LexLess(Pad(a, w), Pad(b, w)) <==> a < b
    ensures Pad(a, w) == Pad(b, w) <==> a == b
  {
    LexLessDigitsIsNumeric(Pad(a, w), Pad(b, w));
  }

  lemma SplitEquals(h1: string, t1: string, h2: string, t2: string)
    requires |h1| == |h2|
    ensures h1 + t1 == h2 + t2 <==> h1 == h2 && t1 == t2
  {
    if h1 + t1 == h2 + t2 {
      assert (h1 + t1)[..|h1|] == h1 && (h2 + t2)[..|h2|] == h2;
      assert (h1 + t1)[|h1|..] == t1 && (h2 + t2)[|h2|..] == t2;
    }
  }

  /** Keys `YYYY-NN` (Month and Week buckets) sort by year, then by the two-digit field. */
  lemma {:induction false} PairKeyOrder(y1: nat, n1: nat, y2: nat, n2: nat)
    requires y1 < 10000 && y2 < 10000 && n1 < 100 && n2 < 100
    ensures LexLess(Pad(y1, 4) + "-" + Pad(n1, 2), Pad(y2, 4) + "-" + Pad(n2, 2)) <==>
      y1 < y2 || (y1 == y2 && n1 < n2)
    ensures Pad(y1, 4) + "-" + Pad(n1, 2) == Pad(y2, 4) + "-" + Pad(n2, 2) <==> y1 == y2 && n1 == n2
  {
    PadOrder(y1, y2, 4);
    PadOrder(n1, n2, 2);
    HeadThenTail(Pad(y1, 4), "-", Pad(y2, 4), "-");
    LexLessIrreflexive("-");
    HeadThenTail(Pad(y1, 4) + "-", Pad(n1, 2), Pad(y2, 4) + "-", Pad(n2, 2));
    SplitEquals(Pad(y1, 4), "-", Pad(y2, 4), "-");
    SplitEquals(Pad(y1, 4) + "-", Pad(n1, 2), Pad(y2, 4) + "-", Pad(n2, 2));
  }

  lemma {:induction false} YearKeyOrder(a: Date, b: Date)
    requires InFourDigitRange(a) && InFourDigitRange(b)
    ensures LexLess(YearKey(a), YearKey(b)) <==> a.year < b.year
    ensures YearKey(a) == YearKey(b) <==> a.year == b.year
  {
    PadOrder(a.year, b.year, 4);
  }

  lemma {:induction false} MonthKeyOrder(a: Date, b: Date)
    requires InFourDigitRange(a) && InFourDigitRange(b)
    ensures LexLess(MonthKey(a), MonthKey(b)) <==>
      a.year < b.year || (a.year == b.year && a.month < b.month)
    ensures MonthKey(a) == MonthKey(b) <==> a.year == b.year && a.month == b.month
  {
    PairKeyOrder(a.year, a.month, b.year, b.month);
  }

  /** Day keys sort chronologically. */
  lemma {:induction false} DayKeyOrder(a: Date, b: Date)
    requires InFourDigitRange(a) && InFourDigitRange(b)
    ensures LexLess(DayKey(a), DayKey(b)) <==> DateBefore(a, b)
    ensures DayKey(a) == DayKey(b) <==> a == b
  {
    MonthKeyOrder(a, b);
    PadOrder(a.day, b.day, 2);
    HeadThenTail(MonthKey(a), "-", MonthKey(b), "-");
    LexLessIrreflexive("-");
    HeadThenTail(MonthKey(a) + "-", Pad(a.day, 2), MonthKey(b) + "-", Pad(b.day, 2));
    SplitEquals(MonthKey(a), "-", MonthKey(b), "-");
    SplitEquals(MonthKey(a) + "-", Pad(a.day, 2), MonthKey(b) + "-", Pad(b.day, 2));
  }

  // ---------------------------------------------------------------------
  // Day of year, weekday and %W
  // ---------------------------------------------------------------------

  /** Days of year `y` before the first of month `m`. */
  function DaysBeforeMonth(y: int, m: int): (n: int)
    requires 1 <= m <= 12
    ensures 0 <= n <= 335
  {
    [0, 31, 59, 90, 120, 151, 181, 212, 243, 273, 304, 334][m - 1]
      + (if m > 2 && IsLeapYear(y) then 1 else 0)
  }

  /** The table above is the running sum of month lengths. */
  lemma DaysBeforeMonthAccumulates(y: int, m: int)
    requires 1 <= m <= 12
    ensures m == 1 ==> DaysBeforeMonth(y, m) == 0
    ensures m < 12 ==> DaysBeforeMonth(y, m + 1) == DaysBeforeMonth(y, m) + DaysInMonth(y, m)
    ensures m == 12 ==> DaysBeforeMonth(y, m) + DaysInMonth(y, m) == DaysInYear(y)
  {
  }

  /** 1 for January 1st (`tm_yday + 1`). */
  function DayOfYear(d: Date): (n: int)
    requires IsRealDate(d)
    ensures 1 <= n <= DaysInYear(d.year)
  {
    DaysBeforeMonthAccumulates(d.year, d.month);
    DaysBeforeMonth(d.year, d.month) + d.day
  }

  /** Days of the proleptic Gregorian calendar before January 1st of year `y`. */
  function DaysBeforeYear(y: int): int {
    365 * (y - 1) + (y - 1) / 4 - (y - 1) / 100 + (y - 1) / 400
  }

  lemma DaysBeforeNextYear(y: int)
    ensures DaysBeforeYear(y + 1) == DaysBeforeYear(y) + DaysInYear(y)
  {
    var x := y - 1;
    DivStep(x, 4);
    DivStep(x, 100);
    DivStep(x, 400);
  }

  /** `(x + 1) / k` exceeds `x / k` by one exactly when `k` divides `x + 1`. */
  lemma DivStep(x: int, k: int)
    requires k > 0
    ensures (x + 1) / k == x / k + (if (x + 1) % k == 0 then 1 else 0)
  {
    var q, r := x / k, x % k;
    if r == k - 1 {
      DivModUnique(x + 1, k, q + 1, 0);
    } else {
      DivModUnique(x + 1, k, q, r + 1);
    }
  }

  /** The weekday, Monday = 0 … Sunday = 6, of day `j` (0-based) of year `y`; 0001-01-01 was a Monday. */
  function YearDayWeekday(y: int, j: int): (w: int)
    ensures 0 <= w < 7
  {
    (DaysBeforeYear(y) + j) % 7
  }

  function Weekday(d: Date): (w: int)
    requires IsRealDate(d)
    ensures 0 <= w < 7
  {
    YearDayWeekday(d.year, DayOfYear(d) - 1)
  }

  /** `strftime('%W', d)`: `(yday + 7 - weekday) / 7` with a 0-based `yday`. */
  function WeekOfYear(d: Date): (w: int)
    requires IsRealDate(d)
    ensures 0 <= w <= 53
  {
    (DayOfYear(d) - 1 + 7 - Weekday(d)) / 7
  }

  /** The number of Mondays among days 0..j (0-based) of year `y`. */
  function MondaysThrough(y: int, j: int): (n: nat)
    decreases j
  {
    if j < 0 then 0
    else MondaysThrough(y, j - 1) + (if YearDayWeekday(y, j) == 0 then 1 else 0)
  }

  lemma {:induction false} MondayCountFormula(y: int, j: nat)
    ensures (j + 7 - YearDayWeekday(y, j)) / 7 == MondaysThrough(y, j)
  {
    var n := DaysBeforeYear(y) + j;
    if j > 0 {
      MondayCountFormula(y, j - 1);
      var w := YearDayWeekday(y, j - 1);
      DivStep(n - 1, 7);
      if w == 6 {
        assert YearDayWeekday(y, j) == 0;
        DivModUnique(j + 7, 7, (j - 1 + 7 - w) / 7 + 1, (j - 1 + 7 - w) % 7);
      } else {
        assert YearDayWeekday(y, j) == w + 1;
      }
    }
  }

  /** The `%W` week number counts the Mondays from January 1st up to the date. */
  lemma WeekIsMondayCount(d: Date)
    requires IsRealDate(d)
    ensures WeekOfYear(d) == MondaysThrough(d.year, DayOfYear(d) - 1)
  {
    MondayCountFormula(d.year, DayOfYear(d) - 1);
  }

  lemma {:induction false} NoMondayIffZero(y: int, j: int)
    ensures MondaysThrough(y, j) == 0 <==> forall i :: 0 <= i <= j ==> YearDayWeekday(y, i) != 0
    decreases j
  {
    if j >= 0 {
      NoMondayIffZero(y, j - 1);
    }
  }

  /** Week 00 holds exactly the days before the year's first Monday. */
  lemma WeekZeroBeforeFirstMonday(d: Date)
    requires IsRealDate(d)
    ensures WeekOfYear(d) == 0 <==>
      forall i :: 0 <= i < DayOfYear(d) ==> YearDayWeekday(d.year, i) != 0
  {
    WeekIsMondayCount(d);
    NoMondayIffZero(d.year, DayOfYear(d) - 1);
  }

  /** 1 January 2024 was a Monday, so it opens week 01. */
  lemma FirstOf2024()
    ensures Weekday(Date(2024, 1, 1)) == 0 && WeekOfYear(Date(2024, 1, 1)) == 1
  {
  }

  /** 1 January 2023 was a Sunday, so it falls in week 00. */
  lemma FirstOf2023()
    ensures Weekday(Date(2023, 1, 1)) == 6 && WeekOfYear(Date(2023, 1, 1)) == 0
  {
  }

  /** 2 January 2023, the year's first Monday, opens week 01. */
  lemma SecondOf2023()
    ensures WeekOfYear(Date(2023, 1, 2)) == 1
  {
  }

  /** 1 January 2000 was a Saturday. */
  lemma FirstOf2000()
    ensures Weekday(Date(2000, 1, 1)) == 5
  {
  }

  /** 31 December 2000, a Sunday, closes week 52. */
  lemma LastOf2000()
    ensures WeekOfYear(Date(2000, 12, 31)) == 52
  {
  }

  /** A few dates checked against the calendar. */
  lemma KnownWeekdays()
    ensures Weekday(Date(2024, 1, 1)) == 0 && WeekOfYear(Date(2024, 1, 1)) == 1
    ensures Weekday(Date(2023, 1, 1)) == 6 && WeekOfYear(Date(2023, 1, 1)) == 0
    ensures WeekOfYear(Date(2023, 1, 2)) == 1
    ensures Weekday(Date(2000, 1, 1)) == 5 && WeekOfYear(Date(2000, 12, 31)) == 52
  {
    FirstOf2024();
    FirstOf2023();
    SecondOf2023();
    FirstOf2000();
    LastOf2000();
  }

  /** `strftime('%Y-%W', d)`. */
  function WeekKey(d: Date): (s: string)
    requires IsRealDate(d) && InFourDigitRange(d)
    ensures |s| == 7
  {
    YearKey(d) + "-" + Pad(WeekOfYear(d), 2)
  }

  /** Week keys sort by year, then by week number. */
  lemma {:induction false} WeekKeyOrder(a: Date, b: Date)
    requires IsRealDate(a) && InFourDigitRange(a) && IsRealDate(b) && InFourDigitRange(b)
    ensures LexLess(WeekKey(a), WeekKey(b)) <==>
      a.year < b.year || (a.year == b.year && WeekOfYear(a) < WeekOfYear(b))
  {
    var wa, wb := WeekOfYear(a), WeekOfYear(b);
    PairKeyOrder(a.year, wa, b.year, wb);
  }
}
