/**
 * The period resolver of the billing export: Gregorian dates as Python's
 * `datetime.date` has them (years 1 to 9999), subtraction of a number of days,
 * and the previous calendar month of a given day with its `YYYYMM` key.
 */
module Calendar {
  import opened Wrappers

  const MIN_YEAR: int := 1
  const MAX_YEAR: int := 9999

  datatype Date = Date(year: int, month: int, day: int)

  /** The Gregorian leap-year rule. */
  predicate IsLeapYear(y: int) {
    y % 4 == 0 && (y % 100 != 0 || y % 400 == 0)
  }

  function DaysInMonth(y: int, m: int): (n: int)
    requires 1 <= m <= 12
    ensures 28 <= n <= 31
    ensures m == 2 ==> (n == 29 <==> IsLeapYear(y))
  {
    if m == 2 then (if IsLeapYear(y) then 29 else 28)
    else if m == 4 || m == 6 || m == 9 || m == 11 then 30
    else 31
  }

  /** A date that `datetime.date` accepts. */
  predicate Valid(d: Date) {
    MIN_YEAR <= d.year <= MAX_YEAR && 1 <= d.month <= 12 && 1 <= d.day <= DaysInMonth(d.year, d.month)
  }

  /** Calendar order of two dates. */
  predicate NotAfter(a: Date, b: Date) {
    a.year < b.year || (a.year == b.year && (a.month < b.month || (a.month == b.month && a.day <= b.day)))
  }

  /** The day after `d`, or None past the last representable date. */
  function NextDay(d: Date): (r: Option<Date>)
    requires Valid(d)
    ensures r.Some? ==> Valid(r.value) && NotAfter(d, r.value) && d != r.value
  {
    if d.day < DaysInMonth(d.year, d.month) then Some(Date(d.year, d.month, d.day + 1))
    else if d.month < 12 then Some(Date(d.year, d.month + 1, 1))
    else if d.year < MAX_YEAR then Some(Date(d.year + 1, 1, 1))
    else None
  }

  /** The day before `d`, or None before the first representable date. */
  function PrevDay(d: Date): (r: Option<Date>)
    requires Valid(d)
    ensures r.None? <==> d == Date(MIN_YEAR, 1, 1)
    ensures r.Some? ==> Valid(r.value)
  {
    if d.day > 1 then Some(Date(d.year, d.month, d.day - 1))
    else if d.month > 1 then Some(Date(d.year, d.month - 1, DaysInMonth(d.year, d.month - 1)))
    else if d.year > MIN_YEAR then Some(Date(d.year - 1, 12, 31))
    else None
  }

  /** `PrevDay` and `NextDay` undo each other. */
  lemma PrevNextInverse(d: Date)
    requires Valid(d)
    ensures PrevDay(d).Some? ==> NextDay(PrevDay(d).value) == Some(d)
    ensures NextDay(d).Some? ==> PrevDay(NextDay(d).value) == Some(d)
  {
  }

  /**
   * `d - timedelta(days=n)`: None when the result falls before 0001-01-01,
   * where Python raises OverflowError.
   */
  function MinusDays(d: Date, n: nat): (r: Option<Date>)
    requires Valid(d)
    ensures r.Some? ==> Valid(r.value)
    decreases n
  {
    if n == 0 then Some(d)
    else match PrevDay(d)
      case None => None
      case Some(p) => MinusDays(p, n - 1)
  }

  /** Going back fewer days than the day of the month stays inside the month. */
  lemma {:induction false} MinusDaysWithinMonth(d: Date, k: nat, j: nat)
    requires Valid(d) && k < d.day
    ensures Valid(Date(d.year, d.month, d.day - k))
    ensures MinusDays(d, k + j) == MinusDays(Date(d.year, d.month, d.day - k), j)
    decreases k
  {
    if k > 0 {
      var p := Date(d.year, d.month, d.day - 1);
      assert PrevDay(d) == Some(p);
      assert MinusDays(d, k + j) == MinusDays(p, k - 1 + j);
      MinusDaysWithinMonth(p, k - 1, j);
    }
  }

  /** The month before month `m` of year `y`. */
  function PreviousMonth(y: int, m: int): (int, int) {
    if m == 1 then (y - 1, 12) else (y, m - 1)
  }

  /** The reporting window: the previous calendar month and its key. */
  datatype Period = Period(firstDay: Date, lastDay: Date, key: string)

  datatype CalendarError = DateOutOfRange

  function Digit(n: int): (c: char)
    requires 0 <= n <= 9
    ensures '0' <= c <= '9'
  {
    ('0' as int + n) as char
  }

  function DigitValue(c: char): int {
    c as int - '0' as int
  }

  /** `strftime('%Y%m')` of a date in year `y`, month `m`. */
  function FormatKey(y: int, m: int): (s: string)
    requires MIN_YEAR <= y <= MAX_YEAR && 1 <= m <= 12
    ensures |s| == 6 && forall i :: 0 <= i < |s| ==> '0' <= s[i] <= '9'
  {
    [Digit(y / 10 / 10 / 10), Digit(y / 10 / 10 % 10), Digit(y / 10 % 10), Digit(y % 10), Digit(m / 10), Digit(m % 10)]
  }

  /** Reads a six-digit key back as (year, month). */
  function ParseKey(s: string): (int, int)
    requires |s| == 6
  {
    (((DigitValue(s[0]) * 10 + DigitValue(s[1])) * 10 + DigitValue(s[2])) * 10 + DigitValue(s[3]),
     DigitValue(s[4]) * 10 + DigitValue(s[5]))
  }

  /** The key names its month exactly: parsing it gives back year and month. */
  lemma KeyRoundTrip(y: int, m: int)
    requires MIN_YEAR <= y <= MAX_YEAR && 1 <= m <= 12
    ensures ParseKey(FormatKey(y, m)) == (y, m)
  {
    var s := FormatKey(y, m);
    var y1, y2 := y / 10, y / 10 / 10;
    assert DigitValue(s[0]) == y2 / 10;
    assert DigitValue(s[1]) == y2 % 10;
    assert DigitValue(s[2]) == y1 % 10;
    assert DigitValue(s[3]) == y % 10;
    assert y2 == (y2 / 10) * 10 + y2 % 10;
    assert y1 == y2 * 10 + y1 % 10;
    assert y == y1 * 10 + y % 10;
    assert DigitValue(s[4]) == m / 10 && DigitValue(s[5]) == m % 10;
  }

  /** Two different months never share a key. */
  lemma KeyInjective(y1: int, m1: int, y2: int, m2: int)
    requires MIN_YEAR <= y1 <= MAX_YEAR && 1 <= m1 <= 12
    requires MIN_YEAR <= y2 <= MAX_YEAR && 1 <= m2 <= 12
    ensures FormatKey(y1, m1) == FormatKey(y2, m2) <==> y1 == y2 && m1 == m2
  {
    KeyRoundTrip(y1, m1);
    KeyRoundTrip(y2, m2);
  }

  /**
   * The module-level period globals: the last day of the previous month is
   * `today - today.day` days, the first day is that minus `last.day - 1` days,
   * and the key is the first day as YYYYMM.
   */
  function ResolvePeriod(today: Date): (r: Result<Period, CalendarError>)
    requires Valid(today)
  {
    match MinusDays(today, today.day)
    case None => Failure(DateOutOfRange)
    case Some(last) =>
      match MinusDays(last, last.day - 1)
      case None => Failure(DateOutOfRange)
      case Some(first) => Success(Period(first, last, FormatKey(first.year, first.month)))
  }

  /** A period is one whole month of the previous calendar month before `today`. */
  predicate IsPreviousMonthOf(p: Period, today: Date) {
    var pm := PreviousMonth(today.year, today.month);
    && MIN_YEAR <= pm.0 <= MAX_YEAR && 1 <= pm.1 <= 12
    && p.firstDay == Date(pm.0, pm.1, 1)
    && p.lastDay == Date(pm.0, pm.1, DaysInMonth(pm.0, pm.1))
    && p.key == FormatKey(pm.0, pm.1)
  }

  /** The day before the first of a month is the last day of the previous month. */
  lemma PrevDayOfFirst(d: Date)
    requires Valid(d) && d.day == 1
    ensures d.year == MIN_YEAR && d.month == 1 ==> PrevDay(d).None?
    ensures !(d.year == MIN_YEAR && d.month == 1) ==>
      var pm := PreviousMonth(d.year, d.month);
      PrevDay(d) == Some(Date(pm.0, pm.1, DaysInMonth(pm.0, pm.1)))
  {
  }

  /** Going back `today.day` days lands on the last day of the previous month. */
  lemma LastDayOfPreviousMonth(today: Date)
    requires Valid(today)
    ensures MinusDays(today, today.day) == PrevDay(Date(today.year, today.month, 1))
  {
    MinusDaysWithinMonth(today, today.day - 1, 1);
    MinusOneDay(Date(today.year, today.month, 1));
  }

  /** Going back a single day is `PrevDay`. */
  lemma MinusOneDay(d: Date)
    requires Valid(d)
    ensures MinusDays(d, 1) == PrevDay(d)
  {
  }

  /** Going back `last.day - 1` days lands on the first day of the same month. */
  lemma FirstDayOfMonth(last: Date)
    requires Valid(last)
    ensures MinusDays(last, last.day - 1) == Some(Date(last.year, last.month, 1))
  {
    MinusDaysWithinMonth(last, last.day - 1, 0);
  }

  /**
   * The resolver yields the first and last day of the month before today's
   * month (December of the year before in January, the 29th of February in a
   * leap year); it fails only for a date in January of year 1.
   */
  lemma ResolvePeriodCorrect(today: Date)
    requires Valid(today)
    ensures ResolvePeriod(today).Failure? <==> today.year == MIN_YEAR && today.month == 1
    ensures ResolvePeriod(today).Success? ==>
      var p := ResolvePeriod(today).value;
      && IsPreviousMonthOf(p, today)
      && Valid(p.firstDay) && Valid(p.lastDay) && NotAfter(p.firstDay, p.lastDay)
      && ParseKey(p.key) == PreviousMonth(today.year, today.month)
  {
    LastDayOfPreviousMonth(today);
    PrevDayOfFirst(Date(today.year, today.month, 1));
    if !(today.year == MIN_YEAR && today.month == 1) {
      var pm := PreviousMonth(today.year, today.month);
      var last := Date(pm.0, pm.1, DaysInMonth(pm.0, pm.1));
      FirstDayOfMonth(last);
      KeyRoundTrip(pm.0, pm.1);
      assert ResolvePeriod(today) == Success(Period(Date(pm.0, pm.1, 1), last, FormatKey(pm.0, pm.1)));
    }
  }

  /** Every day of a leap-year March resolves to the whole of February, ending on the 29th. */
  lemma ResolvePeriodLeapMarch(today: Date)
    requires today.year == 2024 && today.month == 3 && 1 <= today.day <= 31
    ensures ResolvePeriod(today) == Success(Period(Date(2024, 2, 1), Date(2024, 2, 29), "202402"))
  {
    ResolvePeriodCorrect(today);
    assert DaysInMonth(2024, 2) == 29;
    assert FormatKey(2024, 2) == "202402";
  }

  /** Every day of a January resolves to December of the year before. */
  lemma ResolvePeriodJanuary(today: Date)
    requires today.year == 2024 && today.month == 1 && 1 <= today.day <= 31
    ensures ResolvePeriod(today) == Success(Period(Date(2023, 12, 1), Date(2023, 12, 31), "202312"))
  {
    ResolvePeriodCorrect(today);
    assert FormatKey(2023, 12) == "202312";
  }
}
