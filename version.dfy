/** The list of nightly version dates offered for selection: the thirty UTC
    calendar dates from today backwards, written `year.month.day` without zero
    padding. Today's UTC date is a parameter here instead of a clock read. */
module VersionDates {
  import opened Wrappers
  import opened Text
  import opened Decimal

  /** A UTC calendar date of the proleptic Gregorian calendar, with astronomical
      year numbering (as `getUTCFullYear` reports it). */
  datatype Date = Date(year: int, month: int, day: int)

  const DateCount := 30

  predicate IsLeapYear(y: int) {
    y % 4 == 0 && (y % 100 != 0 || y % 400 == 0)
  }

  function DaysInMonth(y: int, m: int): (n: int)
    requires 1 <= m <= 12
    ensures 28 <= n <= 31
  {
    if m == 2 then (if IsLeapYear(y) then 29 else 28)
    else if m == 4 || m == 6 || m == 9 || m == 11 then 30
    else 31
  }

  predicate ValidDate(d: Date) {
    1 <= d.month <= 12 && 1 <= d.day <= DaysInMonth(d.year, d.month)
  }

  /** Days from 1 January of year 1 to 1 January of year `y` (negative before year 1). */
  function DaysBeforeYear(y: int): int {
    365 * (y - 1) + (y - 1) / 4 - (y - 1) / 100 + (y - 1) / 400
  }

  /** Days from 1 January of year `y` to the first of month `m`. */
  function DaysBeforeMonth(y: int, m: int): int
    requires 1 <= m <= 12
  {
    if m == 1 then 0 else DaysBeforeMonth(y, m - 1) + DaysInMonth(y, m - 1)
  }

  /** Serial number of a day: consecutive days have consecutive numbers. */
  function DayNumber(d: Date): int
    requires 1 <= d.month <= 12
  {
    DaysBeforeYear(d.year) + DaysBeforeMonth(d.year, d.month) + d.day - 1
  }

  /** `x / k` (floor) grows by one exactly at the multiples of `k`. */
  lemma FloorStep(x: int, k: int)
    requires k == 4 || k == 100 || k == 400
    ensures x / k - (x - 1) / k == if x % k == 0 then 1 else 0
  {
    var q, r := x / k, x % k;
    if k == 4 {
      FloorStepAt(x, 4, q, r);
    } else if k == 100 {
      FloorStepAt(x, 100, q, r);
    } else {
      FloorStepAt(x, 400, q, r);
    }
  }

  lemma FloorStepAt(x: int, k: int, q: int, r: int)
    requires k == 4 || k == 100 || k == 400
    requires q == x / k && r == x % k
    ensures x / k - (x - 1) / k == if r == 0 then 1 else 0
  {
    assert x == k * q + r && 0 <= r < k;
    if r == 0 {
      DivUnique(x - 1, k, q - 1, k - 1);
    } else {
      DivUnique(x - 1, k, q, r - 1);
    }
  }

  lemma DivUnique(x: int, k: int, q: int, r: int)
    requires k == 4 || k == 100 || k == 400
    requires x == k * q + r && 0 <= r < k
    ensures x / k == q
  {
    if k == 4 {
      assert x / 4 == q;
    } else if k == 100 {
      assert x / 100 == q;
    } else {
      assert x / 400 == q;
    }
  }

  lemma MultipleOfHundred(x: int)
    requires x % 100 == 0
    ensures x % 4 == 0
  {
    var q := x / 100;
    assert x == 4 * (25 * q);
  }

  lemma MultipleOfFourHundred(x: int)
    requires x % 400 == 0
    ensures x % 100 == 0
  {
    var q := x / 400;
    assert x == 100 * (4 * q);
  }

  /** A year is 366 days long when it is a leap year and 365 otherwise. */
  lemma YearLength(y: int)
    ensures DaysBeforeYear(y + 1) - DaysBeforeYear(y) == if IsLeapYear(y) then 366 else 365
  {
    FloorStep(y, 4);
    FloorStep(y, 100);
    FloorStep(y, 400);
    if y % 100 == 0 { MultipleOfHundred(y); }
    if y % 400 == 0 { MultipleOfFourHundred(y); }
  }

  /** Days before each month of a common year; a leap year adds one from March on. */
  function CommonDaysBeforeMonth(m: int): int
    requires 1 <= m <= 12
  {
    [0, 31, 59, 90, 120, 151, 181, 212, 243, 273, 304, 334][m - 1]
  }

  lemma {:induction false} DaysBeforeMonthTable(y: int, m: int)
    requires 1 <= m <= 12
    ensures DaysBeforeMonth(y, m) == CommonDaysBeforeMonth(m) + if m > 2 && IsLeapYear(y) then 1 else 0
  {
    if m > 1 {
      DaysBeforeMonthTable(y, m - 1);
    }
  }

  /** The months of a year add up to the year's length. */
  lemma MonthsFillYear(y: int)
    ensures DaysBeforeMonth(y, 12) + DaysInMonth(y, 12) == if IsLeapYear(y) then 366 else 365
  {
    DaysBeforeMonthTable(y, 12);
  }

  /** The first of a month comes `DaysInMonth` days after the first of the month before it. */
  lemma MonthStep(y: int, m: int)
    requires 1 <= m <= 12
    ensures var (py, pm) := if m == 1 then (y - 1, 12) else (y, m - 1);
            DayNumber(Date(py, pm, 1)) + DaysInMonth(py, pm) == DayNumber(Date(y, m, 1))
  {
    if m == 1 {
      YearLength(y - 1);
      MonthsFillYear(y - 1);
    }
  }

  /** `date.setUTCDate(n)` on a date in year `y`, month `m`: day `n` of that
      month, rolling back into earlier months when `n < 1` and forward into later
      ones when `n` passes the month's end. */
  function SetUTCDate(y: int, m: int, n: int): (r: Date)
    requires 1 <= m <= 12
    ensures ValidDate(r)
    ensures DayNumber(r) == DayNumber(Date(y, m, 1)) + n - 1
    decreases if n < 1 then 33 - n else n
  {
    if n < 1 then
      var (py, pm) := if m == 1 then (y - 1, 12) else (y, m - 1);
      MonthStep(y, m);
      SetUTCDate(py, pm, n + DaysInMonth(py, pm))
    else if n <= DaysInMonth(y, m) then
      Date(y, m, n)
    else
      var (ny, nm) := if m == 12 then (y + 1, 1) else (y, m + 1);
      MonthStep(ny, nm);
      SetUTCDate(ny, nm, n - DaysInMonth(y, m))
  }

  /** Element `i`: a copy of today with `setUTCDate(getUTCDate() - i)` applied. */
  function DateAt(today: Date, i: int): (d: Date)
    requires ValidDate(today)
    ensures ValidDate(d) && DayNumber(d) == DayNumber(today) - i
  {
    SetUTCDate(today.year, today.month, today.day - i)
  }

  /** `${getUTCFullYear()}.${getUTCMonth() + 1}.${getUTCDate()}`. */
  function Format(d: Date): string
    requires ValidDate(d)
  {
    IntToString(d.year) + "." + NatToString(d.month) + "." + NatToString(d.day)
  }

  /** `generateDates()`, for the given UTC date of today. */
  function GenerateDates(today: Date): (dates: seq<string>)
    requires ValidDate(today)
    ensures |dates| == DateCount
  {
    seq(DateCount, i requires 0 <= i < DateCount => Format(DateAt(today, i)))
  }

  /** Reads `year.month.day` back: an integer, a dot, digits, a dot, digits. */
  function ParseDate(s: string): Option<Date> {
    var i := IndexOf(s, '.');
    if i == |s| then None
    else
      var rest := s[i + 1..];
      var j := IndexOf(rest, '.');
      if j == |rest| then None
      else
        match (ParseInt(s[..i]), ParseNat(rest[..j]), ParseNat(rest[j + 1..]))
        case (Some(y), Some(m), Some(d)) => Some(Date(y, m, d))
        case _ => None
  }

  /** A formatted date reads back as the same date: the text is year, month and
      day in decimal, separated by dots, with nothing else in it. */
  lemma FormatRoundTrip(d: Date)
    requires ValidDate(d)
    ensures ParseDate(Format(d)) == Some(d)
  {
    var y, m, dd := IntToString(d.year), NatToString(d.month), NatToString(d.day);
    var s := Format(d);
    IntToStringHasNo(d.year, '.');
    assert s == y + ['.'] + (m + "." + dd);
    IndexOfAfter(y, '.', m + "." + dd);
    var rest := s[|y| + 1..];
    assert rest == m + ['.'] + dd;
    IndexOfAfter(m, '.', dd);
    assert s[..|y|] == y;
    assert rest[..|m|] == m && rest[|m| + 1..] == dd;
    IntRoundTrip(d.year);
    NatRoundTrip(d.month);
    NatRoundTrip(d.day);
  }

  /** Each element has the form `year.month.day` of a valid date with month in
      1..12 and day within its month, and names the day `i` days before today. */
  lemma GeneratedDateAt(today: Date, i: nat)
    requires ValidDate(today) && i < DateCount
    ensures var d := ParseDate(GenerateDates(today)[i]);
            d.Some? && ValidDate(d.value) && DayNumber(d.value) == DayNumber(today) - i
  {
    FormatRoundTrip(DateAt(today, i));
  }

  /** Element 0 is today. */
  lemma FirstIsToday(today: Date)
    requires ValidDate(today)
    ensures GenerateDates(today)[0] == Format(today)
  {
  }

  /** The day before a date, by the calendar's rules. */
  function PrevDay(d: Date): Date
    requires ValidDate(d)
  {
    if d.day > 1 then Date(d.year, d.month, d.day - 1)
    else if d.month > 1 then Date(d.year, d.month - 1, DaysInMonth(d.year, d.month - 1))
    else Date(d.year - 1, 12, 31)
  }

  lemma PrevDayIsDayBefore(d: Date)
    requires ValidDate(d)
    ensures ValidDate(PrevDay(d)) && DayNumber(PrevDay(d)) == DayNumber(d) - 1
  {
    if d.day == 1 {
      MonthStep(d.year, d.month);
    }
  }

  lemma {:induction false} DaysBeforeYearIncreasing(a: int, b: int)
    requires a < b
    ensures DaysBeforeYear(a) + 365 <= DaysBeforeYear(b)
    decreases b - a
  {
    YearLength(a);
    if a + 1 < b {
      DaysBeforeYearIncreasing(a + 1, b);
    }
  }

  lemma {:induction false} DaysBeforeMonthIncreasing(y: int, a: int, b: int)
    requires 1 <= a < b <= 12
    ensures DaysBeforeMonth(y, a) + DaysInMonth(y, a) <= DaysBeforeMonth(y, b)
    decreases b - a
  {
    if a + 1 < b {
      DaysBeforeMonthIncreasing(y, a + 1, b);
    }
  }

  /** A valid date's number falls within its own year. */
  lemma DayNumberWithinYear(d: Date)
    requires ValidDate(d)
    ensures DaysBeforeYear(d.year) <= DayNumber(d) < DaysBeforeYear(d.year + 1)
  {
    YearLength(d.year);
    MonthsFillYear(d.year);
    DaysBeforeMonthTable(d.year, d.month);
    if d.month < 12 {
      DaysBeforeMonthIncreasing(d.year, d.month, 12);
    }
  }

  /** Different valid dates have different day numbers. */
  lemma DayNumberInjective(a: Date, b: Date)
    requires ValidDate(a) && ValidDate(b) && DayNumber(a) == DayNumber(b)
    ensures a == b
  {
    DayNumberWithinYear(a);
    DayNumberWithinYear(b);
    if a.year < b.year {
      DaysBeforeYearIncreasing(a.year + 1, b.year + 1);
    } else if b.year < a.year {
      DaysBeforeYearIncreasing(b.year + 1, a.year + 1);
    }
    assert a.year == b.year;
    if a.month < b.month {
      DaysBeforeMonthIncreasing(a.year, a.month, b.month);
    } else if b.month < a.month {
      DaysBeforeMonthIncreasing(a.year, b.month, a.month);
    }
  }

  /** Consecutive elements are consecutive calendar days, going backwards:
      element `i + 1` is the day before element `i`, across month ends, year ends
      and 29 February alike. */
  lemma ConsecutiveDays(today: Date, i: nat)
    requires ValidDate(today) && i + 1 < DateCount
    ensures GenerateDates(today)[i + 1] == Format(PrevDay(DateAt(today, i)))
  {
    var d := DateAt(today, i);
    PrevDayIsDayBefore(d);
    DayNumberInjective(DateAt(today, i + 1), PrevDay(d));
  }

  /** All thirty elements are distinct. */
  lemma AllDistinct(today: Date, i: nat, j: nat)
    requires ValidDate(today) && i < j < DateCount
    ensures GenerateDates(today)[i] != GenerateDates(today)[j]
  {
    FormatRoundTrip(DateAt(today, i));
    FormatRoundTrip(DateAt(today, j));
  }

  /** Across a leap day: the list for 1 March 2024 continues with 29 February. */
  lemma LeapDayExample()
    ensures GenerateDates(Date(2024, 3, 1))[1] == "2024.2.29"
  {
    var today := Date(2024, 3, 1);
    assert DateAt(today, 0) == today;
    ConsecutiveDays(today, 0);
    assert PrevDay(today) == Date(2024, 2, 29);
    assert Format(Date(2024, 2, 29)) == "2024.2.29";
  }
}
