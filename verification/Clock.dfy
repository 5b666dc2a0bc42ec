/**
 From a date and time of the real-time clock to Unix seconds: the loops over years and
 months agree with a closed form, and later dates give larger numbers.
 */
module Clock {
  datatype Date = Date(year: int, month: int, day: int, hour: int, minute: int, second: int)

  predicate IsLeapYear(year: int) {
    (year % 4 == 0 && year % 100 != 0) || year % 400 == 0
  }

  function DaysInMonth(leap: bool, m: nat): (d: nat)
    requires m < 12
    ensures 28 <= d <= 31
  {
    if m == 1 then (if leap then 29 else 28) else if m == 3 || m == 5 || m == 8 || m == 10 then 30 else 31
  }

  predicate ValidDate(t: Date) {
    && 1 <= t.month <= 12 && 1 <= t.day <= DaysInMonth(IsLeapYear(t.year), t.month - 1)
    && 0 <= t.hour < 24 && 0 <= t.minute < 60 && 0 <= t.second < 60
  }

  // Closed form.

  /** Leap years from year 1 to year n. */
  function LeapYears(n: int): (r: int) {
    n / 4 - n / 100 + n / 400
  }

  /** Days from the start of 1970 to the start of a year. */
  function DaysToYear(year: int): (r: int) {
    365 * (year - 1970) + LeapYears(year - 1) - LeapYears(1969)
  }

  /** Days from the start of a year to the start of its month m, counted from 0. */
  function DaysToMonth(leap: bool, m: nat): (r: nat)
    requires m <= 12
  {
    30 * m + (m + (if m > 7 then 2 else 1)) / 2 - (if m >= 2 then (if leap then 1 else 2) else 0)
  }

  function Days(t: Date): (r: int)
    requires ValidDate(t)
  {
    DaysToYear(t.year) + DaysToMonth(IsLeapYear(t.year), t.month - 1) + t.day - 1
  }

  function UnixTime(t: Date): (r: int)
    requires ValidDate(t)
  {
    86400 * Days(t) + 3600 * t.hour + 60 * t.minute + t.second
  }

  lemma NextYear(year: int)
    ensures DaysToYear(year + 1) == DaysToYear(year) + (if IsLeapYear(year) then 366 else 365)
  {
    Quarter(year);
    Century(year);
    Cycle(year);
    Multiples(year);
  }

  lemma Quarter(n: int)
    ensures n / 4 - (n - 1) / 4 == if n % 4 == 0 then 1 else 0
  {
  }

  lemma Century(n: int)
    ensures n / 100 - (n - 1) / 100 == if n % 100 == 0 then 1 else 0
  {
  }

  lemma Cycle(n: int)
    ensures n / 400 - (n - 1) / 400 == if n % 400 == 0 then 1 else 0
  {
  }

  lemma Multiples(n: int)
    ensures n % 400 == 0 ==> n % 100 == 0
    ensures n % 100 == 0 ==> n % 4 == 0
  {
  }

  lemma NextMonth(leap: bool, m: nat)
    requires m < 12
    ensures DaysToMonth(leap, m + 1) == DaysToMonth(leap, m) + DaysInMonth(leap, m)
  {
    assert m == 0 || m == 1 || m == 2 || m == 3 || m == 4 || m == 5
           || m == 6 || m == 7 || m == 8 || m == 9 || m == 10 || m == 11;
  }

  lemma Start()
    ensures DaysToYear(1970) == 0 && DaysToMonth(true, 0) == 0 && DaysToMonth(false, 0) == 0
    ensures DaysToMonth(true, 12) == 366 && DaysToMonth(false, 12) == 365
  {
  }

  lemma {:induction false} MonthsIncrease(leap: bool, m: nat, n: nat)
    requires m < n <= 12
    ensures DaysToMonth(leap, m) + DaysInMonth(leap, m) <= DaysToMonth(leap, n)
  {
    hide DaysToMonth, DaysInMonth;
    if m + 1 < n {
      MonthsIncrease(leap, m, n - 1);
      NextMonth(leap, n - 1);
    } else {
      NextMonth(leap, m);
    }
  }

  lemma {:induction false} YearsIncrease(year: int, later: int)
    requires year < later
    ensures DaysToYear(year) + (if IsLeapYear(year) then 366 else 365) <= DaysToYear(later)
    decreases later - year
  {
    hide DaysToYear, IsLeapYear;
    if year + 1 < later {
      YearsIncrease(year, later - 1);
      NextYear(later - 1);
    } else {
      NextYear(year);
    }
  }

  // Order.

  predicate DayBefore(s: Date, t: Date) {
    s.year < t.year || (s.year == t.year && (s.month < t.month || (s.month == t.month && s.day < t.day)))
  }

  predicate SameDay(s: Date, t: Date) {
    s.year == t.year && s.month == t.month && s.day == t.day
  }

  predicate Earlier(s: Date, t: Date) {
    || DayBefore(s, t)
    || (SameDay(s, t)
        && (s.hour < t.hour
            || (s.hour == t.hour && (s.minute < t.minute || (s.minute == t.minute && s.second < t.second)))))
  }

  lemma DayWithinYear(t: Date)
    requires ValidDate(t)
    ensures 0 <= Days(t) - DaysToYear(t.year) < if IsLeapYear(t.year) then 366 else 365
  {
    hide DaysToYear, IsLeapYear;
    var leap := IsLeapYear(t.year);
    Start();
    MonthsIncrease(leap, t.month - 1, 12);
  }

  lemma DaysIncrease(s: Date, t: Date)
    requires ValidDate(s) && ValidDate(t) && DayBefore(s, t)
    ensures Days(s) < Days(t)
  {
    if s.year < t.year {
      DayWithinYear(s);
      DayWithinYear(t);
      YearsIncrease(s.year, t.year);
    } else if s.month < t.month {
      MonthsIncrease(IsLeapYear(s.year), s.month - 1, t.month - 1);
    }
  }

  /** Later times have larger numbers. */
  lemma UnixTimeIncreases(s: Date, t: Date)
    requires ValidDate(s) && ValidDate(t) && Earlier(s, t)
    ensures UnixTime(s) < UnixTime(t)
  {
    hide Days;
    if DayBefore(s, t) {
      DaysIncrease(s, t);
    } else {
      assert Days(s) == Days(t) by {
        DaysOfSameDay(s, t);
      }
    }
  }

  lemma DaysOfSameDay(s: Date, t: Date)
    requires ValidDate(s) && ValidDate(t) && SameDay(s, t)
    ensures Days(s) == Days(t)
  {
  }

  /** Different times have different numbers. */
  lemma UnixTimeInjective(s: Date, t: Date)
    requires ValidDate(s) && ValidDate(t) && UnixTime(s) == UnixTime(t)
    ensures s == t
  {
    hide UnixTime;
    if Earlier(s, t) {
      UnixTimeIncreases(s, t);
    } else if Earlier(t, s) {
      UnixTimeIncreases(t, s);
    }
  }

  /** The driver's loops. Years before 1970 count as 1970 with their own leap day. */
  method RtcToUnix(t: Date) returns (seconds: nat)
    requires ValidDate(t)
    ensures t.year >= 1970 ==> seconds == UnixTime(t)
    ensures t.year < 1970 ==> seconds == UnixTime(t) - 86400 * DaysToYear(t.year)
  {
    hide DaysToYear, DaysToMonth, IsLeapYear, DaysInMonth;
    Start();
    seconds := 0;
    var y := 1970;
    while y < t.year
      invariant t.year >= 1970 ==> y <= t.year
      invariant t.year < 1970 ==> y == 1970
      invariant seconds == 86400 * DaysToYear(y)
    {
      NextYear(y);
      seconds := seconds + (if IsLeapYear(y) then 366 else 365) * 86400;
      y := y + 1;
    }
    ghost var before := seconds;
    var leap := IsLeapYear(t.year);
    var m := 0;
    while m < t.month - 1
      invariant 0 <= m <= t.month - 1 && seconds == before + 86400 * DaysToMonth(leap, m)
    {
      NextMonth(leap, m);
      seconds := seconds + DaysInMonth(leap, m) * 86400;
      m := m + 1;
    }
    seconds := seconds + (t.day - 1) * 86400;
    seconds := seconds + t.hour * 3600;
    seconds := seconds + t.minute * 60;
    seconds := seconds + t.second;
  }

  // The Gregorian calendar.

  /** Days before each month of a common year; February has one more in a leap year. */
  lemma MonthStarts(leap: bool, m: nat)
    requires m < 12
    ensures DaysToMonth(leap, m)
            == [0, 31, 59, 90, 120, 151, 181, 212, 243, 273, 304, 334][m] + if leap && m >= 2 then 1 else 0
  {
  }

  /** Four centuries have 97 leap days; which century years are leap years. */
  lemma LeapDays(year: int)
    ensures DaysToYear(year + 400) == DaysToYear(year) + 400 * 365 + 97
    ensures IsLeapYear(2000) && !IsLeapYear(1900) && !IsLeapYear(2100) && IsLeapYear(2024) && !IsLeapYear(2023)
  {
    assert (year + 399) / 4 == (year - 1) / 4 + 100;
    assert (year + 399) / 100 == (year - 1) / 100 + 4;
    assert (year + 399) / 400 == (year - 1) / 400 + 1;
  }

  /** Some times whose numbers are known. */
  lemma KnownTimes()
    ensures var t := Date(1970, 1, 1, 0, 0, 0); ValidDate(t) && UnixTime(t) == 0
    ensures var t := Date(2000, 3, 1, 0, 0, 0); ValidDate(t) && UnixTime(t) == 951868800
    ensures var t := Date(2038, 1, 19, 3, 14, 7); ValidDate(t) && UnixTime(t) == 0x7FFF_FFFF
  {
    hide DaysToYear, DaysToMonth, IsLeapYear, UnixTime;
    KnownYears();
    MonthStarts(false, 0);
    MonthStarts(true, 2);
    TimeIs(Date(1970, 1, 1, 0, 0, 0), 0);
    TimeIs(Date(2000, 3, 1, 0, 0, 0), 11017);
    TimeIs(Date(2038, 1, 19, 3, 14, 7), 24855);
  }

  lemma TimeIs(t: Date, days: int)
    requires ValidDate(t) && DaysToYear(t.year) + DaysToMonth(IsLeapYear(t.year), t.month - 1) + t.day - 1 == days
    ensures UnixTime(t) == 86400 * days + 3600 * t.hour + 60 * t.minute + t.second
  {
    hide DaysToYear, DaysToMonth, IsLeapYear;
  }

  lemma KnownYears()
    ensures DaysToYear(1970) == 0 && DaysToYear(2000) == 10957 && DaysToYear(2038) == 24837
    ensures !IsLeapYear(1970) && IsLeapYear(2000) && !IsLeapYear(2038)
  {
  }
}
