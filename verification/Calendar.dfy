/**
 The proleptic Gregorian calendar: month lengths, day numbers counted from
 1970-01-01, and the inverse a database uses to render an instant.
 */
module Calendar {

  predicate IsLeap(year: int) { (year % 4 == 0 && year % 100 != 0) || year % 400 == 0 }

  function LastDayOfMonth(year: int, month: int): (days: int)
    requires 1 <= month <= 12
    ensures 28 <= days <= 31
  {
    var kDays := [31, 28, 31, 30, 31, 30, 31, 31, 30, 31, 30, 31];
    if month == 2 && IsLeap(year) then 29 else kDays[month - 1]
  }

  datatype Date = Date(year: int, month: int, day: int)

  predicate Valid(d: Date) { 1 <= d.month <= 12 && 1 <= d.day <= LastDayOfMonth(d.year, d.month) }

  // ---------------------------------------------------------------- day numbers as sums of lengths

  /** Days of the year before the given month; month 13 gives the length of the year. */
  function DaysBeforeMonth(year: int, month: int): nat
    requires 1 <= month <= 13
    decreases month
  {
    if month == 1 then 0 else DaysBeforeMonth(year, month - 1) + LastDayOfMonth(year, month - 1)
  }

  function YearLength(year: int): nat { if IsLeap(year) then 366 else 365 }

  function DaysBeforeYear(year: int): int
    decreases if year > 1970 then year - 1970 else 1970 - year
  {
    if year == 1970 then 0
    else if year > 1970 then DaysBeforeYear(year - 1) + YearLength(year - 1)
    else DaysBeforeYear(year + 1) - YearLength(year)
  }

  function DayNumber(d: Date): int
    requires 1 <= d.month <= 12
  {
    DaysBeforeYear(d.year) + DaysBeforeMonth(d.year, d.month) + d.day - 1
  }

  lemma MonthTable(year: int)
    ensures forall m :: 1 <= m <= 13 ==>
      DaysBeforeMonth(year, m)
      == [0, 31, 59, 90, 120, 151, 181, 212, 243, 273, 304, 334, 365][m - 1] + if m > 2 && IsLeap(year) then 1 else 0
  {
    assert DaysBeforeMonth(year, 1) == 0;
    assert DaysBeforeMonth(year, 2) == 31;
    var leap := if IsLeap(year) then 1 else 0;
    assert DaysBeforeMonth(year, 3) == 59 + leap;
    assert DaysBeforeMonth(year, 4) == 90 + leap;
    assert DaysBeforeMonth(year, 5) == 120 + leap;
    assert DaysBeforeMonth(year, 6) == 151 + leap;
    assert DaysBeforeMonth(year, 7) == 181 + leap;
    assert DaysBeforeMonth(year, 8) == 212 + leap;
    assert DaysBeforeMonth(year, 9) == 243 + leap;
    assert DaysBeforeMonth(year, 10) == 273 + leap;
    assert DaysBeforeMonth(year, 11) == 304 + leap;
    assert DaysBeforeMonth(year, 12) == 334 + leap;
  }

  /** A year is as long as the twelve months that LastDayOfMonth gives it. */
  lemma YearIsTwelveMonths(year: int)
    ensures YearLength(year) == DaysBeforeMonth(year, 13)
  {
    MonthTable(year);
  }

  // ---------------------------------------------------------------- timegm

  /** Broken-down time with full year and month 1..12; day may overflow the month, as timegm allows. */
  datatype Tm = Tm(year: int, month: int, day: int, hour: int, minute: int, second: int)

  /** Section 4.16 of POSIX.1-2017 XBD, with floor division so that years before 1970 are covered. */
  function PosixDays(year: int, month: int, day: int): int
    requires 1 <= month <= 12
  {
    var tmYear := year - 1900;
    var tmYday := [0, 31, 59, 90, 120, 151, 181, 212, 243, 273, 304, 334][month - 1]
                  + (if month > 2 && IsLeap(year) then 1 else 0) + day - 1;
    tmYday + (tmYear - 70) * 365 + (tmYear - 69) / 4 - (tmYear - 1) / 100 + (tmYear + 299) / 400
  }

  function Timegm(tm: Tm): int
    requires 1 <= tm.month <= 12
  {
    tm.second + tm.minute * 60 + tm.hour * 3600 + PosixDays(tm.year, tm.month, tm.day) * 86400
  }

  function PosixYears(year: int): int { PosixDays(year, 1, 1) }

  lemma YearQuotients(year: int)
    ensures (year + 1 - 1969) / 4 == (year - 1969) / 4 + if year % 4 == 0 then 1 else 0
    ensures (year + 1 - 1901) / 100 == (year - 1901) / 100 + if year % 100 == 0 then 1 else 0
    ensures (year + 1 - 1601) / 400 == (year - 1601) / 400 + if year % 400 == 0 then 1 else 0
  {
    FloorStep(year - 1969, 4);
    FloorStep(year - 1901, 100);
    FloorStep(year - 1601, 400);
    ModShift(year, 1968, 4);
    ModShift(year, 1900, 100);
    ModShift(year, 1600, 400);
  }

  lemma ModShift(year: int, base: int, k: int)
    requires (k == 4 && base == 1968) || (k == 100 && base == 1900) || (k == 400 && base == 1600)
    ensures (year - base) % k == 0 <==> year % k == 0
  {
  }

  lemma LeapDivisors(year: int)
    ensures year % 400 == 0 ==> year % 100 == 0
    ensures year % 100 == 0 ==> year % 4 == 0
  {
  }

  lemma PosixYearStep(year: int)
    ensures PosixYears(year + 1) == PosixYears(year) + YearLength(year)
  {
    YearQuotients(year);
    LeapDivisors(year);
  }

  lemma FloorStep(a: int, k: int)
    requires k == 4 || k == 100 || k == 400
    ensures (a + 1) / k == a / k + if (a + 1) % k == 0 then 1 else 0
  {
  }

  lemma {:induction false} PosixYearsAreSums(year: int)
    ensures PosixYears(year) == DaysBeforeYear(year)
    decreases if year > 1970 then year - 1970 else 1970 - year
  {
    if year > 1970 {
      PosixYearsAreSums(year - 1);
      PosixYearStep(year - 1);
    } else if year < 1970 {
      PosixYearsAreSums(year + 1);
      PosixYearStep(year);
    }
  }

  /** timegm's closed form counts exactly the year and month lengths that LastDayOfMonth gives. */
  lemma PosixDaysAreSums(d: Date)
    requires 1 <= d.month <= 12
    ensures PosixDays(d.year, d.month, d.day) == DayNumber(d)
  {
    PosixYearsAreSums(d.year);
    MonthTable(d.year);
  }

  // ---------------------------------------------------------------- order and inverse

  predicate Before(a: Date, b: Date) {
    a.year < b.year || (a.year == b.year && (a.month < b.month || (a.month == b.month && a.day < b.day)))
  }

  lemma NextYear(year: int)
    ensures DaysBeforeYear(year + 1) == DaysBeforeYear(year) + YearLength(year)
  {
  }

  lemma {:induction false} YearsInOrder(a: int, b: int)
    requires a < b
    ensures DaysBeforeYear(a) + YearLength(a) <= DaysBeforeYear(b)
    decreases b - a
  {
    NextYear(b - 1);
    if a < b - 1 { YearsInOrder(a, b - 1); }
  }

  lemma {:induction false} MonthsInOrder(year: int, a: int, b: int)
    requires 1 <= a < b <= 13
    ensures DaysBeforeMonth(year, a) + LastDayOfMonth(year, a) <= DaysBeforeMonth(year, b)
    decreases b - a
  {
    if a < b - 1 { MonthsInOrder(year, a, b - 1); }
  }

  lemma DayInYear(d: Date)
    requires Valid(d)
    ensures DaysBeforeYear(d.year) <= DayNumber(d) < DaysBeforeYear(d.year) + YearLength(d.year)
  {
    MonthsInOrder(d.year, d.month, 13);
    YearIsTwelveMonths(d.year);
  }

  lemma EarlierIsSmaller(a: Date, b: Date)
    requires Valid(a) && Valid(b) && Before(a, b)
    ensures DayNumber(a) < DayNumber(b)
  {
    DayInYear(a);
    DayInYear(b);
    if a.year < b.year {
      YearsInOrder(a.year, b.year);
    } else if a.month < b.month {
      MonthsInOrder(a.year, a.month, b.month);
    }
  }

  /** Day numbers order dates exactly as the calendar does; in particular they are unique. */
  lemma DayNumberOrder(a: Date, b: Date)
    requires Valid(a) && Valid(b)
    ensures Before(a, b) <==> DayNumber(a) < DayNumber(b)
    ensures a == b <==> DayNumber(a) == DayNumber(b)
  {
    if Before(a, b) { EarlierIsSmaller(a, b); }
    if Before(b, a) { EarlierIsSmaller(b, a); }
  }

  function NextDay(d: Date): Date
    requires Valid(d)
  {
    if d.day < LastDayOfMonth(d.year, d.month) then d.(day := d.day + 1)
    else if d.month < 12 then Date(d.year, d.month + 1, 1)
    else Date(d.year + 1, 1, 1)
  }

  /** Valid dates follow one another without a gap. */
  lemma NextDayIsNextNumber(d: Date)
    requires Valid(d)
    ensures Valid(NextDay(d)) && DayNumber(NextDay(d)) == DayNumber(d) + 1
  {
    if d.month == 12 {
      NextYear(d.year);
      YearIsTwelveMonths(d.year);
    }
  }

  /** How far year `y` is from the year that contains day `n`. */
  function Distance(n: int, y: int): nat {
    if n < DaysBeforeYear(y) then DaysBeforeYear(y) - n
    else if n >= DaysBeforeYear(y + 1) then n - DaysBeforeYear(y + 1) + 1
    else 0
  }

  lemma DistanceShrinks(n: int, y: int)
    ensures n < DaysBeforeYear(y) ==> Distance(n, y - 1) < Distance(n, y)
    ensures n >= DaysBeforeYear(y + 1) ==> Distance(n, y + 1) < Distance(n, y)
  {
  }

  lemma YearExists(n: int, guess: int) returns (year: int)
    ensures DaysBeforeYear(year) <= n < DaysBeforeYear(year + 1)
    decreases Distance(n, guess)
  {
    DistanceShrinks(n, guess);
    if n < DaysBeforeYear(guess) {
      year := YearExists(n, guess - 1);
    } else if n >= DaysBeforeYear(guess + 1) {
      year := YearExists(n, guess + 1);
    } else {
      year := guess;
    }
  }

  lemma MonthExists(year: int, yday: int, guess: int) returns (month: int)
    requires 1 <= guess <= 12
    requires DaysBeforeMonth(year, guess) <= yday < DaysBeforeMonth(year, 13)
    ensures 1 <= month <= 12
    ensures DaysBeforeMonth(year, month) <= yday < DaysBeforeMonth(year, month) + LastDayOfMonth(year, month)
    decreases 12 - guess
  {
    if guess == 12 || yday < DaysBeforeMonth(year, guess + 1) {
      month := guess;
    } else {
      month := MonthExists(year, yday, guess + 1);
    }
  }

  /** Every integer is the number of some date. */
  lemma DateExists(n: int)
    ensures exists d :: Valid(d) && DayNumber(d) == n
  {
    var year := YearExists(n, 1970);
    NextYear(year);
    YearIsTwelveMonths(year);
    var yday := n - DaysBeforeYear(year);
    var month := MonthExists(year, yday, 1);
    var d := Date(year, month, yday - DaysBeforeMonth(year, month) + 1);
    assert Valid(d) && DayNumber(d) == n;
  }

  /** The date of a day number. */
  ghost function CivilOf(n: int): (d: Date)
    ensures Valid(d)
  {
    DateExists(n);
    var d :| Valid(d) && DayNumber(d) == n;
    d
  }

  lemma NumberOfCivil(n: int)
    ensures DayNumber(CivilOf(n)) == n
  {
  }

  /** CivilOf and DayNumber are inverse to each other: a bijection between dates and integers. */
  lemma CivilOfDayNumber(d: Date)
    requires Valid(d)
    ensures CivilOf(DayNumber(d)) == d
  {
    NumberOfCivil(DayNumber(d));
    DayNumberOrder(CivilOf(DayNumber(d)), d);
  }
}
