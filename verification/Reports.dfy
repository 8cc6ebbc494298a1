/** Daily, monthly and annual reports over the charging table, and the older period reports with distances. */
module Reports {
  import opened Wrappers
  import opened Calendar
  import opened Rows
  import opened Aggregates

  const DAY_MICROS: int := 86_400_000_000
  const MINUTE_MICROS: int := 60_000_000

  /** The last year a database date can have; `make_date` refuses later ones. */
  const LAST_DATE_YEAR: int := 5_874_897

  /** The calendar date of an instant in a session whose time zone is `offset` minutes east of UTC. */
  ghost function LocalDate(micros: int, offset: int): Date { CivilOf((micros + offset * MINUTE_MICROS) / DAY_MICROS) }

  predicate Wanted(vehicleId: string, v: Uuid) { |vehicleId| == 0 || v == vehicleId }

  ghost function InDay(d: Date, v: string): Charge -> bool {
    (c: Charge) => LocalDate(c.startTime, 0) == d && Wanted(v, c.vehicleId)
  }

  ghost predicate StartsInMonth(start: int, offset: int, year: int, month: int) {
    LocalDate(start, offset).year == year && LocalDate(start, offset).month == month
  }

  ghost function InMonth(offset: int, year: int, month: int, v: string): Charge -> bool {
    (c: Charge) => StartsInMonth(c.startTime, offset, year, month) && Wanted(v, c.vehicleId)
  }

  ghost function InYear(offset: int, year: int, v: string): Charge -> bool {
    (c: Charge) => LocalDate(c.startTime, offset).year == year && Wanted(v, c.vehicleId)
  }

  // ---------------------------------------------------------------- the three charging reports

  datatype Report = Report(year: int, month: int, day: int, vehicleId: string, cost: int, kwh: int, count: int)

  ghost function Totals(rows: seq<Charge>, p: Charge -> bool, d: Date, v: string): Report {
    Report(d.year, d.month, d.day, v, Sum(rows, p, Cost()), Sum(rows, p, Kwh()), Count(rows, p))
  }

  /** The day is the UTC day whatever the session's time zone; the other two ask the session. */
  ghost function DailyReport(rows: seq<Charge>, year: int, month: int, day: int, v: string): Result<Report> {
    if year < 1900 then Failure(InvalidArgument)
    else if month < 1 || month > 12 then Failure(InvalidArgument)
    else if day < 1 || day > LastDayOfMonth(year, month) then Failure(InvalidArgument)
    else if year > LAST_DATE_YEAR then Failure(InvalidArgument)
    else Success(Totals(rows, InDay(Date(year, month, day), v), Date(year, month, day), v))
  }

  ghost function MonthlyReport(rows: seq<Charge>, offset: int, year: int, month: int, v: string): Result<Report> {
    if year < 1900 then Failure(InvalidArgument)
    else if month < 1 || month > 12 then Failure(InvalidArgument)
    else Success(Totals(rows, InMonth(offset, year, month, v), Date(year, month, 0), v))
  }

  ghost function AnnualReport(rows: seq<Charge>, offset: int, year: int, v: string): Result<Report> {
    if year < 1900 then Failure(InvalidArgument)
    else Success(Totals(rows, InYear(offset, year, v), Date(year, 0, 0), v))
  }

  /** A report is refused with one status. */
  predicate Refused<T>(r: Result<T>) { r.Failure? ==> r.error == InvalidArgument }

  /** The daily report accepts exactly the dates of the calendar from 1900 on. */
  lemma DailyAccepts(rows: seq<Charge>, d: Date, v: string)
    ensures DailyReport(rows, d.year, d.month, d.day, v).Success? <==> 1900 <= d.year <= 5_874_897 && Valid(d)
    ensures Refused(DailyReport(rows, d.year, d.month, d.day, v))
    ensures Valid(d) && 1900 <= d.year <= LAST_DATE_YEAR ==>
              (forall c :: InDay(d, v)(c) <==>
                 0 <= c.startTime - DayNumber(d) * DAY_MICROS < DAY_MICROS && Wanted(v, c.vehicleId))
  {
    if Valid(d) {
      forall c: Charge ensures LocalDate(c.startTime, 0) == d
                               <==> 0 <= c.startTime - DayNumber(d) * DAY_MICROS < DAY_MICROS {
        CivilOfDayNumber(d);
        NumberOfCivil(c.startTime / DAY_MICROS);
        FloorIs(c.startTime, DayNumber(d));
      }
    }
  }

  lemma FloorIs(micros: int, day: int)
    ensures micros / DAY_MICROS == day <==> 0 <= micros - day * DAY_MICROS < DAY_MICROS
  {
  }

  datatype Measure = TheCost | TheKwh | TheCount

  function Of(r: Report, m: Measure): int {
    match m case TheCost => r.cost case TheKwh => r.kwh case TheCount => r.count
  }

  function Per(m: Measure): Charge -> int { match m case TheCost => Cost() case TheKwh => Kwh() case TheCount => One() }

  /** What the accepted daily reports for days 1..n of a month add up to. */
  ghost function SumOfDays(rows: seq<Charge>, year: int, month: int, v: string, m: Measure, n: nat): int {
    if n == 0 then 0
    else
      var report := DailyReport(rows, year, month, n, v);
      SumOfDays(rows, year, month, v, m, n - 1) + if report.Success? then Of(report.value, m) else 0
  }

  ghost function SumOfMonths(rows: seq<Charge>, offset: int, year: int, v: string, m: Measure, n: nat): int {
    if n == 0 then 0
    else
      var report := MonthlyReport(rows, offset, year, n, v);
      SumOfMonths(rows, offset, year, v, m, n - 1) + if report.Success? then Of(report.value, m) else 0
  }

  ghost function InMonthUpTo(year: int, month: int, n: int, v: string): Charge -> bool {
    (c: Charge) =>
      StartsInMonth(c.startTime, 0, year, month) && LocalDate(c.startTime, 0).day <= n && Wanted(v, c.vehicleId)
  }

  lemma {:induction false} DaysUpTo(rows: seq<Charge>, year: int, month: int, v: string, m: Measure, n: nat)
    requires 1900 <= year <= LAST_DATE_YEAR && 1 <= month <= 12 && n <= LastDayOfMonth(year, month)
    ensures SumOfDays(rows, year, month, v, m, n) == Sum(rows, InMonthUpTo(year, month, n, v), Per(m))
  {
    if n == 0 {
      SumNone(rows, InMonthUpTo(year, month, 0, v), Per(m));
    } else {
      DaysUpTo(rows, year, month, v, m, n - 1);
      SumSplit(rows, InMonthUpTo(year, month, n, v), InMonthUpTo(year, month, n - 1, v),
               InDay(Date(year, month, n), v), Per(m));
    }
  }

  ghost function InYearUpTo(offset: int, year: int, n: int, v: string): Charge -> bool {
    (c: Charge) =>
      var d := LocalDate(c.startTime, offset);
      d.year == year && d.month <= n && Wanted(v, c.vehicleId)
  }

  lemma {:induction false} MonthsUpTo(rows: seq<Charge>, offset: int, year: int, v: string, m: Measure, n: nat)
    requires 1900 <= year && n <= 12
    ensures SumOfMonths(rows, offset, year, v, m, n) == Sum(rows, InYearUpTo(offset, year, n, v), Per(m))
  {
    if n == 0 {
      SumNone(rows, InYearUpTo(offset, year, 0, v), Per(m));
    } else {
      MonthsUpTo(rows, offset, year, v, m, n - 1);
      SumSplit(rows, InYearUpTo(offset, year, n, v), InYearUpTo(offset, year, n - 1, v), InMonth(offset, year, n, v),
               Per(m));
    }
  }

  /** Cost, energy and count of the daily reports of a month add up to the monthly report of a UTC session. */
  lemma DaysMakeMonth(rows: seq<Charge>, year: int, month: int, v: string, m: Measure)
    requires 1900 <= year <= LAST_DATE_YEAR && 1 <= month <= 12
    ensures SumOfDays(rows, year, month, v, m, LastDayOfMonth(year, month))
         == Of(MonthlyReport(rows, 0, year, month, v).value, m)
  {
    var n := LastDayOfMonth(year, month);
    DaysUpTo(rows, year, month, v, m, n);
    SumSame(rows, InMonthUpTo(year, month, n, v), InMonth(0, year, month, v), Per(m));
  }

  /** The twelve monthly reports add up to the annual one, in a session of any time zone. */
  lemma MonthsMakeYear(rows: seq<Charge>, offset: int, year: int, v: string, m: Measure)
    requires 1900 <= year
    ensures SumOfMonths(rows, offset, year, v, m, 12) == Of(AnnualReport(rows, offset, year, v).value, m)
  {
    MonthsUpTo(rows, offset, year, v, m, 12);
    SumSame(rows, InYearUpTo(offset, year, 12, v), InYear(offset, year, v), Per(m));
  }

  // ---------------------------------------------------------------- why the session is pinned to UTC

  /** Daily and monthly reports agree on every table when sessions are `offset` minutes east of UTC. */
  ghost predicate DailyAgrees(offset: int) {
    forall rows: seq<Charge>, year: int, month: int, v: string, m: Measure ::
      1900 <= year <= LAST_DATE_YEAR && 1 <= month <= 12 ==>
        SumOfDays(rows, year, month, v, m, LastDayOfMonth(year, month))
        == Of(MonthlyReport(rows, offset, year, month, v).value, m)
  }

  /** An instant by the start of February 2024 that the session puts on the other side of it. */
  lemma MonthBoundary(offset: int) returns (start: int)
    requires -1440 < offset < 1440 && offset != 0
    ensures StartsInMonth(start, 0, 2024, 2) != StartsInMonth(start, offset, 2024, 2)
  {
    var jan31, feb1 := Date(2024, 1, 31), Date(2024, 2, 1);
    NextDayIsNextNumber(jan31);
    CivilOfDayNumber(jan31);
    CivilOfDayNumber(feb1);
    var n := DayNumber(feb1);
    start := if offset > 0 then n * DAY_MICROS - 1 else n * DAY_MICROS;
    FloorIs(start, if offset > 0 then n - 1 else n);
    FloorIs(start + offset * MINUTE_MICROS, if offset > 0 then n else n - 1);
  }

  lemma OneRowMonth(c: Charge, offset: int, year: int, month: int)
    requires 1900 <= year && 1 <= month <= 12
    ensures MonthlyReport([c], offset, year, month, "").value.count
         == if StartsInMonth(c.startTime, offset, year, month) then 1 else 0
  {
    var p := InMonth(offset, year, month, "");
    assert [c][1..] == [];
    assert Sum([c], p, One()) == if p(c) then One<Charge>()(c) else 0;
  }

  /** A charging row that the session puts in another month tells the two reports apart. */
  lemma OffsetMovesARow(offset: int, c: Charge, year: int, month: int)
    requires 1900 <= year <= LAST_DATE_YEAR && 1 <= month <= 12
    requires StartsInMonth(c.startTime, 0, year, month) != StartsInMonth(c.startTime, offset, year, month)
    ensures !DailyAgrees(offset)
  {
    DaysMakeMonth([c], year, month, "", TheCount);
    OneRowMonth(c, 0, year, month);
    OneRowMonth(c, offset, year, month);
  }

  lemma UtcAgrees()
    ensures DailyAgrees(0)
  {
    forall rows: seq<Charge>, year: int, month: int, v: string, m: Measure
      | 1900 <= year <= LAST_DATE_YEAR && 1 <= month <= 12
      ensures SumOfDays(rows, year, month, v, m, LastDayOfMonth(year, month))
           == Of(MonthlyReport(rows, 0, year, month, v).value, m)
    {
      DaysMakeMonth(rows, year, month, v, m);
    }
  }

  /** The daily and monthly reports agree on every table exactly when the session is pinned to UTC. */
  lemma DailyAgreesExactly(offset: int)
    requires -1440 < offset < 1440
    ensures DailyAgrees(offset) <==> offset == 0
  {
    if offset == 0 {
      UtcAgrees();
    } else {
      var start := MonthBoundary(offset);
      OffsetMovesARow(offset, Charge("0", start, start + 1, 0, 1, 1, 1, Fast, "0"), 2024, 2);
    }
  }

  // ---------------------------------------------------------------- the older period reports

  datatype Period = Period(year: int, month: int, vehicleId: string, cost: int, kwh: int, km: int)

  /** The vehicle clause that the older reports append to their sums, only when a vehicle is given. */
  predicate Appended(vehicleId: string, v: Uuid) { vehicleId != "" ==> v == vehicleId }

  ghost function ChargesInMonth(offset: int, year: int, month: int, v: string): Charge -> bool {
    (c: Charge) => StartsInMonth(c.startTime, offset, year, month) && Appended(v, c.vehicleId)
  }

  ghost function ChargesInYear(offset: int, year: int, v: string): Charge -> bool {
    (c: Charge) => LocalDate(c.startTime, offset).year == year && Appended(v, c.vehicleId)
  }

  ghost function TripsInMonth(offset: int, year: int, month: int, v: string): Trip -> bool {
    (t: Trip) => StartsInMonth(t.start, offset, year, month) && Appended(v, t.vehicleId)
  }

  ghost function TripsInYear(offset: int, year: int, v: string): Trip -> bool {
    (t: Trip) => LocalDate(t.start, offset).year == year && Appended(v, t.vehicleId)
  }

  /** Refused when no charging row passes the EXISTS gate, whatever the period has in trips. */
  ghost function PeriodOf(charges: seq<Charge>, trips: seq<Trip>, gate: Charge -> bool, p: Charge -> bool,
                          q: Trip -> bool,
                          year: int, month: int, v: string): Result<Period> {
    if !Matches(charges, gate) then Failure(InvalidArgument)
    else Success(Period(year, month, v, Sum(charges, p, Cost()), Sum(charges, p, Kwh()), Sum(trips, q, Km())))
  }

  ghost function MonthlyPeriod(charges: seq<Charge>, trips: seq<Trip>, offset: int, year: int, month: int,
                               v: string): Result<Period> {
    if year < 1900 || month < 1 || month > 12 then Failure(InvalidArgument)
    else
      PeriodOf(charges, trips, InMonth(offset, year, month, v), ChargesInMonth(offset, year, month, v),
               TripsInMonth(offset, year, month, v), year, month, v)
  }

  ghost function AnnualPeriod(charges: seq<Charge>, trips: seq<Trip>, offset: int, year: int,
                              v: string): Result<Period> {
    if year < 1900 then Failure(InvalidArgument)
    else
      PeriodOf(charges, trips, InYear(offset, year, v), ChargesInYear(offset, year, v), TripsInYear(offset, year, v),
               year, 0, v)
  }

  /** Old and new monthly report: the old one answers exactly when the new one counts a row, with the same totals. */
  lemma PeriodsAgree(charges: seq<Charge>, trips: seq<Trip>, offset: int, year: int, month: int, v: string)
    ensures var old' := MonthlyPeriod(charges, trips, offset, year, month, v);
            var new' := MonthlyReport(charges, offset, year, month, v);
            && (old'.Success? <==> new'.Success? && new'.value.count > 0)
            && (old'.Success? ==> old'.value.cost == new'.value.cost && old'.value.kwh == new'.value.kwh)
  {
    CountIsPositive(charges, InMonth(offset, year, month, v));
    SumSame(charges, InMonth(offset, year, month, v), ChargesInMonth(offset, year, month, v), Cost());
    SumSame(charges, InMonth(offset, year, month, v), ChargesInMonth(offset, year, month, v), Kwh());
  }

  lemma YearsAgree(charges: seq<Charge>, trips: seq<Trip>, offset: int, year: int, v: string)
    ensures var old' := AnnualPeriod(charges, trips, offset, year, v);
            var new' := AnnualReport(charges, offset, year, v);
            && (old'.Success? <==> new'.Success? && new'.value.count > 0)
            && (old'.Success? ==> old'.value.cost == new'.value.cost && old'.value.kwh == new'.value.kwh)
  {
    CountIsPositive(charges, InYear(offset, year, v));
    SumSame(charges, InYear(offset, year, v), ChargesInYear(offset, year, v), Cost());
    SumSame(charges, InYear(offset, year, v), ChargesInYear(offset, year, v), Kwh());
  }

  // ---------------------------------------------------------------- row by row

  /** The date of an instant in microseconds, in a session `offset` minutes east of UTC. */
  ghost function DateOf(micros: int, offset: int): Date { CivilOf((micros + offset * 60_000_000) / 86_400_000_000) }

  /** Every vehicle when none is named. */
  predicate Asked(v: string, vehicleId: string) { v == "" || v == vehicleId }

  /** What one more charging row adds to a report: its cost, its energy and one, or nothing. */
  predicate Adds(r: Report, before: Report, c: Charge, covered: bool) {
    && r.cost == before.cost + (if covered then c.cost else 0)
    && r.kwh == before.kwh + (if covered then c.kwh else 0)
    && r.count == before.count + (if covered then 1 else 0)
  }

  predicate IsFor(r: Report, year: int, month: int, day: int, v: string) {
    r.year == year && r.month == month && r.day == day && r.vehicleId == v
  }

  lemma TotalsGrow(a: seq<Charge>, c: Charge, b: seq<Charge>, p: Charge -> bool, d: Date, v: string)
    ensures Adds(Totals(a + [c] + b, p, d, v), Totals(a + b, p, d, v), c, p(c))
    ensures IsFor(Totals(a + b, p, d, v), d.year, d.month, d.day, v)
    ensures var r := Totals([], p, d, v); r.cost == r.kwh == r.count == 0
  {
    SumGrows(a, c, b, p, Cost());
    SumGrows(a, c, b, p, Kwh());
    SumGrows(a, c, b, p, One());
  }

  /** A row counts in the daily report of the UTC day it starts in, and in no other. */
  lemma DailyGrows(a: seq<Charge>, c: Charge, b: seq<Charge>, d: Date, v: string)
    requires 1900 <= d.year <= 5_874_897 && Valid(d)
    ensures var r, before := DailyReport(a + [c] + b, d.year, d.month, d.day, v),
                             DailyReport(a + b, d.year, d.month, d.day, v);
            && r.Success? && before.Success? && IsFor(r.value, d.year, d.month, d.day, v)
            && Adds(r.value, before.value, c, DateOf(c.startTime, 0) == d && Asked(v, c.vehicleId))
  {
    TotalsGrow(a, c, b, InDay(d, v), d, v);
  }

  /** In the monthly report of the month it starts in by the session's clock; the month has no day. */
  lemma MonthlyGrows(a: seq<Charge>, c: Charge, b: seq<Charge>, offset: int, year: int, month: int, v: string)
    ensures var r, before := MonthlyReport(a + [c] + b, offset, year, month, v),
                             MonthlyReport(a + b, offset, year, month, v);
            && (r.Success? <==> year >= 1900 && 1 <= month <= 12) && (before.Success? <==> r.Success?) && Refused(r)
            && (r.Success? ==>
                  && IsFor(r.value, year, month, 0, v)
                  && Adds(r.value, before.value, c,
                          DateOf(c.startTime, offset).year == year && DateOf(c.startTime, offset).month == month
                          && Asked(v, c.vehicleId)))
  {
    TotalsGrow(a, c, b, InMonth(offset, year, month, v), Date(year, month, 0), v);
  }

  lemma AnnualGrows(a: seq<Charge>, c: Charge, b: seq<Charge>, offset: int, year: int, v: string)
    ensures var r, before := AnnualReport(a + [c] + b, offset, year, v), AnnualReport(a + b, offset, year, v);
            && (r.Success? <==> year >= 1900) && (before.Success? <==> r.Success?) && Refused(r)
            && (r.Success? ==>
                  && IsFor(r.value, year, 0, 0, v)
                  && Adds(r.value, before.value, c, DateOf(c.startTime, offset).year == year && Asked(v, c.vehicleId)))
  {
    TotalsGrow(a, c, b, InYear(offset, year, v), Date(year, 0, 0), v);
  }

  /** Over no rows every report is zero. */
  lemma EmptyReports(d: Date, offset: int, v: string)
    requires 1900 <= d.year <= 5_874_897 && Valid(d)
    ensures DailyReport([], d.year, d.month, d.day, v) == Success(Report(d.year, d.month, d.day, v, 0, 0, 0))
    ensures MonthlyReport([], offset, d.year, d.month, v) == Success(Report(d.year, d.month, 0, v, 0, 0, 0))
    ensures AnnualReport([], offset, d.year, v) == Success(Report(d.year, 0, 0, v, 0, 0, 0))
  {
  }

  /** What one more trip adds to a period: the distance by its mileages, or nothing; nothing to cost and energy. */
  predicate AddsTrip(r: Period, before: Period, t: Trip, covered: bool) {
    r == before.(km := before.km + if covered then t.endMileage - t.beginMileage else 0)
  }

  predicate AddsCharge(r: Period, before: Period, c: Charge, covered: bool) {
    r == before.(cost := before.cost + (if covered then c.cost else 0),
                 kwh := before.kwh + if covered then c.kwh else 0)
  }

  lemma PeriodGrows(a: seq<Charge>, c: Charge, b: seq<Charge>, trips: seq<Trip>, gate: Charge -> bool,
                    p: Charge -> bool, q: Trip -> bool, year: int, month: int, v: string)
    requires Matches(a + b, gate)
    ensures var r, before := PeriodOf(a + [c] + b, trips, gate, p, q, year, month, v),
                             PeriodOf(a + b, trips, gate, p, q, year, month, v);
            r.Success? && before.Success? && AddsCharge(r.value, before.value, c, p(c))
  {
    MatchesGrows(a, c, b, gate);
    SumGrows(a, c, b, p, Cost());
    SumGrows(a, c, b, p, Kwh());
  }

  lemma PeriodGrowsByTrip(charges: seq<Charge>, a: seq<Trip>, t: Trip, b: seq<Trip>, gate: Charge -> bool,
                          p: Charge -> bool, q: Trip -> bool, year: int, month: int, v: string)
    requires Matches(charges, gate)
    ensures var r, before := PeriodOf(charges, a + [t] + b, gate, p, q, year, month, v),
                             PeriodOf(charges, a + b, gate, p, q, year, month, v);
            r.Success? && before.Success? && AddsTrip(r.value, before.value, t, q(t))
  {
    SumGrows(a, t, b, q, Km());
  }

  /** The older monthly report answers exactly when a charging row of the month and vehicle is there. */
  lemma MonthlyPeriodAnswers(charges: seq<Charge>, trips: seq<Trip>, offset: int, year: int, month: int, v: string)
    ensures var r := MonthlyPeriod(charges, trips, offset, year, month, v);
            && (r.Success? <==>
                  && year >= 1900 && 1 <= month <= 12
                  && exists i :: 0 <= i < |charges| && DateOf(charges[i].startTime, offset).year == year
                       && DateOf(charges[i].startTime, offset).month == month && Asked(v, charges[i].vehicleId))
            && (r.Success? ==> r.value.year == year && r.value.month == month && r.value.vehicleId == v)
            && Refused(r)
  {
  }

  lemma AnnualPeriodAnswers(charges: seq<Charge>, trips: seq<Trip>, offset: int, year: int, v: string)
    ensures var r := AnnualPeriod(charges, trips, offset, year, v);
            && (r.Success? <==>
                  && year >= 1900
                  && exists i :: 0 <= i < |charges| && DateOf(charges[i].startTime, offset).year == year
                       && Asked(v, charges[i].vehicleId))
            && (r.Success? ==> r.value.year == year && r.value.month == 0 && r.value.vehicleId == v)
            && Refused(r)
  {
  }

  /** Row by row, as long as the report answers: a charge adds cost and energy, a trip its distance. */
  lemma MonthlyPeriodGrows(a: seq<Charge>, c: Charge, b: seq<Charge>, s: seq<Trip>, t: Trip, u: seq<Trip>, offset: int,
                           year: int, month: int, v: string)
    ensures var before := MonthlyPeriod(a + b, s + u, offset, year, month, v);
            var withCharge := MonthlyPeriod(a + [c] + b, s + u, offset, year, month, v);
            var withTrip := MonthlyPeriod(a + b, s + [t] + u, offset, year, month, v);
            var d, e := DateOf(c.startTime, offset), DateOf(t.start, offset);
            before.Success? ==>
              && withCharge.Success? && withTrip.Success?
              && AddsCharge(withCharge.value, before.value, c,
                            d.year == year && d.month == month && Asked(v, c.vehicleId))
              && AddsTrip(withTrip.value, before.value, t,
                          e.year == year && e.month == month && Asked(v, t.vehicleId))
  {
    var gate, p, q := InMonth(offset, year, month, v), ChargesInMonth(offset, year, month, v),
                      TripsInMonth(offset, year, month, v);
    if MonthlyPeriod(a + b, s + u, offset, year, month, v).Success? {
      PeriodGrows(a, c, b, s + u, gate, p, q, year, month, v);
      PeriodGrowsByTrip(a + b, s, t, u, gate, p, q, year, month, v);
    }
  }

  lemma AnnualPeriodGrows(a: seq<Charge>, c: Charge, b: seq<Charge>, s: seq<Trip>, t: Trip, u: seq<Trip>, offset: int,
                          year: int, v: string)
    ensures var before := AnnualPeriod(a + b, s + u, offset, year, v);
            var withCharge := AnnualPeriod(a + [c] + b, s + u, offset, year, v);
            var withTrip := AnnualPeriod(a + b, s + [t] + u, offset, year, v);
            before.Success? ==>
              && withCharge.Success? && withTrip.Success?
              && AddsCharge(withCharge.value, before.value, c,
                            DateOf(c.startTime, offset).year == year && Asked(v, c.vehicleId))
              && AddsTrip(withTrip.value, before.value, t,
                          DateOf(t.start, offset).year == year && Asked(v, t.vehicleId))
  {
    var gate, p, q := InYear(offset, year, v), ChargesInYear(offset, year, v), TripsInYear(offset, year, v);
    if AnnualPeriod(a + b, s + u, offset, year, v).Success? {
      PeriodGrows(a, c, b, s + u, gate, p, q, year, 0, v);
      PeriodGrowsByTrip(a + b, s, t, u, gate, p, q, year, 0, v);
    }
  }

  /** Over one charge that it covers and no trips, a period is that charge. */
  lemma OneChargePeriod(c: Charge, offset: int, year: int, month: int, v: string)
    requires year >= 1900 && 1 <= month <= 12 && Asked(v, c.vehicleId)
    requires DateOf(c.startTime, offset).year == year && DateOf(c.startTime, offset).month == month
    ensures MonthlyPeriod([c], [], offset, year, month, v) == Success(Period(year, month, v, c.cost, c.kwh, 0))
    ensures AnnualPeriod([c], [], offset, year, v) == Success(Period(year, 0, v, c.cost, c.kwh, 0))
  {
    assert [c][1..] == [];
    assert InMonth(offset, year, month, v)([c][0]) && InYear(offset, year, v)([c][0]);
    OneTerm(c, ChargesInMonth(offset, year, month, v));
    OneTerm(c, ChargesInYear(offset, year, v));
  }

  lemma OneTerm(c: Charge, p: Charge -> bool)
    requires p(c)
    ensures Sum([c], p, Cost()) == c.cost && Sum([c], p, Kwh()) == c.kwh
  {
    var none: seq<Charge> := [];
    SumGrows(none, c, none, p, Cost());
    SumGrows(none, c, none, p, Kwh());
    assert none + [c] + none == [c] && none + none == none;
  }

  // ---------------------------------------------------------------- distances that no month reports

  /** Distance of the first n months that the monthly period report answers, and of those it refuses. */
  ghost function AnsweredKm(charges: seq<Charge>, trips: seq<Trip>, offset: int, year: int, v: string, n: nat): int {
    if n == 0 then 0
    else
      var period := MonthlyPeriod(charges, trips, offset, year, n, v);
      AnsweredKm(charges, trips, offset, year, v, n - 1) + if period.Success? then period.value.km else 0
  }

  /** A trip in a month in which the vehicle filter has no charging row. */
  ghost function Unreported(charges: seq<Charge>, offset: int, year: int, v: string, n: int): Trip -> bool {
    (t: Trip) =>
      var d := LocalDate(t.start, offset);
      d.year == year && d.month <= n && Wanted(v, t.vehicleId) && !Matches(charges, InMonth(offset, year, d.month, v))
  }

  ghost function Reported(charges: seq<Charge>, offset: int, year: int, v: string, n: int): Trip -> bool {
    (t: Trip) =>
      var d := LocalDate(t.start, offset);
      d.year == year && d.month <= n && Wanted(v, t.vehicleId) && Matches(charges, InMonth(offset, year, d.month, v))
  }

  lemma {:induction false} AnsweredUpTo(charges: seq<Charge>, trips: seq<Trip>, offset: int, year: int, v: string,
                                        n: nat)
    requires 1900 <= year && n <= 12
    ensures AnsweredKm(charges, trips, offset, year, v, n) == Sum(trips, Reported(charges, offset, year, v, n), Km())
  {
    var before, now := Reported(charges, offset, year, v, n - 1), Reported(charges, offset, year, v, n);
    if n == 0 {
      SumNone(trips, now, Km());
    } else {
      AnsweredUpTo(charges, trips, offset, year, v, n - 1);
      if Matches(charges, InMonth(offset, year, n, v)) {
        SumSplit(trips, now, before, TripsInMonth(offset, year, n, v), Km());
      } else {
        SumSame(trips, now, before, Km());
      }
    }
  }

  /** The annual distance is what the monthly reports answer plus the trips of months without charging. */
  lemma AnnualKmIsAnsweredPlusUnreported(charges: seq<Charge>, trips: seq<Trip>, offset: int, year: int, v: string)
    requires AnnualPeriod(charges, trips, offset, year, v).Success?
    ensures AnnualPeriod(charges, trips, offset, year, v).value.km
         == AnsweredKm(charges, trips, offset, year, v, 12) + Sum(trips, Unreported(charges, offset, year, v, 12), Km())
  {
    AnsweredUpTo(charges, trips, offset, year, v, 12);
    SumSplit(trips, TripsInYear(offset, year, v), Reported(charges, offset, year, v, 12),
             Unreported(charges, offset, year, v, 12), Km());
  }

  /**
   The monthly reports answer the annual distance exactly when the trips of months without charging
   add up to nothing; when no trip runs backwards, exactly when none of those trips moved.
   */
  lemma DistanceMissingExactly(charges: seq<Charge>, trips: seq<Trip>, offset: int, year: int, v: string)
    requires AnnualPeriod(charges, trips, offset, year, v).Success?
    ensures AnsweredKm(charges, trips, offset, year, v, 12) == AnnualPeriod(charges, trips, offset, year, v).value.km
       <==> Sum(trips, Unreported(charges, offset, year, v, 12), Km()) == 0
    ensures (forall i :: 0 <= i < |trips| ==> Km()(trips[i]) >= 0) ==>
              (AnsweredKm(charges, trips, offset, year, v, 12) == AnnualPeriod(charges, trips, offset, year, v).value.km
               <==> forall i ::
                      0 <= i < |trips| && Unreported(charges, offset, year, v, 12)(trips[i]) ==> Km()(trips[i]) == 0)
  {
    AnnualKmIsAnsweredPlusUnreported(charges, trips, offset, year, v);
    if forall i :: 0 <= i < |trips| ==> Km()(trips[i]) >= 0 {
      SumIsZero(trips, Unreported(charges, offset, year, v, 12), Km());
    }
  }

  /** One charge on 2024-01-01, and a trip of 10 km on 2024-02-01. */
  const JANUARY_CHARGE := Charge("0", 1_704_067_200_000_000, 1_704_067_260_000_000, 0, 1, 1, 1, Fast, "0")
  const FEBRUARY_TRIP := Trip("0", 1_706_745_600_000_000, 1_706_745_660_000_000, 2, 1, 0, 10, 10, 0, 1, 0, "0")

  lemma FirstDays()
    ensures LocalDate(JANUARY_CHARGE.startTime, 0) == Date(2024, 1, 1)
    ensures LocalDate(FEBRUARY_TRIP.start, 0) == Date(2024, 2, 1)
  {
    PosixDaysAreSums(Date(2024, 1, 1));
    PosixDaysAreSums(Date(2024, 2, 1));
    assert PosixDays(2024, 1, 1) == 19723 && PosixDays(2024, 2, 1) == 19754;
    CivilOfDayNumber(Date(2024, 1, 1));
    CivilOfDayNumber(Date(2024, 2, 1));
  }

  /** The months fall short of the year: nobody charged in February. */
  lemma SomeDistanceIsMissing()
    ensures var charges, trips := [JANUARY_CHARGE], [FEBRUARY_TRIP];
            && AnnualPeriod(charges, trips, 0, 2024, "").Success?
            && AnsweredKm(charges, trips, 0, 2024, "", 12) < AnnualPeriod(charges, trips, 0, 2024, "").value.km
  {
    var charges, trips := [JANUARY_CHARGE], [FEBRUARY_TRIP];
    FirstDays();
    assert InYear(0, 2024, "")(charges[0]);
    assert !InMonth(0, 2024, 2, "")(charges[0]);
    assert Unreported(charges, 0, 2024, "", 12)(trips[0]);
    AnnualKmIsAnsweredPlusUnreported(charges, trips, 0, 2024, "");
    assert Sum(trips, Unreported(charges, 0, 2024, "", 12), Km()) == 10;
  }
}
