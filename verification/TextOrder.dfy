/**
 ORDER BY on a column that is selected as text compares characters, not instants. For dates and
 instants of the years 1 to 9999 the two orders are the same.
 */
module TextOrder {
  import opened Calendar
  import opened Decimal
  import opened Paging
  import opened Timestamp

  // ---------------------------------------------------------------- comparing texts

  /** Character by character, a prefix before what extends it. */
  predicate TextLess(a: string, b: string) {
    b != "" && (a == "" || a[0] < b[0] || (a[0] == b[0] && TextLess(a[1..], b[1..])))
  }

  lemma {:induction false} LessIsTotal(a: string, b: string)
    ensures TextLess(a, b) ==> !TextLess(b, a) && a != b
    ensures TextLess(a, b) || TextLess(b, a) || a == b
  {
    if a != "" && b != "" {
      LessIsTotal(a[1..], b[1..]);
      assert a == [a[0]] + a[1..] && b == [b[0]] + b[1..];
    }
  }

  /** After blocks of equal length the first difference decides. */
  lemma {:induction false} Blocks(a: string, x: string, b: string, y: string)
    requires |a| == |b|
    ensures TextLess(a + x, b + y) <==> TextLess(a, b) || (a == b && TextLess(x, y))
  {
    if a == "" {
      assert a + x == x && b + y == y;
    } else {
      Blocks(a[1..], x, b[1..], y);
      assert (a + x)[1..] == a[1..] + x && (b + y)[1..] == b[1..] + y;
      assert a == [a[0]] + a[1..] && b == [b[0]] + b[1..];
    }
  }

  lemma DigitOrder(m: nat, n: nat)
    requires m < 10 && n < 10
    ensures TextLess([Digit(m)], [Digit(n)]) <==> m < n
    ensures [Digit(m)] == [Digit(n)] <==> m == n
  {
    assert [Digit(m)][0] == Digit(m) && [Digit(n)][0] == Digit(n);
  }

  lemma TwoOrder(m: nat, n: nat)
    requires m < 100 && n < 100
    ensures TextLess(Two(m), Two(n)) <==> m < n
    ensures Two(m) == Two(n) <==> m == n
  {
    DigitOrder(m / 10, n / 10);
    DigitOrder(m % 10, n % 10);
    assert Two(m) == [Digit(m / 10)] + [Digit(m % 10)] && Two(n) == [Digit(n / 10)] + [Digit(n % 10)];
    Blocks([Digit(m / 10)], [Digit(m % 10)], [Digit(n / 10)], [Digit(n % 10)]);
    if Two(m) == Two(n) {
      TwoValue(m);
      TwoValue(n);
    }
  }

  lemma FourOrder(m: nat, n: nat)
    requires m < 10000 && n < 10000
    ensures TextLess(Four(m), Four(n)) <==> m < n
    ensures Four(m) == Four(n) <==> m == n
  {
    TwoOrder(m / 100, n / 100);
    TwoOrder(m % 100, n % 100);
    Blocks(Two(m / 100), Two(m % 100), Two(n / 100), Two(n % 100));
    if Four(m) == Four(n) {
      FourValue(m);
      FourValue(n);
    }
  }

  /** A two-digit field and a separator decide before what follows. */
  lemma FieldThen(m: nat, x: string, n: nat, y: string, sep: char)
    requires m < 100 && n < 100
    ensures TextLess(Two(m) + ([sep] + x), Two(n) + ([sep] + y)) <==> m < n || (m == n && TextLess(x, y))
  {
    TwoOrder(m, n);
    Blocks(Two(m), [sep] + x, Two(n), [sep] + y);
    Blocks([sep], x, [sep], y);
    assert !TextLess([sep], [sep]) by { LessIsTotal([sep], [sep]); }
  }

  // ---------------------------------------------------------------- dates

  /** `DATE::text` */
  function DateText(d: Date): string
    requires 1 <= d.year <= 9999 && Valid(d)
  {
    Four(d.year) + (['-'] + (Two(d.month) + (['-'] + Two(d.day))))
  }

  lemma DateLess(a: Date, b: Date)
    requires Valid(a) && Valid(b) && 1 <= a.year <= 9999 && 1 <= b.year <= 9999
    ensures TextLess(DateText(a), DateText(b)) <==> Before(a, b)
  {
    var x, y := Two(a.month) + (['-'] + Two(a.day)), Two(b.month) + (['-'] + Two(b.day));
    FourOrder(a.year, b.year);
    TwoOrder(a.day, b.day);
    FieldThen(a.month, Two(a.day), b.month, Two(b.day), '-');
    Blocks(Four(a.year), ['-'] + x, Four(b.year), ['-'] + y);
    SameFirst('-', x, y);
  }

  lemma SameFirst(c: char, x: string, y: string)
    ensures TextLess([c] + x, [c] + y) <==> TextLess(x, y)
  {
    assert ([c] + x)[1..] == x && ([c] + y)[1..] == y;
  }

  /** The text order of dates is the calendar's, and texts tell dates apart. */
  lemma DateTextOrder(a: Date, b: Date)
    requires Valid(a) && Valid(b) && 1 <= a.year <= 9999 && 1 <= b.year <= 9999
    ensures TextLess(DateText(a), DateText(b)) <==> Before(a, b)
    ensures DateText(a) == DateText(b) <==> a == b
  {
    DateLess(a, b);
    DateLess(b, a);
    LessIsTotal(DateText(a), DateText(b));
  }

  // ---------------------------------------------------------------- the fraction

  const UTC_SUFFIX := "+00"

  predicate AllZeros(s: string) { forall i :: 0 <= i < |s| ==> s[i] == '0' }

  lemma {:induction false} TrimHead(c: char, s: string)
    ensures TrimZeros([c] + s) == if c == '0' && TrimZeros(s) == "" then "" else [c] + TrimZeros(s)
    ensures TrimZeros(s) == "" <==> AllZeros(s)
    decreases |s|
  {
    var t := [c] + s;
    if s != "" {
      var init := s[..|s| - 1];
      TrimHead(c, init);
      assert t[..|t| - 1] == [c] + init;
      assert s == init + [s[|s| - 1]];
    } else {
      assert t[..|t| - 1] == "";
    }
  }

  lemma {:induction false} ZerosAreLeast(a: string, b: string)
    requires |a| == |b| && AllZeros(a) && AllDigits(b)
    ensures !TextLess(b, a) && (TextLess(a, b) <==> !AllZeros(b))
  {
    if a != "" {
      ZerosAreLeast(a[1..], b[1..]);
      assert b == [b[0]] + b[1..];
    }
  }

  lemma SuffixFirst(a: string)
    requires AllDigits(a)
    ensures TrimZeros(a) != "" ==> TextLess(UTC_SUFFIX, TrimZeros(a) + UTC_SUFFIX)
    ensures !TextLess(TrimZeros(a) + UTC_SUFFIX, UTC_SUFFIX)
  {
    TrimZerosIsDigits(a);
    var t := TrimZeros(a) + UTC_SUFFIX;
    if TrimZeros(a) == "" {
      assert t == UTC_SUFFIX;
    } else {
      assert t[0] == TrimZeros(a)[0] && IsDigit(t[0]);
    }
    LessIsTotal(UTC_SUFFIX, t);
  }

  lemma TrimmedHeads(a: string)
    requires a != "" && AllDigits(a)
    ensures TrimZeros(a) == "" <==> AllZeros(a)
    ensures TrimZeros(a) != "" ==> TrimZeros(a) + UTC_SUFFIX == [a[0]] + (TrimZeros(a[1..]) + UTC_SUFFIX)
  {
    TrimHead(a[0], a[1..]);
    assert a == [a[0]] + a[1..];
  }

  /** Dropping trailing zeros keeps the order, because the suffix sorts before every digit. */
  lemma {:induction false} TrimmedOrder(a: string, b: string)
    requires |a| == |b| && AllDigits(a) && AllDigits(b)
    ensures TextLess(TrimZeros(a) + UTC_SUFFIX, TrimZeros(b) + UTC_SUFFIX) <==> TextLess(a, b)
  {
    if a == "" {
      LessIsTotal(TrimZeros(a) + UTC_SUFFIX, TrimZeros(b) + UTC_SUFFIX);
    } else {
      TrimmedHeads(a);
      TrimmedHeads(b);
      if TrimZeros(a) == "" {
        ZerosAreLeast(a, b);
        SuffixFirst(b);
        assert TrimZeros(a) + UTC_SUFFIX == UTC_SUFFIX;
      } else if TrimZeros(b) == "" {
        ZerosAreLeast(b, a);
        SuffixFirst(a);
        assert TrimZeros(b) + UTC_SUFFIX == UTC_SUFFIX;
      } else {
        TrimmedOrder(a[1..], b[1..]);
        Blocks([a[0]], TrimZeros(a[1..]) + UTC_SUFFIX, [b[0]], TrimZeros(b[1..]) + UTC_SUFFIX);
        Blocks([a[0]], a[1..], [b[0]], b[1..]);
        assert a == [a[0]] + a[1..] && b == [b[0]] + b[1..];
      }
    }
  }

  lemma SixOrder(f: nat, g: nat)
    requires f < 1_000_000 && g < 1_000_000
    ensures TextLess(SixDigits(f), SixDigits(g)) <==> f < g
    ensures AllZeros(SixDigits(f)) <==> f == 0
  {
    var a, b, c := f / 10000, f / 100 % 100, f % 100;
    var a', b', c' := g / 10000, g / 100 % 100, g % 100;
    SixParts(f);
    SixParts(g);
    TwoOrder(a, a'); TwoOrder(b, b'); TwoOrder(c, c');
    Blocks(Two(a) + Two(b), Two(c), Two(a') + Two(b'), Two(c'));
    Blocks(Two(a), Two(b), Two(a'), Two(b'));
    assert Two(a) + Two(b) == Two(a') + Two(b') <==> Two(a) == Two(a') && Two(b) == Two(b') by {
      assert (Two(a) + Two(b))[..2] == Two(a) && (Two(a) + Two(b))[2..] == Two(b);
      assert (Two(a') + Two(b'))[..2] == Two(a') && (Two(a') + Two(b'))[2..] == Two(b');
    }
  }

  lemma SixParts(f: nat)
    requires f < 1_000_000
    ensures f == f / 10000 * 10000 + f / 100 % 100 * 100 + f % 100
    ensures AllZeros(SixDigits(f)) <==> f == 0
  {
    assert f / 100 / 100 == f / 10000;
    var s := SixDigits(f);
    var a, b, c := f / 10000, f / 100 % 100, f % 100;
    assert s[0] == Digit(a / 10) && s[1] == Digit(a % 10) && s[2] == Digit(b / 10) && s[3] == Digit(b % 10);
    assert s[4] == Digit(c / 10) && s[5] == Digit(c % 10);
  }

  lemma FractionOrder(f: nat, g: nat)
    requires f < 1_000_000 && g < 1_000_000
    ensures TextLess(Fraction(f) + UTC_SUFFIX, Fraction(g) + UTC_SUFFIX) <==> f < g
  {
    var x, y := TrimZeros(SixDigits(f)) + UTC_SUFFIX, TrimZeros(SixDigits(g)) + UTC_SUFFIX;
    SixOrder(f, g);
    TrimmedOrder(SixDigits(f), SixDigits(g));
    if f > 0 { assert Fraction(f) + UTC_SUFFIX == ['.'] + x; }
    if g > 0 { assert Fraction(g) + UTC_SUFFIX == ['.'] + y; }
    if f > 0 && g > 0 {
      Blocks(['.'], x, ['.'], y);
      LessIsTotal(['.'], ['.']);
    } else if f == 0 && g == 0 {
      LessIsTotal(UTC_SUFFIX, UTC_SUFFIX);
      assert Fraction(f) + UTC_SUFFIX == UTC_SUFFIX;
    } else {
      assert "" + UTC_SUFFIX == UTC_SUFFIX;
    }
  }

  // ---------------------------------------------------------------- instants

  /** The fields of a wall clock in the order of their weight. */
  predicate ClockBefore(a: Tm, b: Tm) {
    || a.hour < b.hour
    || (a.hour == b.hour && (a.minute < b.minute || (a.minute == b.minute && a.second < b.second)))
  }

  function ClockText(tm: Tm, rest: string): string
    requires StrictTm(tm)
  {
    Two(tm.hour) + ([':'] + (Two(tm.minute) + ([':'] + (Two(tm.second) + rest))))
  }

  lemma ClockOrder(a: Tm, x: string, b: Tm, y: string)
    requires StrictTm(a) && StrictTm(b)
    ensures TextLess(ClockText(a, x), ClockText(b, y))
       <==> ClockBefore(a, b)
            || (a.hour == b.hour && a.minute == b.minute && a.second == b.second && TextLess(x, y))
  {
    TwoOrder(a.second, b.second);
    Blocks(Two(a.second), x, Two(b.second), y);
    FieldThen(a.minute, Two(a.second) + x, b.minute, Two(b.second) + y, ':');
    FieldThen(a.hour, Two(a.minute) + ([':'] + (Two(a.second) + x)), b.hour,
              Two(b.minute) + ([':'] + (Two(b.second) + y)), ':');
  }

  /** `TIMESTAMPTZ::text` in a session pinned to UTC, by microseconds. */
  ghost function TimeText(micros: int): string
    requires InRange(micros)
  {
    PgText(Instant(micros / 1_000_000, micros % 1_000_000), 0)
  }

  /** The years that a protobuf timestamp can name. */
  ghost predicate InRange(micros: int) { 1 <= LocalTm(micros / 1_000_000).year <= 9999 }

  lemma FirstAndLastDay()
    ensures DayNumber(Date(1, 1, 1)) == -719162 && DayNumber(Date(10000, 1, 1)) == 2932897
  {
    PosixDaysAreSums(Date(1, 1, 1));
    PosixDaysAreSums(Date(10000, 1, 1));
    assert PosixDays(1, 1, 1) == -719162 && PosixDays(10000, 1, 1) == 2932897;
  }

  lemma YearsOfDays(day: int, first: Date, end: Date)
    requires first == Date(1, 1, 1) && end == Date(10000, 1, 1)
    ensures 1 <= CivilOf(day).year <= 9999 <==> DayNumber(first) <= day < DayNumber(end)
  {
    NumberOfCivil(day);
    DayNumberOrder(CivilOf(day), first);
    DayNumberOrder(CivilOf(day), end);
  }

  /** Those are the instants from 0001-01-01 to 9999-12-31, the bounds of google.protobuf.Timestamp. */
  lemma InRangeExactly(micros: int)
    ensures InRange(micros) <==> -62_135_596_800_000_000 <= micros < 253_402_300_800_000_000
  {
    FirstAndLastDay();
    YearsOfDays(micros / 1_000_000 / 86400, Date(1, 1, 1), Date(10000, 1, 1));
  }

  /** Left to right or right to left, the pieces join to the same text. */
  lemma Rejoined(y: string, mo: string, d: string, h: string, mi: string, s: string, f: string, z: string)
    ensures y + "-" + mo + "-" + d + " " + h + ":" + mi + ":" + s + f + z
         == (y + (['-'] + (mo + (['-'] + d)))) + ([' '] + (h + ([':'] + (mi + ([':'] + (s + (f + z)))))))
  {
  }

  lemma UtcOffset()
    ensures OffsetText(0) == UTC_SUFFIX
  {
    assert Two(0) == ['0', '0'];
  }

  lemma TimeTextParts(micros: int)
    requires InRange(micros)
    ensures var tm := LocalTm(micros / 1_000_000);
            && Valid(Date(tm.year, tm.month, tm.day)) && StrictTm(tm)
            && TimeText(micros) == DateText(Date(tm.year, tm.month, tm.day))
                                   + ([' '] + ClockText(tm, Fraction(micros % 1_000_000) + UTC_SUFFIX))
  {
    var tm := LocalTm(micros / 1_000_000);
    UtcOffset();
    Rejoined(Four(tm.year), Two(tm.month), Two(tm.day), Two(tm.hour), Two(tm.minute), Two(tm.second),
             Fraction(micros % 1_000_000), UTC_SUFFIX);
  }

  predicate SameClock(a: Tm, b: Tm) { a.hour == b.hour && a.minute == b.minute && a.second == b.second }

  function DateOf(tm: Tm): Date { Date(tm.year, tm.month, tm.day) }

  lemma CivilOrder(p: int, q: int)
    ensures Before(CivilOf(p), CivilOf(q)) <==> p < q
    ensures CivilOf(p) == CivilOf(q) <==> p == q
  {
    NumberOfCivil(p);
    NumberOfCivil(q);
    DayNumberOrder(CivilOf(p), CivilOf(q));
  }

  lemma SecondsOfDay(r: nat, q: nat)
    requires r < 86400 && q < 86400
    ensures var a, b := Tm(0, 1, 1, r / 3600, r / 60 % 60, r % 60), Tm(0, 1, 1, q / 3600, q / 60 % 60, q % 60);
            (ClockBefore(a, b) <==> r < q) && (SameClock(a, b) <==> r == q)
  {
    assert r / 60 / 60 == r / 3600 && q / 60 / 60 == q / 3600;
  }

  /** Wall clocks in UTC are ordered as the seconds they show. */
  lemma LocalOrder(s: int, t: int)
    ensures var a, b := LocalTm(s), LocalTm(t);
            && (s < t <==> Before(DateOf(a), DateOf(b)) || (DateOf(a) == DateOf(b) && ClockBefore(a, b)))
            && (s == t <==> DateOf(a) == DateOf(b) && SameClock(a, b))
  {
    CivilOrder(s / 86400, t / 86400);
    SecondsOfDay(s % 86400, t % 86400);
  }

  lemma PartsOrder(d: Date, a: Tm, x: string, d': Date, b: Tm, y: string)
    requires Valid(d) && 1 <= d.year <= 9999 && Valid(d') && 1 <= d'.year <= 9999 && StrictTm(a) && StrictTm(b)
    ensures TextLess(DateText(d) + ([' '] + ClockText(a, x)), DateText(d') + ([' '] + ClockText(b, y)))
       <==> Before(d, d') || (d == d' && (ClockBefore(a, b) || (SameClock(a, b) && TextLess(x, y))))
  {
    DateTextOrder(d, d');
    Blocks(DateText(d), [' '] + ClockText(a, x), DateText(d'), [' '] + ClockText(b, y));
    SameFirst(' ', ClockText(a, x), ClockText(b, y));
    ClockOrder(a, x, b, y);
  }

  lemma MicrosOrder(m: int, n: int)
    ensures m < n <==> m / 1_000_000 < n / 1_000_000
                       || (m / 1_000_000 == n / 1_000_000 && m % 1_000_000 < n % 1_000_000)
  {
  }

  /** In a UTC session, for instants of the years 1 to 9999, the order of the texts is the order of the instants. */
  lemma TimeTextOrder(m: int, n: int)
    requires InRange(m) && InRange(n)
    ensures TextLess(TimeText(m), TimeText(n)) <==> m < n
  {
    var a, b := LocalTm(m / 1_000_000), LocalTm(n / 1_000_000);
    var x, y := Fraction(m % 1_000_000) + UTC_SUFFIX, Fraction(n % 1_000_000) + UTC_SUFFIX;
    TimeTextParts(m);
    TimeTextParts(n);
    PartsOrder(DateOf(a), a, x, DateOf(b), b, y);
    FractionOrder(m % 1_000_000, n % 1_000_000);
    LocalOrder(m / 1_000_000, n / 1_000_000);
    MicrosOrder(m, n);
  }

  /** The text of the first instant of the year 10000. */
  const TEN_THOUSAND := "10000" + REST_OF_TEN_THOUSAND
  const REST_OF_TEN_THOUSAND := "-01-01 00:00:00+00"

  lemma FiveDigits(year: nat, x: string, y: string)
    requires year < 10000
    ensures TextLess(Four(1000) + (['0'] + y), Four(year) + (['-'] + x)) <==> year > 1000
  {
    FourOrder(1000, year);
    Blocks(Four(1000), ['0'] + y, Four(year), ['-'] + x);
  }

  lemma Regroup(a: string, b: string, c: string, d: string)
    ensures (a + (b + c)) + d == a + (b + (c + d)) && (a + b) + c == a + (b + c)
  {
  }

  lemma YearFirst(m: int) returns (x: string)
    requires InRange(m)
    ensures TimeText(m) == Four(LocalTm(m / 1_000_000).year) + (['-'] + x)
  {
    var tm := LocalTm(m / 1_000_000);
    TimeTextParts(m);
    x := AfterYear(DateOf(tm), [' '] + ClockText(tm, Fraction(m % 1_000_000) + UTC_SUFFIX));
  }

  lemma AfterYear(d: Date, clock: string) returns (x: string)
    requires Valid(d) && 1 <= d.year <= 9999
    ensures DateText(d) + clock == Four(d.year) + (['-'] + x)
  {
    var day := Two(d.month) + (['-'] + Two(d.day));
    x := day + clock;
    Regroup(Four(d.year), ['-'], day, clock);
  }

  lemma TenThousandParts()
    ensures TEN_THOUSAND == Four(1000) + (['0'] + REST_OF_TEN_THOUSAND)
  {
    assert "10000" == Four(1000) + ['0'];
    Regroup(Four(1000), ['0'], REST_OF_TEN_THOUSAND, "");
  }

  /** A year of five digits does not sort: the year 10000 comes before every instant from the year 1001 on. */
  lemma FiveDigitsSortFirst(m: int)
    requires InRange(m)
    ensures TextLess(TEN_THOUSAND, TimeText(m)) <==> LocalTm(m / 1_000_000).year > 1000
  {
    var x := YearFirst(m);
    TenThousandParts();
    FiveDigits(LocalTm(m / 1_000_000).year, x, REST_OF_TEN_THOUSAND);
  }

  // ---------------------------------------------------------------- sessions

  /**
   What a sort of texts depends on beside the rows: how the session shows instants (by microseconds)
   and dates (by day number), and the order of its collation.
   */
  datatype Locale = Locale(time: int -> string, date: int -> string, le: (string, string) -> bool)

  /** Different instants and dates have different texts, and different texts do not tie. */
  ghost predicate TellsApart(l: Locale) {
    && IsOrder(l.le) && (forall a, b :: l.le(a, b) && l.le(b, a) ==> a == b)
    && (forall m, n :: l.time(m) == l.time(n) ==> m == n)
    && (forall p, q :: l.date(p) == l.date(q) ==> p == q)
  }

  ghost predicate DateInRange(day: int) { 1 <= CivilOf(day).year <= 9999 }

  /** A session pinned to UTC that compares texts character by character. */
  ghost predicate IsUtc(l: Locale) {
    && (forall a, b {:trigger l.le(a, b)} :: l.le(a, b) <==> !TextLess(b, a))
    && (forall m {:trigger l.time(m)} :: InRange(m) ==> l.time(m) == TimeText(m))
    && (forall day {:trigger l.date(day)} :: DateInRange(day) ==> l.date(day) == DateText(CivilOf(day)))
  }

  lemma {:induction false} NotLessIsTransitive(a: string, b: string, c: string)
    requires !TextLess(b, a) && !TextLess(c, b)
    ensures !TextLess(c, a)
  {
    if a != "" && b != "" && c != "" {
      if a[0] == b[0] == c[0] { NotLessIsTransitive(a[1..], b[1..], c[1..]); }
    }
  }

  /** A text for an integer that no date or instant of the years 1 to 9999 has. */
  function OtherText(n: int): string { if n >= 0 then "later " + Print(n) else "sooner " + Print(-n) }

  lemma OtherTextsDiffer(m: int, n: int)
    requires OtherText(m) == OtherText(n)
    ensures m == n
  {
    assert "later "[0] != "sooner "[0];
    assert OtherText(m)[0] == OtherText(n)[0];
    if m >= 0 {
      assert OtherText(m)[6..] == Print(m) && OtherText(n)[6..] == Print(n);
      ValueOfPrint(m);
      ValueOfPrint(n);
    } else {
      assert OtherText(m)[7..] == Print(-m) && OtherText(n)[7..] == Print(-n);
      ValueOfPrint(-m);
      ValueOfPrint(-n);
    }
  }

  ghost function TimeShown(micros: int): string { if InRange(micros) then TimeText(micros) else OtherText(micros) }

  ghost function DateShown(day: int): string {
    if DateInRange(day) then DateText(CivilOf(day)) else OtherText(day)
  }

  lemma StartsWithDigit(micros: int, day: int)
    ensures InRange(micros) ==> TimeText(micros) != "" && IsDigit(TimeText(micros)[0])
    ensures DateInRange(day) ==> DateText(CivilOf(day)) != "" && IsDigit(DateText(CivilOf(day))[0])
  {
    if InRange(micros) { TimeTextParts(micros); }
  }

  lemma TimesShownDiffer(m: int, n: int)
    ensures TimeShown(m) == TimeShown(n) ==> m == n
  {
    StartsWithDigit(m, 0);
    StartsWithDigit(n, 0);
    if InRange(m) && InRange(n) {
      TimeTextOrder(m, n);
      TimeTextOrder(n, m);
      LessIsTotal(TimeText(m), TimeText(n));
    } else if !InRange(m) && !InRange(n) && TimeShown(m) == TimeShown(n) {
      OtherTextsDiffer(m, n);
    }
  }

  lemma DatesShownDiffer(p: int, q: int)
    ensures DateShown(p) == DateShown(q) ==> p == q
  {
    StartsWithDigit(0, p);
    StartsWithDigit(0, q);
    if DateInRange(p) && DateInRange(q) {
      DateTextOrder(CivilOf(p), CivilOf(q));
      CivilOrder(p, q);
    } else if !DateInRange(p) && !DateInRange(q) && DateShown(p) == DateShown(q) {
      OtherTextsDiffer(p, q);
    }
  }

  /** Such a session exists. */
  lemma SomeUtcLocale() returns (l: Locale)
    ensures TellsApart(l) && IsUtc(l)
  {
    l := Locale((m: int) => TimeShown(m), (day: int) => DateShown(day), (a: string, b: string) => !TextLess(b, a));
    forall a, b
      ensures (l.le(a, b) || l.le(b, a)) && (l.le(a, b) && l.le(b, a) ==> a == b)
    {
      LessIsTotal(a, b);
    }
    forall a, b, c | l.le(a, b) && l.le(b, c)
      ensures l.le(a, c)
    {
      NotLessIsTransitive(a, b, c);
    }
    forall m, n | l.time(m) == l.time(n)
      ensures m == n
    {
      TimesShownDiffer(m, n);
    }
    forall p, q | l.date(p) == l.date(q)
      ensures p == q
    {
      DatesShownDiffer(p, q);
    }
  }
}
