/**
 ParseTimestamp: PostgreSQL's text for a TIMESTAMP or TIMESTAMPTZ back to epoch seconds.

 `std::get_time` followed by the end-of-input test is library code; it is a parameter
 `getTime` that must read the strict form "YYYY-MM-DD HH:MM:SS" as written and may do
 anything on other text.
 */
module Timestamp {
  import opened Wrappers
  import opened Decimal
  import opened Text
  import opened Calendar

  type GetTime = string -> Option<Tm>

  const DATE_TIME_LEN: nat := 19

  // ---------------------------------------------------------------- text helpers

  predicate IsDot(c: char) { c == '.' }
  predicate StartsOffset(c: char) { c == '+' || c == '-' || c == 'Z' }

  // ---------------------------------------------------------------- the strict form

  predicate StrictTm(tm: Tm) {
    && 1 <= tm.year <= 9999 && 1 <= tm.month <= 12 && 1 <= tm.day <= 31
    && 0 <= tm.hour <= 23 && 0 <= tm.minute <= 59 && 0 <= tm.second <= 59
  }

  predicate StrictShape(b: string) {
    && |b| == DATE_TIME_LEN
    && b[4] == '-' && b[7] == '-' && b[10] == ' ' && b[13] == ':' && b[16] == ':'
    && AllDigits(b[0..4]) && AllDigits(b[5..7]) && AllDigits(b[8..10])
    && AllDigits(b[11..13]) && AllDigits(b[14..16]) && AllDigits(b[17..19])
  }

  function StrictRead(b: string): Tm
    requires StrictShape(b)
  {
    Tm(Value(b[0..4]), Value(b[5..7]), Value(b[8..10]), Value(b[11..13]), Value(b[14..16]), Value(b[17..19]))
  }

  /** What is asked of get_time: strict text is read as written, and a month is always 1..12. */
  ghost predicate ReadsStrictForm(getTime: GetTime) {
    && (forall b {:trigger getTime(b)} ::
          StrictShape(b) && StrictTm(StrictRead(b)) ==> getTime(b) == Some(StrictRead(b)))
    && (forall b :: getTime(b).Some? ==> 1 <= getTime(b).value.month <= 12)
  }

  /** A reader of strict text and of nothing else. */
  function StrictGetTime(b: string): Option<Tm> {
    if StrictShape(b) && StrictTm(StrictRead(b)) then Some(StrictRead(b)) else None
  }

  /** So a reader of the kind that is asked for exists. */
  lemma StrictGetTimeReads()
    ensures ReadsStrictForm(StrictGetTime)
  {
  }

  function Body(tm: Tm): (b: string)
    requires StrictTm(tm)
    ensures |b| == DATE_TIME_LEN
  {
    Four(tm.year) + "-" + Two(tm.month) + "-" + Two(tm.day) + " "
    + Two(tm.hour) + ":" + Two(tm.minute) + ":" + Two(tm.second)
  }

  lemma TwoValue(n: nat)
    requires n < 100
    ensures Value(Two(n)) == n
  {
    var s := Two(n);
    assert s[..1][..0] == "" && s[..1][0] == Digit(n / 10);
    assert Value(s[..1]) == n / 10;
  }

  lemma FourValue(n: nat)
    requires n < 10000
    ensures Value(Four(n)) == n
  {
    var s := Four(n);
    assert s[..3][..2] == Two(n / 100);
    TwoValue(n / 100);
    assert s[..3][2] == Digit(n % 100 / 10);
    assert Value(s[..3]) == 10 * (n / 100) + n % 100 / 10;
  }

  lemma StrictReadOfBody(tm: Tm)
    requires StrictTm(tm)
    ensures StrictShape(Body(tm)) && StrictRead(Body(tm)) == tm
  {
    var b := Body(tm);
    assert b[0..4] == Four(tm.year);
    assert b[5..7] == Two(tm.month);
    assert b[8..10] == Two(tm.day);
    assert b[11..13] == Two(tm.hour);
    assert b[14..16] == Two(tm.minute);
    assert b[17..19] == Two(tm.second);
    FourValue(tm.year); TwoValue(tm.month); TwoValue(tm.day);
    TwoValue(tm.hour); TwoValue(tm.minute); TwoValue(tm.second);
  }

  // ---------------------------------------------------------------- the parser

  /** Step 1: drop the fraction, keep what follows from the first '+', '-' or 'Z' after the dot. */
  function DropFraction(s: string): string {
    var dot := Find(s, IsDot, 0);
    if dot == |s| then s else s[..dot] + s[Find(s, StartsOffset, dot)..]
  }

  /** Step 2: the seconds east of UTC that a suffix stands for. */
  function OffsetSeconds(tz: string): Option<int> {
    if tz == "" || tz == "Z" then Some(0)
    else if !((|tz| == 3 || |tz| == 6) && (tz[0] == '+' || tz[0] == '-') && IsDigit(tz[1]) && IsDigit(tz[2])) then None
    else
      var sign := if tz[0] == '-' then -1 else 1;
      var hh := DigitValue(tz[1]) * 10 + DigitValue(tz[2]);
      if hh > 14 then None
      else if |tz| == 3 then Some(sign * (hh * 3600))
      else if tz[3] != ':' || !IsDigit(tz[4]) || !IsDigit(tz[5]) then None
      else
        var mm := DigitValue(tz[4]) * 10 + DigitValue(tz[5]);
        if mm > 59 then None else Some(sign * (hh * 3600 + mm * 60))
  }

  /** `Z`, a sign and hours, or a sign, hours and minutes, two digits each. */
  predicate IsSuffix(tz: string, east: bool, hh: nat, mm: nat) {
    && hh <= 14 && mm <= 59
    && (|| (tz == [if east then '+' else '-'] + Two(hh) && mm == 0)
        || tz == [if east then '+' else '-'] + Two(hh) + ":" + Two(mm))
  }

  function EastSeconds(east: bool, hh: nat, mm: nat): int {
    if east then hh * 3600 + mm * 60 else -(hh * 3600 + mm * 60)
  }

  lemma TwoOfDigits(a: char, b: char)
    requires IsDigit(a) && IsDigit(b)
    ensures var n := DigitValue(a) * 10 + DigitValue(b); n < 100 && Two(n) == [a, b]
  {
    var n := DigitValue(a) * 10 + DigitValue(b);
    assert n / 10 == DigitValue(a) && n % 10 == DigitValue(b);
  }

  lemma SuffixReads(tz: string, east: bool, hh: nat, mm: nat)
    requires IsSuffix(tz, east, hh, mm)
    ensures OffsetSeconds(tz) == Some(EastSeconds(east, hh, mm))
  {
    assert Two(hh)[0] == Digit(hh / 10) && Two(hh)[1] == Digit(hh % 10);
    assert Two(mm)[0] == Digit(mm / 10) && Two(mm)[1] == Digit(mm % 10);
  }

  lemma SuffixOnly(tz: string)
    requires OffsetSeconds(tz).Some? && tz != "" && tz != "Z"
    ensures exists east, hh, mm :: IsSuffix(tz, east, hh, mm)
  {
    var east, hh := tz[0] == '+', DigitValue(tz[1]) * 10 + DigitValue(tz[2]);
    TwoOfDigits(tz[1], tz[2]);
    if |tz| == 3 {
      assert tz == [if east then '+' else '-'] + Two(hh);
      assert IsSuffix(tz, east, hh, 0);
    } else {
      var mm := DigitValue(tz[4]) * 10 + DigitValue(tz[5]);
      TwoOfDigits(tz[4], tz[5]);
      assert tz == [if east then '+' else '-'] + Two(hh) + ":" + Two(mm);
      assert IsSuffix(tz, east, hh, mm);
    }
  }

  /** The exact set of suffixes and what they stand for: nothing and `Z` for UTC, else up to 14:59 either way. */
  lemma OffsetExactly(tz: string)
    ensures OffsetSeconds(tz).Some? <==> tz == "" || tz == "Z" || exists east, hh, mm :: IsSuffix(tz, east, hh, mm)
    ensures tz == "" || tz == "Z" ==> OffsetSeconds(tz) == Some(0)
    ensures forall east, hh, mm ::
              IsSuffix(tz, east, hh, mm) ==> OffsetSeconds(tz) == Some(EastSeconds(east, hh, mm))
  {
    if OffsetSeconds(tz).Some? && tz != "" && tz != "Z" { SuffixOnly(tz); }
    forall east, hh, mm | IsSuffix(tz, east, hh, mm)
      ensures OffsetSeconds(tz) == Some(EastSeconds(east, hh, mm))
    {
      SuffixReads(tz, east, hh, mm);
    }
  }

  /** Where the date and time end. */
  function Cut(body: string): (n: nat)
    ensures n <= |body|
  {
    if |body| > DATE_TIME_LEN then DATE_TIME_LEN else |body|
  }

  function Parsed(s: string, getTime: GetTime): Option<int>
    requires forall b :: getTime(b).Some? ==> 1 <= getTime(b).value.month <= 12
  {
    if s == "" then None else
    var body := DropFraction(s);
    match OffsetSeconds(body[Cut(body)..])
    case None => None
    case Some(offset) =>
      match getTime(body[..Cut(body)])
      case None => None
      case Some(tm) => Some(Timegm(tm) - offset)
  }

  method ReadOffset(tz: string) returns (offset: Option<int>)
    ensures offset == OffsetSeconds(tz)
  {
    var offsetSec := 0;
    if tz == "" || tz == "Z" {
      offsetSec := 0;
    } else if (|tz| == 3 || |tz| == 6) && (tz[0] == '+' || tz[0] == '-') && IsDigit(tz[1]) && IsDigit(tz[2]) {
      var sign := if tz[0] == '-' then -1 else 1;
      var hh := DigitValue(tz[1]) * 10 + DigitValue(tz[2]);
      if hh > 14 { return None; }
      var mm := 0;
      if |tz| == 6 {
        if tz[3] != ':' || !IsDigit(tz[4]) || !IsDigit(tz[5]) { return None; }
        mm := DigitValue(tz[4]) * 10 + DigitValue(tz[5]);
        if mm > 59 { return None; }
      }
      offsetSec := sign * (hh * 3600 + mm * 60);
    } else {
      return None;
    }
    return Some(offsetSec);
  }

  /** Step 1, as the source runs it. */
  method WithoutFraction(s: string) returns (body: string)
    ensures body == DropFraction(s)
  {
    body := s;
    var dot := Find(body, IsDot, 0);
    if dot != |body| {
      var tzpos := Find(body, StartsOffset, dot);
      body := if tzpos != |body| then body[..dot] + body[tzpos..] else body[..dot];
    }
  }

  /** Step 2: what stands behind the date and time is the suffix. */
  method CutSuffix(text: string) returns (body: string, tz: string)
    ensures body == text[..Cut(text)] && tz == text[Cut(text)..]
  {
    body, tz := text, "";
    if |text| > DATE_TIME_LEN {
      tz := text[DATE_TIME_LEN..];
      body := text[..DATE_TIME_LEN];
    }
  }

  /** The function as the source runs it: `body` is rebuilt without the fraction, then cut at the offset. */
  method ParseTimestamp(s: string, getTime: GetTime) returns (out: Option<int>)
    requires forall b :: getTime(b).Some? ==> 1 <= getTime(b).value.month <= 12
    ensures out == Parsed(s, getTime)
  {
    if s == "" { return None; }
    var body := WithoutFraction(s);
    var tz;
    body, tz := CutSuffix(body);
    var offset := ReadOffset(tz);
    if offset.None? { return None; }
    var tm := getTime(body);
    if tm.None? { return None; }
    return Some(Timegm(tm.value) - offset.value);
  }

  // ---------------------------------------------------------------- PostgreSQL's rendering

  /** Wall-clock fields of an instant, at day and time-of-day precision. */
  ghost function LocalTm(seconds: int): (tm: Tm)
    ensures 1 <= tm.month <= 12 && 1 <= tm.day <= 31
    ensures 0 <= tm.hour <= 23 && 0 <= tm.minute <= 59 && 0 <= tm.second <= 59
  {
    var date := CivilOf(seconds / 86400);
    var rest := seconds % 86400;
    Tm(date.year, date.month, date.day, rest / 3600, rest / 60 % 60, rest % 60)
  }

  /** timegm undoes the rendering of a wall clock. */
  lemma TimegmOfLocal(seconds: int)
    ensures Timegm(LocalTm(seconds)) == seconds
  {
    var date := CivilOf(seconds / 86400);
    NumberOfCivil(seconds / 86400);
    PosixDaysAreSums(date);
    var rest := seconds % 86400;
    assert rest == rest / 3600 * 3600 + rest / 60 % 60 * 60 + rest % 60 by {
      assert rest / 60 / 60 == rest / 3600;
    }
  }

  function TrimZeros(s: string): string {
    if s != "" && s[|s| - 1] == '0' then TrimZeros(s[..|s| - 1]) else s
  }

  function SixDigits(micros: nat): (s: string)
    requires micros < 1_000_000
    ensures AllDigits(s)
  {
    Two(micros / 10000) + Two(micros / 100 % 100) + Two(micros % 100)
  }

  /** The fraction as PostgreSQL prints it: nothing for zero, else up to six digits. */
  function Fraction(micros: nat): string
    requires micros < 1_000_000
  {
    if micros == 0 then "" else "." + TrimZeros(SixDigits(micros))
  }

  /** The session offset, in minutes east of UTC, as PostgreSQL prints it. */
  function OffsetText(minutes: int): string
    requires -6000 < minutes < 6000
  {
    var m := if minutes < 0 then -minutes else minutes;
    (if minutes < 0 then "-" else "+") + Two(m / 60) + (if m % 60 == 0 then "" else ":" + Two(m % 60))
  }

  /** A wall clock, a fraction and a session offset as one text. */
  function Render(tm: Tm, fraction: nat, offset: int): string
    requires StrictTm(tm) && fraction < 1_000_000 && -6000 < offset < 6000
  {
    Body(tm) + Fraction(fraction) + OffsetText(offset)
  }

  /** An instant: whole seconds rounded down, and the microseconds above them. */
  datatype Instant = Instant(seconds: int, micros: nat)

  /** The wall clock of a session that is `offset` minutes east of UTC, in seconds. */
  function WallSeconds(at: Instant, offset: int): int { at.seconds + offset * 60 }

  /** `TIMESTAMPTZ::text` of an instant in a session that is `offset` minutes east of UTC. */
  ghost function PgText(at: Instant, offset: int): string
    requires Renderable(at, offset)
  {
    Render(LocalTm(WallSeconds(at, offset)), at.micros, offset)
  }

  /** A four-digit year in the session's wall clock and a two-digit hour in its offset. */
  ghost predicate Renderable(at: Instant, offset: int) {
    && at.micros < 1_000_000 && -6000 < offset < 6000
    && 1 <= LocalTm(WallSeconds(at, offset)).year <= 9999
  }

  // ---------------------------------------------------------------- round trip

  lemma {:induction false} TrimZerosIsDigits(s: string)
    requires AllDigits(s)
    ensures AllDigits(TrimZeros(s))
    decreases |s|
  {
    if s != "" && s[|s| - 1] == '0' { TrimZerosIsDigits(s[..|s| - 1]); }
  }

  /** A fraction never swallows the offset: whatever its digits, only the dot and they go. */
  lemma FractionOnlyDropped(b: string, digits: string, tz: string)
    requires |b| == DATE_TIME_LEN && forall i :: 0 <= i < |b| ==> b[i] != '.'
    requires AllDigits(digits)
    requires tz == "" || StartsOffset(tz[0])
    ensures DropFraction(b + "." + digits + tz) == b + tz
  {
    var s := b + "." + digits + tz;
    FindAt(s, IsDot, 0, |b|);
    var pos := |b| + 1 + |digits|;
    assert s[pos..] == tz;
    if tz == "" { FindNone(s, StartsOffset, |b|); } else { FindAt(s, StartsOffset, |b|, pos); }
    assert s[..|b|] == b;
  }

  lemma BodyHasNoDot(tm: Tm)
    requires StrictTm(tm)
    ensures forall i :: 0 <= i < DATE_TIME_LEN ==> Body(tm)[i] != '.'
  {
  }

  lemma OffsetRoundTrip(minutes: int)
    requires -6000 < minutes < 6000
    ensures OffsetSeconds(OffsetText(minutes)) == if -900 < minutes < 900 then Some(minutes * 60) else None
  {
  }

  lemma OffsetHasNoDot(minutes: int)
    requires -6000 < minutes < 6000
    ensures forall i :: 0 <= i < |OffsetText(minutes)| ==> OffsetText(minutes)[i] != '.'
    ensures StartsOffset(OffsetText(minutes)[0])
  {
  }

  lemma RenderWithoutFraction(tm: Tm, f: nat, offset: int)
    requires StrictTm(tm) && f < 1_000_000 && -6000 < offset < 6000
    ensures DropFraction(Render(tm, f, offset)) == Body(tm) + OffsetText(offset)
  {
    BodyHasNoDot(tm);
    OffsetHasNoDot(offset);
    NoFractionKept(Body(tm), f, OffsetText(offset));
  }

  lemma NothingDropped(b: string, tz: string)
    requires forall i :: 0 <= i < |b| ==> b[i] != '.'
    requires forall i :: 0 <= i < |tz| ==> tz[i] != '.'
    ensures DropFraction(b + tz) == b + tz
  {
    FindNone(b + tz, IsDot, 0);
  }

  lemma NoFractionKept(b: string, f: nat, tz: string)
    requires |b| == DATE_TIME_LEN && forall i :: 0 <= i < |b| ==> b[i] != '.'
    requires tz != "" && StartsOffset(tz[0]) && forall i :: 0 <= i < |tz| ==> tz[i] != '.'
    requires f < 1_000_000
    ensures DropFraction(b + Fraction(f) + tz) == b + tz
  {
    if f == 0 {
      assert b + "" == b;
      NothingDropped(b, tz);
    } else {
      var digits := TrimZeros(SixDigits(f));
      TrimZerosIsDigits(SixDigits(f));
      FractionOnlyDropped(b, digits, tz);
      assert b + ("." + digits) + tz == b + "." + digits + tz;
    }
  }

  /** Once the fraction is gone, the date and time and the suffix are read apart. */
  lemma ParsedParts(text: string, body: string, tz: string, getTime: GetTime)
    requires forall b :: getTime(b).Some? ==> 1 <= getTime(b).value.month <= 12
    requires text != "" && DropFraction(text) == body + tz && |body| == DATE_TIME_LEN && tz != ""
    ensures Parsed(text, getTime)
         == if OffsetSeconds(tz).None? || getTime(body).None? then None
            else Some(Timegm(getTime(body).value) - OffsetSeconds(tz).value)
  {
    var whole := body + tz;
    assert whole[..Cut(whole)] == body && whole[Cut(whole)..] == tz;
  }

  lemma WholeParts(text: string, body: string, tz: string)
    requires text == body + tz && |body| == DATE_TIME_LEN
    ensures text[..Cut(text)] == body && text[Cut(text)..] == tz
  {
  }

  function FractionText(fraction: Option<string>): string { if fraction.Some? then "." + fraction.value else "" }

  lemma FractionDropped(b: string, fraction: Option<string>, tz: string)
    requires |b| == DATE_TIME_LEN && forall i :: 0 <= i < |b| ==> b[i] != '.'
    requires tz == "" || tz[0] == '+' || tz[0] == '-' || tz[0] == 'Z'
    requires (fraction.Some? ==> AllDigits(fraction.value)) && forall i :: 0 <= i < |tz| ==> tz[i] != '.'
    ensures DropFraction(b + FractionText(fraction) + tz) == b + tz
  {
    if fraction.Some? {
      FractionOnlyDropped(b, fraction.value, tz);
      assert b + ("." + fraction.value) + tz == b + "." + fraction.value + tz;
    } else {
      NothingDropped(b, tz);
      assert b + "" + tz == b + tz;
    }
  }

  lemma PartsRead(text: string, body: string, tz: string, tm: Tm, getTime: GetTime)
    requires ReadsStrictForm(getTime) && getTime(body) == Some(tm) && |body| == DATE_TIME_LEN
    requires text != "" && DropFraction(text) == body + tz
    ensures Parsed(text, getTime)
         == if OffsetSeconds(tz).None? then None else Some(Timegm(tm) - OffsetSeconds(tz).value)
  {
    WholeParts(body + tz, body, tz);
  }

  /**
   A date and time in strict form, a fraction or none, and any suffix that starts with a sign or `Z`,
   or none: the instant of the wall clock less the offset, or a failure when the suffix is not one.
   */
  lemma WrittenReads(tm: Tm, fraction: Option<string>, tz: string, getTime: GetTime)
    requires ReadsStrictForm(getTime) && StrictTm(tm) && (fraction.Some? ==> AllDigits(fraction.value))
    requires tz == "" || tz[0] == '+' || tz[0] == '-' || tz[0] == 'Z'
    requires forall i :: 0 <= i < |tz| ==> tz[i] != '.'
    ensures Parsed(Body(tm) + FractionText(fraction) + tz, getTime)
         == if OffsetSeconds(tz).None? then None else Some(Timegm(tm) - OffsetSeconds(tz).value)
  {
    var text := Body(tm) + FractionText(fraction) + tz;
    BodyHasNoDot(tm);
    StrictReadOfBody(tm);
    FractionDropped(Body(tm), fraction, tz);
    PartsRead(text, Body(tm), tz, tm, getTime);
  }

  /** Nothing is read from an empty text. */
  lemma EmptyFails(getTime: GetTime)
    requires ReadsStrictForm(getTime)
    ensures Parsed("", getTime) == None
  {
  }

  lemma ParsedRender(tm: Tm, f: nat, offset: int, getTime: GetTime)
    requires ReadsStrictForm(getTime)
    requires StrictTm(tm) && f < 1_000_000 && -6000 < offset < 6000
    ensures Parsed(Render(tm, f, offset), getTime)
         == if -900 < offset < 900 then Some(Timegm(tm) - offset * 60) else None
  {
    RenderWithoutFraction(tm, f, offset);
    OffsetRoundTrip(offset);
    StrictReadOfBody(tm);
    ParsedParts(Render(tm, f, offset), Body(tm), OffsetText(offset), getTime);
  }

  lemma ParsedLocal(text: string, tm: Tm, seconds: int, f: nat, offset: int, getTime: GetTime)
    requires ReadsStrictForm(getTime)
    requires StrictTm(tm) && f < 1_000_000 && -6000 < offset < 6000
    requires Timegm(tm) == seconds + offset * 60 && text == Render(tm, f, offset)
    ensures Parsed(text, getTime) == if -900 < offset < 900 then Some(seconds) else None
  {
    ParsedRender(tm, f, offset, getTime);
  }

  /** The wall clock behind a text. */
  lemma ClockOf(at: Instant, offset: int) returns (tm: Tm)
    requires Renderable(at, offset)
    ensures StrictTm(tm) && Timegm(tm) == at.seconds + offset * 60
    ensures PgText(at, offset) == Render(tm, at.micros, offset)
  {
    tm := LocalTm(WallSeconds(at, offset));
    TimegmOfLocal(WallSeconds(at, offset));
  }

  lemma TextReads(at: Instant, offset: int, getTime: GetTime, text: string)
    requires ReadsStrictForm(getTime) && Renderable(at, offset) && text == PgText(at, offset)
    ensures Parsed(text, getTime) == if -900 < offset < 900 then Some(at.seconds) else None
  {
    var tm := ClockOf(at, offset);
    ParsedLocal(text, tm, at.seconds, at.micros, offset, getTime);
  }

  /**
   Parsing PostgreSQL's text gives the instant's seconds rounded down, whatever the session
   offset and the fraction, exactly for offsets within 14:59; beyond that it is rejected.
   */
  lemma RoundTrip(at: Instant, offset: int, getTime: GetTime)
    requires ReadsStrictForm(getTime) && Renderable(at, offset)
    ensures Parsed(PgText(at, offset), getTime) == if -900 < offset < 900 then Some(at.seconds) else None
  {
    TextReads(at, offset, getTime, PgText(at, offset));
  }

  /** Two sessions with different offsets read the same instant back. */
  lemma SessionOffsetIrrelevant(at: Instant, offset: int, other: int, getTime: GetTime)
    requires ReadsStrictForm(getTime) && Renderable(at, offset) && Renderable(at, other)
    requires -900 < offset < 900 && -900 < other < 900
    ensures Parsed(PgText(at, offset), getTime) == Parsed(PgText(at, other), getTime)
  {
    RoundTrip(at, offset, getTime);
    RoundTrip(at, other, getTime);
  }
}
