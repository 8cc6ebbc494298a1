/** ParsePageToken: the offset a page token stands for, read with strtol and checked against int. */
module PageToken {
  import opened Wrappers
  import opened Decimal
  import opened Text

  const INT_MAX: int := 0x7FFF_FFFF
  const LONG_MAX: int := 0x7FFF_FFFF_FFFF_FFFF
  const LONG_MIN: int := -0x8000_0000_0000_0000

  predicate NotSpace(c: char) { !IsSpace(c) }
  predicate NotDigit(c: char) { !IsDigit(c) }
  predicate IsNul(c: char) { c == '\0' }

  /** What c_str() shows to a C function: the text up to its first NUL. */
  function CStr(s: string): string { s[..Find(s, IsNul, 0)] }

  datatype Scan = Scan(val: int, end: nat, erange: bool)

  /** Where the optional sign may stand: after the white space. */
  function SignAt(s: string): nat { Find(s, NotSpace, 0) }

  function DigitsFrom(s: string): (i: nat)
    ensures SignAt(s) <= i <= |s|
  {
    var at := SignAt(s);
    if at < |s| && (s[at] == '+' || s[at] == '-') then at + 1 else at
  }

  function DigitsTo(s: string): (i: nat)
    ensures DigitsFrom(s) <= i <= |s| && AllDigits(s[DigitsFrom(s)..i])
  {
    FindFirst(s, NotDigit, DigitsFrom(s));
    Find(s, NotDigit, DigitsFrom(s))
  }

  function Saturate(v: int, end: nat): Scan {
    if v > LONG_MAX then Scan(LONG_MAX, end, true)
    else if v < LONG_MIN then Scan(LONG_MIN, end, true)
    else Scan(v, end, false)
  }

  /** strtol in base 10 (section 7.22.1.4 of ISO C11): saturates at the ends of long and reports it. */
  function Strtol(s: string): (r: Scan)
    ensures r.end <= |s|
  {
    var digits := s[DigitsFrom(s)..DigitsTo(s)];
    if digits == "" then Scan(0, 0, false)
    else if s[SignAt(s)] == '-' then Saturate(0 - Value(digits), DigitsTo(s))
    else Saturate(Value(digits), DigitsTo(s))
  }

  function TokenOffset(token: string): (r: Result<nat>)
    ensures r.Success? ==> r.value <= INT_MAX
    ensures r.Failure? ==> r.error == InvalidArgument
  {
    if token == "" then Success(0) else
    var r := Strtol(CStr(token));
    if r.end == 0 || r.end < |CStr(token)| then Failure(InvalidArgument)
    else if r.val < 0 then Success(0)
    else if r.erange || r.val > INT_MAX then Failure(InvalidArgument)
    else Success(r.val)
  }

  method ParsePageToken(token: string) returns (status: Status, offset: nat)
    ensures TokenOffset(token) == if status == Ok then Success(offset) else Failure(status)
  {
    offset := 0;
    if token == "" { return Ok, 0; }
    var text := CStr(token);
    var r := Strtol(text);
    if r.end == 0 || r.end != |text| { return InvalidArgument, offset; }
    if r.erange || r.val < 0 || r.val > INT_MAX {
      if r.val < 0 { return Ok, 0; }
      return InvalidArgument, offset;
    }
    return Ok, r.val;
  }

  // ---------------------------------------------------------------- what a token means

  predicate IsSign(s: string) { s == "" || s == "+" || s == "-" }

  /** White space, an optional sign and decimal digits: the texts that denote an integer. */
  predicate Denotes(text: string, space: string, sign: string, digits: string) {
    && text == space + sign + digits
    && (forall i :: 0 <= i < |space| ==> IsSpace(space[i]))
    && IsSign(sign) && digits != "" && AllDigits(digits)
  }

  function Denoted(sign: string, digits: string): int
    requires AllDigits(digits)
  {
    if sign == "-" then 0 - Value(digits) else Value(digits)
  }

  /** The unbounded rule: a negative value counts as 0, a value above INT_MAX is rejected. */
  function Unbounded(v: int): Result<nat> {
    if v < 0 then Success(0) else if v > 2_147_483_647 then Failure(InvalidArgument) else Success(v)
  }

  lemma SignStands(text: string, space: string, rest: string)
    requires text == space + rest && rest != "" && !IsSpace(rest[0])
    requires forall i :: 0 <= i < |space| ==> IsSpace(space[i])
    ensures SignAt(text) == |space|
  {
    assert text[|space|] == rest[0];
    FindAt(text, NotSpace, 0, |space|);
  }

  lemma DigitsReach(text: string, before: string, digits: string)
    requires text == before + digits && AllDigits(digits)
    ensures Find(text, NotDigit, |before|) == |text|
    ensures text[|before|..] == digits
  {
    assert forall i :: |before| <= i < |text| ==> text[i] == digits[i - |before|];
    FindNone(text, NotDigit, |before|);
  }

  lemma Layout(text: string, space: string, sign: string, digits: string)
    requires Denotes(text, space, sign, digits)
    ensures SignAt(text) == |space| && DigitsFrom(text) == |space| + |sign| && DigitsTo(text) == |text|
    ensures text[DigitsFrom(text)..DigitsTo(text)] == digits
    ensures text[SignAt(text)] == '-' <==> sign == "-"
  {
    assert (sign + digits)[0] == if sign == "" then digits[0] else sign[0];
    assert text == space + (sign + digits);
    SignStands(text, space, sign + digits);
    assert text[|space|] == (sign + digits)[0];
    DigitsReach(text, space + sign, digits);
  }

  /** On every denoting token, the saturating parse agrees with the unbounded rule. */
  lemma AgreesWithUnbounded(token: string, space: string, sign: string, digits: string)
    requires Denotes(CStr(token), space, sign, digits)
    ensures TokenOffset(token) == Unbounded(Denoted(sign, digits))
  {
    Layout(CStr(token), space, sign, digits);
  }

  /** Only the empty token and tokens that denote an integer are accepted. */
  lemma AcceptedDenotes(token: string)
    requires token != "" && TokenOffset(token).Success?
    ensures exists space, sign, digits :: Denotes(CStr(token), space, sign, digits)
  {
    var s := CStr(token);
    var at, start := SignAt(s), DigitsFrom(s);
    FindFirst(s, NotSpace, 0);
    assert DigitsTo(s) == |s| && s[start..|s|] == s[start..];
    assert forall i :: 0 <= i < at ==> !NotSpace(s[i]);
    assert s == s[..at] + s[at..start] + s[start..];
    assert IsSign(s[at..start]) by { if start > at { assert s[at..start] == [s[at]]; } }
    assert Denotes(s, s[..at], s[at..start], s[start..]);
  }

  /** The token printed for an offset is read back as that offset, exactly up to INT_MAX. */
  lemma TokenRoundTrip(n: nat)
    ensures TokenOffset(Print(n)) == if n <= 2_147_483_647 then Success(n) else Failure(InvalidArgument)
  {
    var s := Print(n);
    FindNone(s, IsNul, 0);
    assert CStr(s) == "" + "" + s;
    AgreesWithUnbounded(s, "", "", s);
    ValueOfPrint(n);
  }
}
