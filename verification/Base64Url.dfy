/**
 base64url without padding (section 5 of RFC 4648, section 2 of RFC 7515): the test server's
 encoder, and the decoder that rewrites to standard base64 (section 4 of RFC 4648) first.
 */
module Base64Url {
  import opened Wrappers

  type Byte = x: int | 0 <= x < 256

  // ---------------------------------------------------------------- alphabets

  /** Characters of the values 0..61, shared by both alphabets. */
  function Common(v: nat): char
    requires v < 62
  {
    if v < 26 then ('A' as int + v) as char
    else if v < 52 then ('a' as int + v - 26) as char
    else ('0' as int + v - 52) as char
  }

  function UrlChar(v: nat): char
    requires v < 64
  {
    if v < 62 then Common(v) else if v == 62 then '-' else '_'
  }

  function StdChar(v: nat): char
    requires v < 64
  {
    if v < 62 then Common(v) else if v == 62 then '+' else '/'
  }

  function StdValue(c: char): Option<nat> {
    if 'A' <= c <= 'Z' then Some(c as int - 'A' as int)
    else if 'a' <= c <= 'z' then Some(c as int - 'a' as int + 26)
    else if '0' <= c <= '9' then Some(c as int - '0' as int + 52)
    else if c == '+' then Some(62)
    else if c == '/' then Some(63)
    else None
  }

  // ---------------------------------------------------------------- the encoder

  /** The group of up to three bytes at the front, as one 24-bit number, missing bytes zero. */
  function Triplet(data: seq<Byte>): (t: nat)
    requires data != []
    ensures t < 0x1000000
  {
    data[0] as int * 0x10000
    + (if |data| > 1 then data[1] as int * 0x100 else 0)
    + (if |data| > 2 then data[2] as int else 0)
  }

  /** `(t >> 6 * k) & 0x3f` */
  function Sextet(t: nat, k: nat): (v: nat)
    requires k <= 3
    ensures v < 64
  {
    t / (if k == 0 then 1 else if k == 1 then 0x40 else if k == 2 then 0x1000 else 0x40000) % 64
  }

  function GroupChars(data: seq<Byte>): string
    requires 1 <= |data| <= 3
  {
    var t := Triplet(data);
    [UrlChar(Sextet(t, 3)), UrlChar(Sextet(t, 2))]
    + (if |data| > 1 then [UrlChar(Sextet(t, 1))] else [])
    + (if |data| > 2 then [UrlChar(Sextet(t, 0))] else [])
  }

  function FirstGroup(data: seq<Byte>): (g: seq<Byte>)
    requires data != []
    ensures 1 <= |g| <= 3 && |g| <= |data|
  {
    if |data| <= 3 then data else data[..3]
  }

  function Encode(data: seq<Byte>): string {
    if data == [] then "" else GroupChars(FirstGroup(data)) + Encode(data[|FirstGroup(data)|..])
  }

  method EncodeGroup(data: seq<Byte>, i: nat, out: string) returns (out': string)
    requires i < |data|
    ensures out' == out + GroupChars(FirstGroup(data[i..]))
  {
    var triplet := data[i] as int * 0x10000
                   + (if i + 1 < |data| then data[i + 1] as int * 0x100 else 0)
                   + (if i + 2 < |data| then data[i + 2] as int else 0);
    assert triplet == Triplet(FirstGroup(data[i..]));
    out' := out + [UrlChar(Sextet(triplet, 3))] + [UrlChar(Sextet(triplet, 2))];
    if i + 1 < |data| { out' := out' + [UrlChar(Sextet(triplet, 1))]; }
    if i + 2 < |data| { out' := out' + [UrlChar(Sextet(triplet, 0))]; }
  }

  /** What remains to be encoded from index `i` on; past the end, nothing. */
  function From(data: seq<Byte>, i: nat): seq<Byte> { if i < |data| then data[i..] else [] }

  lemma RestAfterGroup(data: seq<Byte>, i: nat)
    requires i < |data|
    ensures data[i..][|FirstGroup(data[i..])|..] == From(data, i + 3)
  {
  }

  lemma EncodeFrom(data: seq<Byte>, i: nat, out: string)
    requires i < |data|
    ensures out + Encode(From(data, i)) == out + GroupChars(FirstGroup(data[i..])) + Encode(From(data, i + 3))
  {
    RestAfterGroup(data, i);
  }

  method Base64UrlNoPad(data: seq<Byte>) returns (out: string)
    ensures out == Encode(data)
  {
    out := "";
    var i := 0;
    assert From(data, 0) == data;
    while i < |data|
      invariant 0 <= i
      invariant out + Encode(From(data, i)) == Encode(data)
      decreases |data| - i
    {
      EncodeFrom(data, i, out);
      out := EncodeGroup(data, i, out);
      i := i + 3;
    }
  }

  // ---------------------------------------------------------------- standard base64

  /** Section 4 of RFC 4648: bit groups taken byte by byte, '=' for what is missing. */
  function StdEncode(data: seq<Byte>): string {
    if data == [] then ""
    else if |data| == 1 then [StdChar(data[0] / 4), StdChar(data[0] % 4 * 16), '=', '=']
    else if |data| == 2 then
      [StdChar(data[0] / 4), StdChar(data[0] % 4 * 16 + data[1] / 16), StdChar(data[1] % 16 * 4), '=']
    else
      [StdChar(data[0] / 4), StdChar(data[0] % 4 * 16 + data[1] / 16),
       StdChar(data[1] % 16 * 4 + data[2] / 64), StdChar(data[2] % 64)] + StdEncode(data[3..])
  }

  /** The bytes of standard base64 text; None for anything else. */
  function StdDecode(s: string): Option<seq<Byte>> {
    if s == "" then Some([])
    else if |s| < 4 then None
    else
      match (StdValue(s[0]), StdValue(s[1]), StdValue(s[2]), StdValue(s[3]))
      case (Some(a), Some(b), Some(c), Some(d)) =>
        (match StdDecode(s[4..])
         case Some(rest) => Some([a * 4 + b / 16, b % 16 * 16 + c / 4, c % 4 * 64 + d] + rest)
         case None => None)
      case (Some(a), Some(b), Some(c), None) =>
        if |s| == 4 && s[3] == '=' then Some([a * 4 + b / 16, b % 16 * 16 + c / 4]) else None
      case (Some(a), Some(b), None, _) =>
        if |s| == 4 && s[2] == '=' && s[3] == '=' then Some([a * 4 + b / 16]) else None
      case _ => None
  }

  lemma ValueOfStdChar(v: nat)
    requires v < 64
    ensures StdValue(StdChar(v)) == Some(v)
  {
  }

  lemma Halves(hi: nat, lo: nat, k: nat)
    requires (k == 4 || k == 16) && lo < k
    ensures (hi * k + lo) / k == hi && (hi * k + lo) % k == lo
  {
  }

  lemma DecodeOne(a: Byte)
    ensures StdDecode(StdEncode([a])) == Some([a])
  {
    ValueOfStdChar(a / 4); ValueOfStdChar(a % 4 * 16);
  }

  lemma DecodeTwo(a: Byte, b: Byte)
    ensures StdDecode(StdEncode([a, b])) == Some([a, b])
  {
    ValueOfStdChar(a / 4); ValueOfStdChar(a % 4 * 16 + b / 16); ValueOfStdChar(b % 16 * 4);
    Halves(a % 4, b / 16, 16);
  }

  lemma DecodeFull(s: string, u: nat, v: nat, w: nat, x: nat, bytes: seq<Byte>)
    requires u < 64 && v < 64 && w < 64 && x < 64 && |s| >= 4
    requires StdValue(s[0]) == Some(u) && StdValue(s[1]) == Some(v)
    requires StdValue(s[2]) == Some(w) && StdValue(s[3]) == Some(x)
    requires StdDecode(s[4..]) == Some(bytes)
    ensures StdDecode(s) == Some([u * 4 + v / 16, v % 16 * 16 + w / 4, w % 4 * 64 + x] + bytes)
  {
  }

  /** Four full characters decode to the three bytes their values spell. */
  lemma DecodeQuad(u: nat, v: nat, w: nat, x: nat, rest: string, bytes: seq<Byte>)
    requires u < 64 && v < 64 && w < 64 && x < 64 && StdDecode(rest) == Some(bytes)
    ensures StdDecode([StdChar(u), StdChar(v), StdChar(w), StdChar(x)] + rest)
         == Some([u * 4 + v / 16, v % 16 * 16 + w / 4, w % 4 * 64 + x] + bytes)
  {
    var s := [StdChar(u), StdChar(v), StdChar(w), StdChar(x)] + rest;
    ValueOfStdChar(u); ValueOfStdChar(v); ValueOfStdChar(w); ValueOfStdChar(x);
    assert s[4..] == rest;
    DecodeFull(s, u, v, w, x, bytes);
  }

  lemma DecodeThree(a: Byte, b: Byte, c: Byte, rest: string, bytes: seq<Byte>)
    requires StdDecode(rest) == Some(bytes)
    ensures StdDecode([StdChar(a / 4), StdChar(a % 4 * 16 + b / 16), StdChar(b % 16 * 4 + c / 64),
                       StdChar(c % 64)] + rest)
         == Some([a, b, c] + bytes)
  {
    Halves(a % 4, b / 16, 16);
    Halves(b % 16, c / 64, 4);
    DecodeQuad(a / 4, a % 4 * 16 + b / 16, b % 16 * 4 + c / 64, c % 64, rest, bytes);
  }

  lemma StdShort(data: seq<Byte>)
    requires |data| < 3
    ensures StdDecode(StdEncode(data)) == Some(data)
  {
    if |data| == 1 {
      assert data == [data[0]];
      DecodeOne(data[0]);
    } else if |data| == 2 {
      assert data == [data[0], data[1]];
      DecodeTwo(data[0], data[1]);
    }
  }

  lemma StdStep(data: seq<Byte>, text: string)
    requires |data| >= 3 && text == StdEncode(data[3..]) && StdDecode(text) == Some(data[3..])
    ensures StdDecode(StdEncode(data)) == Some(data)
  {
    StdEncodeThree(data);
    DecodeThree(data[0], data[1], data[2], text, data[3..]);
    assert data == [data[0], data[1], data[2]] + data[3..];
  }

  lemma {:induction false} StdRoundTrip(data: seq<Byte>)
    ensures StdDecode(StdEncode(data)) == Some(data)
  {
    if |data| < 3 {
      StdShort(data);
    } else {
      StdRoundTrip(data[3..]);
      StdStep(data, StdEncode(data[3..]));
    }
  }

  /** A base64 filter: the bytes it reads, None when it reports an error. */
  type Base64 = string -> Option<seq<Byte>>

  /** It reads every encoding; what it makes of other text, such as fewer bytes, is its own affair. */
  ghost predicate ReadsBase64(bio: Base64) { forall data: seq<Byte> :: bio(StdEncode(data)) == Some(data) }

  /** Such a filter exists. */
  lemma StdDecodeReads()
    ensures ReadsBase64(StdDecode)
  {
    forall data: seq<Byte>
      ensures StdDecode(StdEncode(data)) == Some(data)
    {
      StdRoundTrip(data);
    }
  }

  // ---------------------------------------------------------------- the decoder

  function Rewrite(c: char): char { if c == '-' then '+' else if c == '_' then '/' else c }

  function RewriteAll(s: string): (r: string)
    ensures |r| == |s|
  {
    if s == "" then "" else RewriteAll(s[..|s| - 1]) + [Rewrite(s[|s| - 1])]
  }

  function Padding(n: nat): string {
    if n % 4 == 0 then "" else if n % 4 == 1 then "===" else if n % 4 == 2 then "==" else "="
  }

  function ToStandard(s: string): string { RewriteAll(s) + Padding(|s|) }

  function Decode(s: string, bio: Base64): Option<seq<Byte>> { bio(ToStandard(s)) }

  lemma {:induction false} RewriteConcat(a: string, b: string)
    ensures RewriteAll(a + b) == RewriteAll(a) + RewriteAll(b)
  {
    if b == "" {
      assert a + b == a;
    } else {
      RewriteConcat(a, b[..|b| - 1]);
      assert (a + b)[..|a + b| - 1] == a + b[..|b| - 1];
    }
  }

  lemma PaddingStep(n: nat)
    requires n % 4 != 0
    ensures Padding(n) == "=" + Padding(n + 1)
  {
  }

  method AddPadding(s: string) returns (b64: string)
    ensures b64 == s + Padding(|s|)
  {
    b64 := s;
    while |b64| % 4 != 0
      invariant b64 + Padding(|b64|) == s + Padding(|s|)
      decreases (4 - |b64| % 4) % 4
    {
      PaddingStep(|b64|);
      assert b64 + ("=" + Padding(|b64| + 1)) == b64 + "=" + Padding(|b64| + 1);
      b64 := b64 + "=";
    }
  }

  method Base64UrlDecode(input: string, bio: Base64) returns (out: Option<seq<Byte>>)
    ensures out == Decode(input, bio)
  {
    var b64 := "";
    for i := 0 to |input|
      invariant b64 == RewriteAll(input[..i])
    {
      assert input[..i + 1][..i] == input[..i];
      var c := input[i];
      if c == '-' {
        b64 := b64 + "+";
      } else if c == '_' {
        b64 := b64 + "/";
      } else {
        b64 := b64 + [c];
      }
    }
    assert input[..|input|] == input;
    b64 := AddPadding(b64);
    out := bio(b64);
  }

  lemma RewriteUrlChar(v: nat)
    requires v < 64
    ensures Rewrite(UrlChar(v)) == StdChar(v)
  {
  }

  lemma TopSextets(a: Byte, b: Byte, c: Byte)
    ensures Sextet(a as int * 0x10000 + b as int * 0x100 + c, 3) == a / 4
    ensures Sextet(a as int * 0x10000 + b as int * 0x100 + c, 2) == a % 4 * 16 + b / 16
  {
    var t := a as int * 0x10000 + b as int * 0x100 + c;
    assert t / 0x40000 == a / 4;
    assert t / 0x1000 == a as int * 16 + b / 16;
  }

  lemma LowSextets(a: Byte, b: Byte, c: Byte)
    ensures Sextet(a as int * 0x10000 + b as int * 0x100 + c, 1) == b % 16 * 4 + c / 64
    ensures Sextet(a as int * 0x10000 + b as int * 0x100 + c, 0) == c % 64
  {
    var t := a as int * 0x10000 + b as int * 0x100 + c;
    Sixty4(a as int * 1024 + b as int * 4 + c / 64, c % 64);
    assert t == 64 * (a as int * 1024 + b as int * 4 + c / 64) + c % 64;
    Sixty4(a as int * 16 + b / 16, b % 16 * 4 + c / 64);
    assert a as int * 1024 + b as int * 4 + c / 64 == 64 * (a as int * 16 + b / 16) + (b % 16 * 4 + c / 64);
  }

  lemma Sixty4(q: nat, r: nat)
    requires r < 64
    ensures (64 * q + r) / 64 == q && (64 * q + r) % 64 == r
  {
  }

  lemma TripletOfOne(data: seq<Byte>)
    requires |data| == 1
    ensures Triplet(data) == data[0] as int * 0x10000
  {
  }

  lemma SextetsOfOne(a: Byte)
    ensures Sextet(a as int * 0x10000, 3) == a / 4 && Sextet(a as int * 0x10000, 2) == a % 4 * 16
  {
    TopSextets(a, 0, 0);
  }

  lemma CharsOfOne(data: seq<Byte>)
    requires |data| == 1
    ensures GroupChars(data) == [UrlChar(data[0] / 4), UrlChar(data[0] % 4 * 16)]
  {
    TripletOfOne(data);
    SextetsOfOne(data[0]);
  }

  lemma RewriteTwo(x: char, y: char)
    ensures RewriteAll([x, y]) == [Rewrite(x), Rewrite(y)]
  {
    assert [x, y][..1] == [x] && [x][..0] == [];
    assert RewriteAll([x]) == [Rewrite(x)];
  }

  lemma RewriteThree(x: char, y: char, z: char)
    ensures RewriteAll([x, y, z]) == [Rewrite(x), Rewrite(y), Rewrite(z)]
  {
    RewriteTwo(x, y);
    assert [x, y, z][..2] == [x, y];
  }

  lemma RewriteFour(x: char, y: char, z: char, w: char)
    ensures RewriteAll([x, y, z, w]) == [Rewrite(x), Rewrite(y), Rewrite(z), Rewrite(w)]
  {
    RewriteThree(x, y, z);
    assert [x, y, z, w][..3] == [x, y, z];
  }

  lemma GroupOfOne(data: seq<Byte>)
    requires |data| == 1
    ensures ToStandard(GroupChars(data)) == StdEncode(data)
  {
    CharsOfOne(data);
    RewriteTwo(UrlChar(data[0] / 4), UrlChar(data[0] % 4 * 16));
    RewriteUrlChar(data[0] / 4);
    RewriteUrlChar(data[0] % 4 * 16);
  }

  lemma CharsOfTwo(data: seq<Byte>)
    requires |data| == 2
    ensures GroupChars(data)
         == [UrlChar(data[0] / 4), UrlChar(data[0] % 4 * 16 + data[1] / 16), UrlChar(data[1] % 16 * 4)]
  {
    TopSextets(data[0], data[1], 0);
    LowSextets(data[0], data[1], 0);
  }

  lemma GroupOfTwo(data: seq<Byte>)
    requires |data| == 2
    ensures ToStandard(GroupChars(data)) == StdEncode(data)
  {
    var x, y, z := data[0] / 4, data[0] % 4 * 16 + data[1] / 16, data[1] % 16 * 4;
    CharsOfTwo(data);
    RewriteThree(UrlChar(x), UrlChar(y), UrlChar(z));
    RewriteUrlChar(x); RewriteUrlChar(y); RewriteUrlChar(z);
  }

  lemma CharsOfThree(data: seq<Byte>)
    requires |data| == 3
    ensures GroupChars(data)
         == [UrlChar(data[0] / 4), UrlChar(data[0] % 4 * 16 + data[1] / 16),
             UrlChar(data[1] % 16 * 4 + data[2] / 64), UrlChar(data[2] % 64)]
  {
    TopSextets(data[0], data[1], data[2]);
    LowSextets(data[0], data[1], data[2]);
  }

  lemma StdEncodeThree(data: seq<Byte>)
    requires |data| >= 3
    ensures StdEncode(data)
         == [StdChar(data[0] / 4), StdChar(data[0] % 4 * 16 + data[1] / 16),
             StdChar(data[1] % 16 * 4 + data[2] / 64), StdChar(data[2] % 64)] + StdEncode(data[3..])
  {
  }

  lemma GroupOfThree(data: seq<Byte>)
    requires |data| == 3
    ensures ToStandard(GroupChars(data)) == StdEncode(data)
  {
    var x, y := data[0] / 4, data[0] % 4 * 16 + data[1] / 16;
    var z, w := data[1] % 16 * 4 + data[2] / 64, data[2] % 64;
    CharsOfThree(data);
    RewriteFour(UrlChar(x), UrlChar(y), UrlChar(z), UrlChar(w));
    RewriteUrlChar(x); RewriteUrlChar(y); RewriteUrlChar(z); RewriteUrlChar(w);
    StdEncodeThree(data);
    assert data[3..] == [];
  }

  lemma PaddingPeriod(m: nat, n: nat)
    requires m % 4 == 0
    ensures Padding(m) == "" && Padding(m + n) == Padding(n)
  {
    assert (m + n) % 4 == n % 4;
  }

  lemma ToStandardConcat(a: string, b: string)
    requires |a| % 4 == 0
    ensures ToStandard(a + b) == ToStandard(a) + ToStandard(b)
  {
    var x, y, pad := RewriteAll(a), RewriteAll(b), Padding(|b|);
    RewriteConcat(a, b);
    PaddingPeriod(|a|, |b|);
    Reassociate(x, y, pad);
  }

  lemma Reassociate(x: string, y: string, z: string)
    ensures x + y + z == x + "" + (y + z)
  {
  }

  lemma EncodeShort(data: seq<Byte>)
    requires 1 <= |data| <= 3
    ensures Encode(data) == GroupChars(data)
  {
  }

  lemma ShortIsStandard(data: seq<Byte>)
    requires |data| <= 3
    ensures ToStandard(Encode(data)) == StdEncode(data)
  {
    if data != [] { EncodeShort(data); }
    if |data| == 1 {
      GroupOfOne(data);
    } else if |data| == 2 {
      GroupOfTwo(data);
    } else if |data| == 3 {
      GroupOfThree(data);
    }
  }

  lemma GroupOfThreeFills(data: seq<Byte>)
    requires |data| > 3
    ensures Encode(data) == GroupChars(data[..3]) + Encode(data[3..]) && |GroupChars(data[..3])| == 4
  {
  }

  /** Rewriting and re-padding the encoder's output gives exactly the standard encoding. */
  lemma {:induction false} EncodeIsStandard(data: seq<Byte>)
    ensures ToStandard(Encode(data)) == StdEncode(data)
  {
    if |data| <= 3 {
      ShortIsStandard(data);
    } else {
      GroupOfThree(data[..3]);
      EncodeIsStandard(data[3..]);
      GroupOfThreeFills(data);
      ToStandardConcat(GroupChars(data[..3]), Encode(data[3..]));
      StdEncodeSplit(data);
    }
  }

  lemma StdEncodeOnlyThree(data: seq<Byte>)
    requires |data| == 3
    ensures StdEncode(data)
         == [StdChar(data[0] / 4), StdChar(data[0] % 4 * 16 + data[1] / 16),
             StdChar(data[1] % 16 * 4 + data[2] / 64), StdChar(data[2] % 64)]
  {
    StdEncodeThree(data);
    assert data[3..] == [];
  }

  lemma StdEncodeSplit(data: seq<Byte>)
    requires |data| > 3
    ensures StdEncode(data) == StdEncode(data[..3]) + StdEncode(data[3..])
  {
    StdEncodeThree(data);
    StdEncodeOnlyThree(data[..3]);
  }

  /** Decoding what the encoder wrote returns the original bytes, for every byte string. */
  lemma RoundTrip(data: seq<Byte>, bio: Base64)
    requires ReadsBase64(bio)
    ensures Decode(Encode(data), bio) == Some(data)
  {
    EncodeIsStandard(data);
  }
}
