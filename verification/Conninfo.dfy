/**
 Connection strings: percent-decoding, the URL form and the keyword/value form. Text is a sequence
 of bytes, so characters below 256.
 */
module Conninfo {
  import opened Wrappers
  import opened Text

  // ---------------------------------------------------------------- percent-decoding

  predicate IsHex(c: char) { '0' <= c <= '9' || 'a' <= c <= 'f' || 'A' <= c <= 'F' }

  function HexValue(c: char): (v: nat)
    requires IsHex(c)
    ensures v < 16
  {
    if c <= '9' then c as int - '0' as int
    else if c <= 'F' then c as int - 'A' as int + 10
    else c as int - 'a' as int + 10
  }

  /** A '%' with two hex digits after it stands at the front. */
  predicate EscapeFirst(s: string) { |s| > 2 && s[0] == '%' && IsHex(s[1]) && IsHex(s[2]) }

  function Unescape(s: string): char
    requires EscapeFirst(s)
  {
    (HexValue(s[1]) * 16 + HexValue(s[2])) as char
  }

  /** A malformed escape stays as it is. */
  function Decoded(s: string): string {
    if s == "" then "" else if EscapeFirst(s) then [Unescape(s)] + Decoded(s[3..]) else [s[0]] + Decoded(s[1..])
  }

  const LOWER_HEX := "0123456789abcdef"
  const UPPER_HEX := "0123456789ABCDEF"

  /** The sixteen digits of either case stand for 0 to 15, and no other character is one. */
  lemma HexDigitsExactly(c: char, v: nat)
    requires v < 16
    ensures IsHex(c) && HexValue(c) == v <==> c == LOWER_HEX[v] || c == UPPER_HEX[v]
  {
  }

  lemma TwoDigitsRead(x: char, y: char, rest: string)
    requires IsHex(x) && IsHex(y)
    ensures Decoded(['%', x, y] + rest) == [(16 * HexValue(x) + HexValue(y)) as char] + Decoded(rest)
  {
    assert (['%', x, y] + rest)[3..] == rest;
  }

  /** An escape is the byte of its two digits, whatever the case of either and whatever follows. */
  lemma EscapeReads(x: char, y: char, high: nat, low: nat, rest: string)
    requires high < 16 && (x == LOWER_HEX[high] || x == UPPER_HEX[high])
    requires low < 16 && (y == LOWER_HEX[low] || y == UPPER_HEX[low])
    ensures Decoded(['%', x, y] + rest) == [(16 * high + low) as char] + Decoded(rest)
  {
    HexDigitsExactly(x, high);
    HexDigitsExactly(y, low);
    TwoDigitsRead(x, y, rest);
  }

  /** Anything else at the front stays as it is: another character, or a '%' without two digits behind it. */
  lemma OthersStay(c: char, rest: string)
    requires c != '%' || |rest| < 2 || !IsHex(rest[0]) || !IsHex(rest[1])
    ensures Decoded([c] + rest) == [c] + Decoded(rest)
  {
    assert ([c] + rest)[1..] == rest;
  }

  lemma DecodedStep(s: string, i: nat, out: string)
    requires i < |s|
    ensures out + Decoded(s[i..])
         == if EscapeFirst(s[i..]) then out + [Unescape(s[i..])] + Decoded(s[i + 3..])
            else out + [s[i]] + Decoded(s[i + 1..])
  {
  }

  method UrlDecode(s: string) returns (out: string)
    ensures out == Decoded(s)
  {
    out := "";
    var i := 0;
    while i < |s|
      invariant 0 <= i <= |s|
      invariant out + Decoded(s[i..]) == Decoded(s)
    {
      DecodedStep(s, i, out);
      ghost var rest := s[i..];
      if s[i] == '%' && i + 2 < |s| {
        assert rest[1] == s[i + 1] && rest[2] == s[i + 2];
        if IsHex(s[i + 1]) && IsHex(s[i + 2]) {
          out := out + [(HexValue(s[i + 1]) * 16 + HexValue(s[i + 2])) as char];
          i := i + 2;
        } else {
          out := out + [s[i]];
        }
      } else {
        out := out + [s[i]];
      }
      i := i + 1;
    }
  }

  /** A character that percent-encoding may leave as it is: not '%', and no delimiter of a URL's authority. */
  predicate Plain(c: char) { c != '%' && c != ':' && c != '@' && c != '/' && c != '?' }

  /**
   `text` is a percent-encoding of `raw` (section 2.1 of RFC 3986): each byte plain or escaped, as
   the writer likes, with hex digits in either case.
   */
  ghost predicate Encodes(text: string, raw: string) {
    if raw == "" then text == ""
    else
      || (text != "" && text[0] == raw[0] && Plain(raw[0]) && Encodes(text[1..], raw[1..]))
      || (EscapeFirst(text) && Unescape(text) == raw[0] && Encodes(text[3..], raw[1..]))
  }

  const DELIMITERS := {':', '@', '/', '?'}

  predicate Clear(s: string, stops: set<char>) { forall i :: 0 <= i < |s| ==> s[i] !in stops }

  /** Decoding undoes every percent-encoding, and an encoding holds no delimiter. */
  lemma {:induction false} DecodeUndoesEncoding(text: string, raw: string)
    requires Encodes(text, raw)
    ensures Decoded(text) == raw
    ensures Clear(text, DELIMITERS)
  {
    if raw != "" {
      if text[0] == '%' {
        DecodeUndoesEncoding(text[3..], raw[1..]);
        assert text == [text[0], text[1], text[2]] + text[3..];
      } else {
        DecodeUndoesEncoding(text[1..], raw[1..]);
        assert text == [text[0]] + text[1..];
      }
    }
  }

  function HexDigit(v: nat): (c: char)
    requires v < 16
    ensures IsHex(c) && HexValue(c) == v
  {
    if v < 10 then ('0' as int + v) as char else ('A' as int + v - 10) as char
  }

  predicate Unreserved(c: char) {
    'A' <= c <= 'Z' || 'a' <= c <= 'z' || '0' <= c <= '9' || c == '-' || c == '.' || c == '_' || c == '~'
  }

  predicate Bytes(s: string) { forall i :: 0 <= i < |s| ==> s[i] as int < 256 }

  /** The canonical encoder: everything but the unreserved characters escaped, upper case. */
  function Escaped(raw: string): (text: string)
    requires Bytes(raw)
  {
    if raw == "" then ""
    else (if Unreserved(raw[0]) then [raw[0]]
          else ['%', HexDigit(raw[0] as int / 16), HexDigit(raw[0] as int % 16)]) + Escaped(raw[1..])
  }

  /** Every byte string has an encoding, so no user or password is out of reach. */
  lemma {:induction false} EscapedEncodes(raw: string)
    requires Bytes(raw)
    ensures Encodes(Escaped(raw), raw)
  {
    if raw != "" {
      EscapedEncodes(raw[1..]);
      if Unreserved(raw[0]) {
        assert Escaped(raw)[1..] == Escaped(raw[1..]);
      } else {
        assert Escaped(raw)[3..] == Escaped(raw[1..]);
      }
    }
  }

  // ---------------------------------------------------------------- scanning

  /** The number of leading characters outside `stops`: all of them when none stops. */
  function Span(s: string, stops: set<char>): (n: nat)
    ensures n <= |s|
  {
    if s == "" || s[0] in stops then 0 else 1 + Span(s[1..], stops)
  }

  lemma {:induction false} SpanStops(s: string, stops: set<char>)
    ensures Span(s, stops) < |s| ==> s[Span(s, stops)] in stops
    ensures forall i :: 0 <= i < Span(s, stops) ==> s[i] !in stops
  {
    if s != "" && s[0] !in stops { SpanStops(s[1..], stops); }
  }

  lemma {:induction false} SpanIs(s: string, stops: set<char>, n: nat)
    requires n <= |s| && (n < |s| ==> s[n] in stops) && forall i :: 0 <= i < n ==> s[i] !in stops
    ensures Span(s, stops) == n
    decreases n
  {
    if n > 0 { SpanIs(s[1..], stops, n - 1); }
  }

  /** `std::string::find` of a character from `from`; the size when there is none. */
  method FindChar(s: string, c: char, from: nat) returns (p: nat)
    requires from <= |s|
    ensures p == from + Span(s[from..], {c})
  {
    p := from;
    while p < |s| && s[p] != c
      invariant from <= p <= |s| && forall j :: from <= j < p ==> s[j] != c
    {
      p := p + 1;
    }
    SpanIs(s[from..], {c}, p - from);
  }

  // ---------------------------------------------------------------- fields

  datatype Fields = Fields(host: string, port: string, dbname: string, user: string, password: string)

  const NO_FIELDS := Fields("", "", "", "", "")

  /** The parsed fields, or which exception was thrown. */
  datatype Parsed = Parsed(fields: Fields) | MissingScheme | MissingField | NoEquals | UnterminatedQuote

  function Checked(f: Fields): Parsed {
    if f.host == "" || f.dbname == "" || f.user == "" then MissingField else Parsed(f)
  }

  // ---------------------------------------------------------------- the URL form

  const COLON := {':'}
  const AT := {'@'}
  const QUERY := {'?'}
  const AUTHORITY_END := {'/', '?'}

  /** The position of the first "://", or the size. */
  function SchemeEnd(s: string): (n: nat)
    ensures n == |s| || (n + 3 <= |s| && s[n] == ':' && s[n + 1] == '/' && s[n + 2] == '/')
  {
    if s == "" || (|s| >= 3 && s[0] == ':' && s[1] == '/' && s[2] == '/') then 0 else 1 + SchemeEnd(s[1..])
  }

  /** The pieces around the first stop: what precedes it, and what follows it when it is there. */
  function Head(s: string, stops: set<char>): string { s[..Span(s, stops)] }

  function Rest(s: string, stops: set<char>): string { if Span(s, stops) < |s| then s[Span(s, stops) + 1..] else "" }

  predicate Stopped(s: string, stops: set<char>) { Span(s, stops) < |s| }

  function UserInfo(authority: string): string { if Stopped(authority, AT) then Head(authority, AT) else "" }

  function HostPort(authority: string): string { if Stopped(authority, AT) then Rest(authority, AT) else authority }

  /** What follows the '/' that ends the authority; empty when a '?' or nothing ends it. */
  function Path(rest: string): string {
    if Stopped(rest, AUTHORITY_END) && rest[Span(rest, AUTHORITY_END)] == '/' then Rest(rest, AUTHORITY_END) else ""
  }

  /** The fields of an authority and a database name. */
  function FieldsOf(authority: string, dbname: string): Fields {
    Fields(Head(HostPort(authority), COLON), Rest(HostPort(authority), COLON), dbname,
           Decoded(Head(UserInfo(authority), COLON)), Decoded(Rest(UserInfo(authority), COLON)))
  }

  /** The text after the scheme, read as authority and path. */
  function ReadUrl(rest: string): Parsed {
    Checked(FieldsOf(Head(rest, AUTHORITY_END), Head(Path(rest), QUERY)))
  }

  function AfterScheme(s: string): Option<string> {
    if SchemeEnd(s) == |s| then None else Some(s[SchemeEnd(s) + 3..])
  }

  function UrlMeaning(s: string): Parsed {
    match AfterScheme(s) case None => MissingScheme case Some(rest) => ReadUrl(rest)
  }

  lemma SpanOfHead(s: string, stops: set<char>, inner: set<char>)
    ensures Span(Head(s, stops), inner) == if Span(s, inner) < Span(s, stops) then Span(s, inner) else Span(s, stops)
  {
    SpanStops(s, stops);
    SpanStops(s, inner);
    SpanIs(Head(s, stops), inner, if Span(s, inner) < Span(s, stops) then Span(s, inner) else Span(s, stops));
  }

  method FindScheme(s: string) returns (i: nat)
    ensures i == SchemeEnd(s)
  {
    i := 0;
    while i < |s| && !(i + 3 <= |s| && s[i] == ':' && s[i + 1] == '/' && s[i + 2] == '/')
      invariant 0 <= i <= |s|
      invariant SchemeEnd(s) == i + SchemeEnd(s[i..])
    {
      assert s[i..][1..] == s[i + 1..];
      i := i + 1;
    }
  }

  /** Splits at the first colon; the part after it is empty when there is none. */
  method SplitColon(s: string) returns (before: string, after: string)
    ensures before == Head(s, COLON) && after == Rest(s, COLON)
  {
    var colon := FindChar(s, ':', 0);
    assert s[0..] == s;
    if colon < |s| { before, after := s[..colon], s[colon + 1..]; } else { before, after := s, ""; }
  }

  method AuthorityEnd(s: string, from: nat) returns (end: nat)
    requires from <= |s|
    ensures end == from + Span(s[from..], AUTHORITY_END)
  {
    end := |s|;
    for j := from to |s|
      invariant end == |s| && forall k :: from <= k < j ==> s[k] !in AUTHORITY_END
    {
      if s[j] == '/' || s[j] == '?' { end := j; break; }
    }
    SpanIs(s[from..], AUTHORITY_END, end - from);
  }

  /** The user and password before an '@' inside the authority, and where the host starts. */
  method ReadUserInfo(s: string, i: nat, authEnd: nat) returns (user: string, password: string, host: nat)
    requires i <= authEnd <= |s| && authEnd == i + Span(s[i..], AUTHORITY_END)
    ensures i <= host <= authEnd && s[host..authEnd] == HostPort(s[i..authEnd])
    ensures user == Decoded(Head(UserInfo(s[i..authEnd]), COLON))
    ensures password == Decoded(Rest(UserInfo(s[i..authEnd]), COLON))
  {
    user, password, host := "", "", i;
    var at := FindChar(s, '@', i);
    assert Head(s[i..], AUTHORITY_END) == s[i..authEnd];
    SpanOfHead(s[i..], AUTHORITY_END, AT);
    if at < |s| && at < authEnd {
      assert s[i..at] == UserInfo(s[i..authEnd]);
      user, password := SplitColon(s[i..at]);
      user := UrlDecode(user);
      password := UrlDecode(password);
      host := at + 1;
    }
  }

  method ReadDbname(s: string, i: nat, authEnd: nat) returns (dbname: string)
    requires i <= authEnd <= |s| && authEnd == i + Span(s[i..], AUTHORITY_END)
    ensures dbname == Head(Path(s[i..]), QUERY)
  {
    dbname := "";
    if authEnd < |s| && s[authEnd] == '/' {
      assert s[authEnd + 1..] == Rest(s[i..], AUTHORITY_END);
      var q := FindChar(s, '?', authEnd + 1);
      dbname := s[authEnd + 1..q];
    }
  }

  method ParseUrl(s: string) returns (out: Parsed)
    ensures out == UrlMeaning(s)
  {
    var i := FindScheme(s);
    if i == |s| { return MissingScheme; }
    i := i + 3;
    var authEnd := AuthorityEnd(s, i);
    var user, password, at := ReadUserInfo(s, i, authEnd);
    var host, port := SplitColon(s[at..authEnd]);
    var dbname := ReadDbname(s, i, authEnd);
    assert s[i..authEnd] == Head(s[i..], AUTHORITY_END);
    out := Checked(Fields(host, port, dbname, user, password));
  }

  /** "postgresql" or "postgres" followed by "://". */
  predicate IsUrlForm(s: string) {
    (|s| >= 13 && s[..13] == "postgresql://") || (|s| >= 11 && s[..11] == "postgres://")
  }

  // ---------------------------------------------------------------- writing a URL

  function Part(mark: char, part: Option<string>): string { if part.Some? then [mark] + part.value else "" }

  function ValueOrEmpty(part: Option<string>): string { if part.Some? then part.value else "" }

  lemma CutPart(s: string, mark: char, part: Option<string>)
    requires Clear(s, {mark})
    ensures Head(s + Part(mark, part), {mark}) == s && Rest(s + Part(mark, part), {mark}) == ValueOrEmpty(part)
  {
    if part.None? {
      CutNothing(s, {mark});
    } else {
      CutAt(s, mark, part.value, {mark});
      assert s + [mark] + part.value == s + ([mark] + part.value);
    }
  }

  lemma CutNothing(s: string, stops: set<char>)
    requires Clear(s, stops)
    ensures Head(s + "", stops) == s && Rest(s + "", stops) == ""
  {
    assert s + "" == s;
    SpanIs(s, stops, |s|);
  }

  lemma CutAt(s: string, mark: char, rest: string, stops: set<char>)
    requires Clear(s, stops) && mark in stops
    ensures Span(s + [mark] + rest, stops) == |s|
    ensures Head(s + [mark] + rest, stops) == s && Rest(s + [mark] + rest, stops) == rest
  {
    SpanIs(s + [mark] + rest, stops, |s|);
  }

  lemma {:induction false} SchemeIs(name: string, rest: string)
    requires Clear(name, {':'})
    ensures SchemeEnd(name + "://" + rest) == |name|
  {
    var s := name + "://" + rest;
    if name != "" {
      SchemeIs(name[1..], rest);
      assert s[1..] == name[1..] + "://" + rest;
    }
  }

  /** `[user[:password]@]host[:port]`, with the user and password already encoded. */
  function AuthorityText(user: string, password: Option<string>, host: string, port: Option<string>): string {
    user + Part(':', password) + "@" + (host + Part(':', port))
  }

  /** What follows the scheme of a URL. */
  function UrlRest(authority: string, dbname: string, params: Option<string>): string {
    authority + "/" + (dbname + Part('?', params))
  }

  function UrlText(scheme: string, authority: string, dbname: string, params: Option<string>): string {
    scheme + "://" + UrlRest(authority, dbname, params)
  }

  lemma AuthorityReads(user: string, password: Option<string>, host: string, port: Option<string>)
    requires Clear(user, {':', '@'}) && Clear(ValueOrEmpty(password), {'@'}) && Clear(host, {':'})
    ensures var a := AuthorityText(user, password, host, port);
            && Head(UserInfo(a), COLON) == user && Rest(UserInfo(a), COLON) == ValueOrEmpty(password)
            && Head(HostPort(a), COLON) == host && Rest(HostPort(a), COLON) == ValueOrEmpty(port)
  {
    CutAt(user + Part(':', password), '@', host + Part(':', port), AT);
    CutPart(user, ':', password);
    CutPart(host, ':', port);
  }

  lemma SchemeReads(scheme: string, rest: string)
    requires Clear(scheme, {':'})
    ensures AfterScheme(scheme + "://" + rest) == Some(rest)
  {
    SchemeIs(scheme, rest);
    assert (scheme + "://" + rest)[|scheme| + 3..] == rest;
  }

  lemma RestReads(authority: string, dbname: string, params: Option<string>)
    requires Clear(authority, AUTHORITY_END) && Clear(dbname, {'?'})
    ensures Head(UrlRest(authority, dbname, params), AUTHORITY_END) == authority
    ensures Head(Path(UrlRest(authority, dbname, params)), QUERY) == dbname
  {
    var tail := dbname + Part('?', params);
    CutAt(authority, '/', tail, AUTHORITY_END);
    assert authority + "/" + tail == authority + ['/'] + tail;
    CutPart(dbname, '?', params);
  }

  lemma AuthorityIsClear(user: string, password: Option<string>, host: string, port: Option<string>)
    requires Clear(user, AUTHORITY_END) && Clear(ValueOrEmpty(password), AUTHORITY_END)
    requires Clear(host, AUTHORITY_END) && Clear(ValueOrEmpty(port), AUTHORITY_END)
    ensures Clear(AuthorityText(user, password, host, port), AUTHORITY_END)
  {
  }

  lemma SchemeNames(scheme: string, rest: string)
    requires scheme == "postgresql" || scheme == "postgres"
    ensures Clear(scheme, {':'}) && IsUrlForm(scheme + "://" + rest)
  {
  }

  lemma UrlFormMeans(s: string)
    requires IsUrlForm(s)
    ensures ConninfoMeaning(s) == UrlMeaning(s)
  {
  }

  lemma BehindScheme(s: string, rest: string)
    requires AfterScheme(s) == Some(rest)
    ensures UrlMeaning(s) == ReadUrl(rest)
  {
  }

  lemma ReadUrlIs(rest: string, authority: string, dbname: string)
    requires authority == Head(rest, AUTHORITY_END) && dbname == Head(Path(rest), QUERY)
    ensures ReadUrl(rest) == Checked(FieldsOf(authority, dbname))
  {
  }

  /** A URL over an authority means the fields of the authority and the database name. */
  lemma AuthorityMeans(scheme: string, authority: string, dbname: string, params: Option<string>)
    requires scheme == "postgresql" || scheme == "postgres"
    requires Clear(authority, AUTHORITY_END) && Clear(dbname, {'?'})
    ensures ConninfoMeaning(UrlText(scheme, authority, dbname, params)) == Checked(FieldsOf(authority, dbname))
  {
    var rest := UrlRest(authority, dbname, params);
    SchemeNames(scheme, rest);
    UrlFormMeans(scheme + "://" + rest);
    SchemeReads(scheme, rest);
    BehindScheme(scheme + "://" + rest, rest);
    RestReads(authority, dbname, params);
    ReadUrlIs(rest, authority, dbname);
  }

  lemma ClearOfDelimiters(s: string)
    requires Clear(s, DELIMITERS)
    ensures Clear(s, {':', '@'}) && Clear(s, {'@'}) && Clear(s, AUTHORITY_END)
  {
  }

  lemma ClearHost(host: string)
    requires Clear(host, {':', '/', '?'})
    ensures Clear(host, {':'}) && Clear(host, AUTHORITY_END)
  {
  }

  /**
   Whatever the user and password, however they were percent-encoded, and whatever host, port and
   database name without delimiters, the parser returns every field exactly; it refuses the URL
   exactly when host, database name or user is empty.
   */
  lemma UrlRoundTrip(scheme: string, user: string, password: string, host: string, port: Option<string>, dbname: string,
                     userText: string, passwordText: Option<string>, params: Option<string>)
    requires scheme == "postgresql" || scheme == "postgres"
    requires Encodes(userText, user) && Encodes(ValueOrEmpty(passwordText), password)
    requires Clear(host, {':', '/', '?'}) && Clear(ValueOrEmpty(port), {'/', '?'}) && Clear(dbname, {'?'})
    ensures ConninfoMeaning(UrlText(scheme, AuthorityText(userText, passwordText, host, port), dbname, params))
         == if host == "" || dbname == "" || user == "" then MissingField
            else Parsed(Fields(host, ValueOrEmpty(port), dbname, user, password))
  {
    var authority := AuthorityText(userText, passwordText, host, port);
    DecodeUndoesEncoding(userText, user);
    DecodeUndoesEncoding(ValueOrEmpty(passwordText), password);
    ClearOfDelimiters(userText);
    ClearOfDelimiters(ValueOrEmpty(passwordText));
    ClearHost(host);
    AuthorityReads(userText, passwordText, host, port);
    AuthorityIsClear(userText, passwordText, host, port);
    AuthorityMeans(scheme, authority, dbname, params);
  }

  /** An authority without '@' names no user. */
  lemma NoUserInfo(authority: string)
    requires Clear(authority, AT)
    ensures UserInfo(authority) == "" && HostPort(authority) == authority
  {
    SpanIs(authority, AT, |authority|);
  }

  lemma NoPath(authority: string, params: Option<string>)
    requires Clear(authority, AUTHORITY_END)
    ensures Head(authority + Part('?', params), AUTHORITY_END) == authority && Path(authority + Part('?', params)) == ""
  {
    SpanIs(authority + Part('?', params), AUTHORITY_END, |authority|);
  }

  /** A URL without a user is refused, and so is one without a database, whatever else it has. */
  lemma IncompleteUrls(scheme: string, authority: string, dbname: string, params: Option<string>)
    requires scheme == "postgresql" || scheme == "postgres"
    requires Clear(authority, {'/', '?'}) && Clear(dbname, {'?'})
    ensures Clear(authority, AT) ==> ConninfoMeaning(UrlText(scheme, authority, dbname, params)) == MissingField
    ensures ConninfoMeaning(scheme + "://" + (authority + Part('?', params))) == MissingField
  {
    if Clear(authority, AT) {
      AuthorityMeans(scheme, authority, dbname, params);
      NoUserInfo(authority);
    }
    var rest := authority + Part('?', params);
    SchemeNames(scheme, rest);
    UrlFormMeans(scheme + "://" + rest);
    SchemeReads(scheme, rest);
    BehindScheme(scheme + "://" + rest, rest);
    NoPath(authority, params);
    ReadUrlIs(rest, authority, "");
  }

  // ---------------------------------------------------------------- the keyword form

  const SPACES := {' ', '\t', '\n', '\U{0B}', '\U{0C}', '\r'}

  function SkipSpaces(s: string): (r: string)
    ensures |r| <= |s| && (r != "" ==> !IsSpace(r[0]))
  {
    if s != "" && IsSpace(s[0]) then SkipSpaces(s[1..]) else s
  }

  const EQUALS := {'='}
  const QUOTE := {'\''}

  /** Unknown keys are ignored; a later item overrides an earlier one. */
  function Assign(f: Fields, key: string, value: string): Fields {
    if key == "host" || key == "hostaddr" then f.(host := value)
    else if key == "port" then f.(port := value)
    else if key == "dbname" then f.(dbname := value)
    else if key == "user" then f.(user := value)
    else if key == "password" then f.(password := value)
    else f
  }

  predicate Quoted(value: string) { value != "" && value[0] == '\'' }

  /** What stands next in the text: nothing but spaces, an item and what follows it, or an error. */
  datatype Next = End | Bad(error: Parsed) | Item(key: string, value: string, rest: string)

  /** Value: bare up to the next space, or in single quotes. */
  function AfterKey(key: string, value: string): (r: Next)
    ensures r.Item? ==> |r.rest| <= |value|
  {
    if Quoted(value) then
      if !Stopped(value[1..], QUOTE) then Bad(UnterminatedQuote)
      else Item(key, Head(value[1..], QUOTE), Rest(value[1..], QUOTE))
    else Item(key, Head(value, SPACES), value[Span(value, SPACES)..])
  }

  function NextItem(s: string): (r: Next)
    ensures r.Item? ==> |r.rest| < |s|
  {
    var item := SkipSpaces(s);
    if item == "" then End
    else if !Stopped(item, EQUALS) then Bad(NoEquals)
    else AfterKey(Head(item, EQUALS), Rest(item, EQUALS))
  }

  function ReadItems(s: string, f: Fields): Parsed
    decreases |s|
  {
    match NextItem(s)
    case End => Checked(f)
    case Bad(error) => error
    case Item(key, value, rest) => ReadItems(rest, Assign(f, key, value))
  }

  function ConninfoMeaning(s: string): Parsed { if IsUrlForm(s) then UrlMeaning(s) else ReadItems(s, NO_FIELDS) }

  lemma SpacesAreSpace(c: char)
    ensures c in SPACES <==> IsSpace(c)
  {
  }

  method ReadQuoted(s: string, i: nat, key: string) returns (r: Next, next: nat)
    requires i < |s| && s[i] == '\''
    ensures r == AfterKey(key, s[i..])
    ensures r.Item? ==> i <= next <= |s| && s[next..] == r.rest
  {
    next := i + 1;
    assert s[i..][1..] == s[next..];
    var end := FindChar(s, '\'', next);
    if end == |s| { return Bad(UnterminatedQuote), next; }
    r := Item(key, s[next..end], s[end + 1..]);
    next := end + 1;
  }

  method ReadBare(s: string, i: nat, key: string) returns (r: Next, next: nat)
    requires i <= |s| && (i < |s| ==> s[i] != '\'')
    ensures r == AfterKey(key, s[i..])
    ensures r.Item? ==> i <= next <= |s| && s[next..] == r.rest
  {
    next := i;
    while next < |s| && !IsSpace(s[next])
      invariant i <= next <= |s| && forall k :: i <= k < next ==> s[k] !in SPACES
    {
      SpacesAreSpace(s[next]);
      next := next + 1;
    }
    if next < |s| { SpacesAreSpace(s[next]); }
    SpanIs(s[i..], SPACES, next - i);
    assert s[i..][..next - i] == s[i..next] && s[i..][next - i..] == s[next..];
    r := Item(key, s[i..next], s[next..]);
  }

  /** Reads the value at `i`; `next` is the index after it. */
  method ReadValue(s: string, i: nat, key: string) returns (r: Next, next: nat)
    requires i <= |s|
    ensures r == AfterKey(key, s[i..])
    ensures r.Item? ==> i <= next <= |s| && s[next..] == r.rest
  {
    if i < |s| && s[i] == '\'' {
      r, next := ReadQuoted(s, i, key);
    } else {
      r, next := ReadBare(s, i, key);
    }
  }

  method SkipSpacesFrom(s: string, from: nat) returns (i: nat)
    requires from <= |s|
    ensures from <= i <= |s| && s[i..] == SkipSpaces(s[from..])
  {
    i := from;
    while i < |s| && IsSpace(s[i])
      invariant from <= i <= |s| && SkipSpaces(s[i..]) == SkipSpaces(s[from..])
    {
      assert s[i..][1..] == s[i + 1..];
      i := i + 1;
    }
  }

  /** The body of the loop; `next` is the index after an item. */
  method ReadItem(s: string, from: nat) returns (r: Next, next: nat)
    requires from <= |s|
    ensures r == NextItem(s[from..])
    ensures r.Item? ==> from < next <= |s| && s[next..] == r.rest
  {
    var i := SkipSpacesFrom(s, from);
    next := i;
    if i == |s| { return End, i; }
    var eq := FindChar(s, '=', i);
    if eq == |s| { return Bad(NoEquals), i; }
    assert s[eq + 1..] == Rest(s[i..], EQUALS) && s[i..eq] == Head(s[i..], EQUALS);
    r, next := ReadValue(s, eq + 1, s[i..eq]);
  }

  method ParseKeyword(s: string) returns (out: Parsed)
    ensures out == ReadItems(s, NO_FIELDS)
  {
    var f := NO_FIELDS;
    var i := 0;
    while i < |s|
      invariant 0 <= i <= |s|
      invariant ReadItems(s[i..], f) == ReadItems(s, NO_FIELDS)
    {
      var item, next := ReadItem(s, i);
      if item.End? { return Checked(f); }
      if item.Bad? { return item.error; }
      f := Assign(f, item.key, item.value);
      i := next;
    }
    out := Checked(f);
  }

  method ParseConninfo(s: string) returns (out: Parsed)
    ensures out == ConninfoMeaning(s)
  {
    if IsUrlForm(s) { out := ParseUrl(s); } else { out := ParseKeyword(s); }
  }

  // ---------------------------------------------------------------- writing keyword items

  /** An item as a person writes it: spaces, a key, and a value that is bare or in quotes. */
  datatype Written = Written(gap: string, key: string, value: string, quoted: bool)

  ghost predicate AllSpaces(s: string) { forall i :: 0 <= i < |s| ==> IsSpace(s[i]) }

  ghost predicate Writable(w: Written) {
    && AllSpaces(w.gap)
    && Clear(w.key, EQUALS) && (w.key != "" ==> !IsSpace(w.key[0]))
    && if w.quoted then Clear(w.value, QUOTE) else Clear(w.value, SPACES) && !Quoted(w.value)
  }

  function ItemText(w: Written): string {
    w.gap + (w.key + ['='] + ValueText(w.value, w.quoted))
  }

  /** The items in order and spaces at the end. */
  function ItemsText(items: seq<Written>, tail: string): string {
    if items == [] then tail else ItemText(items[0]) + ItemsText(items[1..], tail)
  }

  /** A bare value needs a space after it before anything else. */
  ghost predicate AllWritable(items: seq<Written>) {
    && (forall i :: 0 <= i < |items| ==> Writable(items[i]))
    && (forall i :: 0 <= i < |items| - 1 ==> items[i].quoted || items[i + 1].gap != "")
  }

  function AssignAll(f: Fields, items: seq<Written>): Fields
    decreases items
  {
    if items == [] then f else AssignAll(Assign(f, items[0].key, items[0].value), items[1..])
  }

  lemma {:induction false} SkipGap(gap: string, rest: string)
    requires AllSpaces(gap)
    ensures SkipSpaces(gap + rest) == SkipSpaces(rest)
  {
    if gap != "" {
      assert (gap + rest)[1..] == gap[1..] + rest;
      SkipGap(gap[1..], rest);
    } else {
      assert gap + rest == rest;
    }
  }

  function ValueText(value: string, quoted: bool): string { if quoted then "'" + value + "'" else value }

  lemma ValueReads(key: string, value: string, quoted: bool, rest: string)
    requires if quoted then Clear(value, QUOTE) else Clear(value, SPACES) && !Quoted(value)
    requires quoted || rest == "" || IsSpace(rest[0])
    ensures AfterKey(key, ValueText(value, quoted) + rest) == Item(key, value, rest)
  {
    var text := ValueText(value, quoted) + rest;
    if quoted {
      assert text[1..] == value + ['\''] + rest;
      CutAt(value, '\'', rest, QUOTE);
    } else {
      if rest != "" { SpacesAreSpace(rest[0]); }
      SpanIs(text, SPACES, |value|);
      assert !Quoted(text);
    }
  }

  lemma KeyReads(key: string, after: string)
    requires Clear(key, EQUALS) && (key != "" ==> !IsSpace(key[0]))
    ensures NextItem(key + ['='] + after) == AfterKey(key, after)
  {
    CutAt(key, '=', after, EQUALS);
  }

  lemma ItemReads(w: Written, rest: string)
    requires Writable(w) && (w.quoted || rest == "" || IsSpace(rest[0]))
    ensures NextItem(ItemText(w) + rest) == Item(w.key, w.value, rest)
  {
    var after := ValueText(w.value, w.quoted) + rest;
    var item := w.key + ['='] + after;
    assert ItemText(w) + rest == w.gap + item;
    SkipGap(w.gap, item);
    KeyReads(w.key, after);
    ValueReads(w.key, w.value, w.quoted, rest);
  }

  lemma SpacesEnd(tail: string)
    requires AllSpaces(tail)
    ensures NextItem(tail) == End
  {
    SkipGap(tail, "");
    assert tail + "" == tail;
  }

  lemma NextIsSpace(items: seq<Written>, tail: string)
    requires AllWritable(items) && AllSpaces(tail) && (items == [] || items[0].gap != "")
    ensures ItemsText(items, tail) == "" || IsSpace(ItemsText(items, tail)[0])
  {
  }

  /** Every list of writable items is read back item by item, the fields assigned in order. */
  lemma {:induction false} KeywordRoundTrip(items: seq<Written>, tail: string, f: Fields)
    requires AllWritable(items) && AllSpaces(tail)
    ensures ReadItems(ItemsText(items, tail), f) == Checked(AssignAll(f, items))
  {
    if items == [] {
      SpacesEnd(tail);
    } else {
      var w, rest := items[0], ItemsText(items[1..], tail);
      if !w.quoted { NextIsSpace(items[1..], tail); }
      ItemReads(w, rest);
      KeywordRoundTrip(items[1..], tail, Assign(f, w.key, w.value));
    }
  }

  /** The keyword form means its items: each field the last value given, refused without host, database or user. */
  lemma ItemsMean(items: seq<Written>, tail: string)
    requires AllWritable(items) && AllSpaces(tail) && !IsUrlForm(ItemsText(items, tail))
    ensures var f := AssignAll(NO_FIELDS, items);
            ConninfoMeaning(ItemsText(items, tail))
            == if f.host == "" || f.dbname == "" || f.user == "" then MissingField else Parsed(f)
  {
    KeywordRoundTrip(items, tail, NO_FIELDS);
  }

  /** What cannot be read as an item makes the whole text fail, after whatever items. */
  lemma {:induction false} BadEnd(items: seq<Written>, ending: string, f: Fields, error: Parsed)
    requires AllWritable(items) && ending != "" && IsSpace(ending[0]) && NextItem(ending) == Bad(error)
    ensures ReadItems(ItemsText(items, ending), f) == error
  {
    if items != [] {
      var w, rest := items[0], ItemsText(items[1..], ending);
      if !w.quoted { NextStartsSpace(items[1..], ending); }
      ItemReads(w, rest);
      BadEnd(items[1..], ending, Assign(f, w.key, w.value), error);
    }
  }

  lemma NextStartsSpace(items: seq<Written>, ending: string)
    requires AllWritable(items) && ending != "" && IsSpace(ending[0]) && (items == [] || items[0].gap != "")
    ensures ItemsText(items, ending) != "" && IsSpace(ItemsText(items, ending)[0])
  {
  }

  /** A word without '=' is an error, and so is a quote that is never closed. */
  lemma ErrorsRead(gap: string, key: string, value: string)
    requires AllSpaces(gap) && Clear(key, EQUALS) && key != "" && !IsSpace(key[0]) && Clear(value, QUOTE)
    ensures NextItem(gap + key) == Bad(NoEquals)
    ensures NextItem(gap + (key + ['='] + (['\''] + value))) == Bad(UnterminatedQuote)
  {
    SkipGap(gap, key);
    SpanIs(key, EQUALS, |key|);
    SkipGap(gap, key + ['='] + (['\''] + value));
    KeyReads(key, ['\''] + value);
    assert (['\''] + value)[1..] == value;
    SpanIs(value, QUOTE, |value|);
  }

  /** The field an item's key names: `hostaddr` is a second name of `host`, unknown keys name none. */
  datatype Field = Host | Port | Dbname | User | Password | NoField

  function FieldOf(key: string): Field {
    if key == "host" || key == "hostaddr" then Host else if key == "port" then Port
    else if key == "dbname" then Dbname else if key == "user" then User
    else if key == "password" then Password else NoField
  }

  function Get(f: Fields, field: Field): string {
    match field
    case Host => f.host
    case Port => f.port
    case Dbname => f.dbname
    case User => f.user
    case Password => f.password
    case NoField => ""
  }

  lemma AssignSets(f: Fields, key: string, value: string, field: Field)
    requires field != NoField
    ensures Get(Assign(f, key, value), field) == if FieldOf(key) == field then value else Get(f, field)
  {
  }

  /** Each field ends as the value of the last item that names it, or as it was when none does. */
  lemma {:induction false} LastItemWins(f: Fields, items: seq<Written>, field: Field, p: nat)
    requires field != NoField && p <= |items|
    requires p < |items| ==> FieldOf(items[p].key) == field
    requires p == |items| ==> forall q :: 0 <= q < |items| ==> FieldOf(items[q].key) != field
    requires forall q :: p < q < |items| ==> FieldOf(items[q].key) != field
    ensures Get(AssignAll(f, items), field) == if p < |items| then items[p].value else Get(f, field)
    decreases |items|
  {
    if items != [] {
      var f' := Assign(f, items[0].key, items[0].value);
      AssignSets(f, items[0].key, items[0].value, field);
      if p == 0 {
        LastItemWins(f', items[1..], field, |items| - 1);
      } else {
        LastItemWins(f', items[1..], field, p - 1);
      }
    }
  }
}
