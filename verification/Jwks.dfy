/**
 The JWKS cache: a document of keys is fetched on a miss or after the time to live, converted key
 by key, and swapped in whole. What the network and OpenSSL do is a parameter of each call.
 */
module Jwks {
  import opened Wrappers
  import Base64Url

  type Byte = Base64Url.Byte

  datatype Json = Object(fields: map<string, Json>) | Array(items: seq<Json>) | Text(text: string) | Other

  /** The two library calls: a base64 filter, and PEM text from modulus and exponent bytes; None is a failure. */
  datatype OpenSsl = OpenSsl(base64: Base64Url.Base64, toPem: (seq<Byte>, seq<Byte>) -> Option<string>)

  // ---------------------------------------------------------------- one entry

  /** What one entry of the document does to the conversion; Fail is an exception. */
  datatype Entry = Skip | Fail | Key(kid: string, pem: string)

  /** `value(name, "")`: the default when absent, an exception (None) when present but not a string. */
  function TextOrEmpty(fields: map<string, Json>, name: string): Option<string> {
    if name !in fields then Some("") else if fields[name].Text? then Some(fields[name].text) else None
  }

  function JwkToPem(n: string, e: string, ssl: OpenSsl): Option<string> {
    match (Base64Url.Decode(n, ssl.base64), Base64Url.Decode(e, ssl.base64))
    case (Some(nBytes), Some(eBytes)) => if nBytes == [] || eBytes == [] then None else ssl.toPem(nBytes, eBytes)
    case _ => None
  }

  function ReadEntry(k: Json, ssl: OpenSsl): Entry {
    if !k.Object? then Skip
    else
      match TextOrEmpty(k.fields, "kty")
      case None => Fail
      case Some(kty) =>
        if kty != "RSA" then Skip
        else
          match TextOrEmpty(k.fields, "kid")
          case None => Fail
          case Some(kid) =>
            if kid == "" then Skip
            else if "n" !in k.fields || "e" !in k.fields then Skip
            else if !k.fields["n"].Text? || !k.fields["e"].Text? then Skip
            else
              match JwkToPem(k.fields["n"].text, k.fields["e"].text, ssl)
              case None => Fail
              case Some(pem) => Key(kid, pem)
  }

  // ---------------------------------------------------------------- a whole document

  function ReadAll(items: seq<Json>, ssl: OpenSsl): (entries: seq<Entry>)
    ensures |entries| == |items| && forall i :: 0 <= i < |items| ==> entries[i] == ReadEntry(items[i], ssl)
  {
    if items == [] then [] else ReadAll(items[..|items| - 1], ssl) + [ReadEntry(items[|items| - 1], ssl)]
  }

  /** The map built by visiting the entries in order, a later entry overwriting an earlier one. */
  function Convert(entries: seq<Entry>): Option<map<string, string>> {
    if entries == [] then Some(map[])
    else
      match Convert(entries[..|entries| - 1])
      case None => None
      case Some(before) =>
        match entries[|entries| - 1]
        case Skip => Some(before)
        case Fail => None
        case Key(kid, pem) => Some(before[kid := pem])
  }

  function Keys(document: Json): seq<Json> {
    if document.Object? && "keys" in document.fields && document.fields["keys"].Array?
    then document.fields["keys"].items else []
  }

  predicate Speaks(entry: Entry, kid: string) { entry.Key? && entry.kid == kid }

  /** Entry `i` gives `kid` the key `pem`, and no later entry speaks for `kid`. */
  ghost predicate LastWord(entries: seq<Entry>, i: nat, kid: string, pem: string) {
    i < |entries| && entries[i] == Key(kid, pem) && forall j :: i < j < |entries| ==> !Speaks(entries[j], kid)
  }

  ghost predicate Publishes(entries: seq<Entry>, kid: string, pem: string) {
    exists i: nat :: LastWord(entries, i, kid, pem)
  }

  /** One bad entry spoils the document; otherwise the map holds each kid's last word and no more. */
  lemma {:induction false} ConvertMeaning(entries: seq<Entry>, kid: string, pem: string)
    ensures Convert(entries).Some? <==> Fail !in entries
    ensures Convert(entries).Some? ==>
              ((kid in Convert(entries).value && Convert(entries).value[kid] == pem) <==> Publishes(entries, kid, pem))
  {
    if entries != [] {
      ConvertMeaning(entries[..|entries| - 1], kid, pem);
      assert entries == entries[..|entries| - 1] + [entries[|entries| - 1]];
      LastWordStep(entries[..|entries| - 1], entries[|entries| - 1], kid, pem);
    }
  }

  lemma {:induction false} OneFailSpoils(entries: seq<Entry>)
    requires Fail in entries
    ensures Convert(entries).None?
  {
    if entries[|entries| - 1] != Fail {
      assert entries == entries[..|entries| - 1] + [entries[|entries| - 1]];
      OneFailSpoils(entries[..|entries| - 1]);
    }
  }

  lemma LastWordStep(before: seq<Entry>, last: Entry, kid: string, pem: string)
    ensures Publishes(before + [last], kid, pem)
            <==> if Speaks(last, kid) then last.pem == pem else Publishes(before, kid, pem)
  {
    var entries := before + [last];
    if Speaks(last, kid) {
      assert entries[|before|] == last;
      if last.pem == pem { assert LastWord(entries, |before|, kid, pem); }
    } else {
      if Publishes(entries, kid, pem) {
        var i: nat :| LastWord(entries, i, kid, pem);
        assert forall j :: 0 <= j < |before| ==> before[j] == entries[j];
        assert LastWord(before, i, kid, pem);
      }
      if Publishes(before, kid, pem) {
        var i: nat :| LastWord(before, i, kid, pem);
        assert LastWord(entries, i, kid, pem);
      }
    }
  }

  // ---------------------------------------------------------------- entries as JSON

  predicate IsRsa(k: Json) { k.Object? && "kty" in k.fields && k.fields["kty"] == Text("RSA") }

  predicate HasText(k: Json, name: string)
    requires k.Object?
  {
    name in k.fields && k.fields[name].Text?
  }

  /** An item that says nothing: no object, no RSA key, no name, or no text for modulus or exponent. */
  predicate Ignored(k: Json) {
    || !k.Object?
    || "kty" !in k.fields
    || (HasText(k, "kty") && k.fields["kty"].text != "RSA")
    || (IsRsa(k) && ("kid" !in k.fields || k.fields["kid"] == Text("")))
    || (IsRsa(k) && HasText(k, "kid") && (!HasText(k, "n") || !HasText(k, "e")))
  }

  /** An RSA key with a name and text for both numbers. */
  predicate Complete(k: Json) {
    IsRsa(k) && HasText(k, "kid") && k.fields["kid"].text != "" && HasText(k, "n") && HasText(k, "e")
  }

  /** The bytes that base64url text stands for, when there are any. */
  predicate Reads(text: string, bytes: seq<Byte>, ssl: OpenSsl) {
    bytes != [] && Base64Url.Decode(text, ssl.base64) == Some(bytes)
  }

  /** A complete key whose two numbers decode to bytes of which OpenSSL makes a PEM. */
  ghost predicate Gives(k: Json, kid: string, pem: string, ssl: OpenSsl) {
    && Complete(k) && k.fields["kid"].text == kid
    && exists n, e ::
         Reads(k.fields["n"].text, n, ssl) && Reads(k.fields["e"].text, e, ssl) && ssl.toPem(n, e) == Some(pem)
  }

  /** What spoils a document: a type or a name that is not text, or a complete key that OpenSSL cannot read. */
  ghost predicate Spoils(k: Json, ssl: OpenSsl) {
    || (k.Object? && "kty" in k.fields && !k.fields["kty"].Text?)
    || (IsRsa(k) && "kid" in k.fields && !k.fields["kid"].Text?)
    || (Complete(k) && forall pem :: !Gives(k, k.fields["kid"].text, pem, ssl))
  }

  lemma PemIs(k: Json, ssl: OpenSsl)
    requires Complete(k)
    ensures var r := JwkToPem(k.fields["n"].text, k.fields["e"].text, ssl);
            forall pem :: r == Some(pem) <==> Gives(k, k.fields["kid"].text, pem, ssl)
  {
    var n, e := Base64Url.Decode(k.fields["n"].text, ssl.base64), Base64Url.Decode(k.fields["e"].text, ssl.base64);
    forall pem
      ensures JwkToPem(k.fields["n"].text, k.fields["e"].text, ssl) == Some(pem)
         <==> Gives(k, k.fields["kid"].text, pem, ssl)
    {
      if n.Some? && e.Some? && n.value != [] && e.value != [] {
        assert Reads(k.fields["n"].text, n.value, ssl) && Reads(k.fields["e"].text, e.value, ssl);
      }
    }
  }

  /** Every item is skipped, fails or gives a key, exactly in the cases that its JSON tells. */
  lemma EntryExactly(k: Json, kid: string, pem: string, ssl: OpenSsl)
    ensures ReadEntry(k, ssl) == Skip <==> Ignored(k)
    ensures ReadEntry(k, ssl) == Fail <==> Spoils(k, ssl)
    ensures ReadEntry(k, ssl) == Key(kid, pem) <==> Gives(k, kid, pem, ssl)
  {
    if Complete(k) {
      PemIs(k, ssl);
      var r := JwkToPem(k.fields["n"].text, k.fields["e"].text, ssl);
      if r.Some? { assert Gives(k, k.fields["kid"].text, r.value, ssl); }
    }
  }

  /** Skipped entries leave no trace. */
  lemma {:induction false} SkipChangesNothing(a: seq<Entry>, b: seq<Entry>)
    ensures Convert(a + [Skip] + b) == Convert(a + b)
    decreases |b|
  {
    if b == [] {
      assert (a + [Skip] + b)[..|a|] == a && a + b == a;
    } else {
      var n, init := |b| - 1, b[..|b| - 1];
      assert (a + [Skip] + b)[..|a| + 1 + n] == a + [Skip] + init;
      assert (a + b)[..|a| + n] == a + init;
      SkipChangesNothing(a, init);
    }
  }

  lemma ReadAllAround(a: seq<Json>, k: Json, b: seq<Json>, ssl: OpenSsl)
    ensures ReadAll(a + [k] + b, ssl) == ReadAll(a, ssl) + [ReadEntry(k, ssl)] + ReadAll(b, ssl)
    ensures ReadAll(a + b, ssl) == ReadAll(a, ssl) + ReadAll(b, ssl)
  {
  }

  /** An ignored item changes nothing, wherever it stands. */
  lemma IgnoredChangesNothing(a: seq<Json>, k: Json, b: seq<Json>, ssl: OpenSsl)
    requires Ignored(k)
    ensures Convert(ReadAll(a + [k] + b, ssl)) == Convert(ReadAll(a + b, ssl))
  {
    EntryExactly(k, "", "", ssl);
    ReadAllAround(a, k, b, ssl);
    SkipChangesNothing(ReadAll(a, ssl), ReadAll(b, ssl));
  }

  /** Item `i` gives `kid` this PEM, and no later item gives that kid one. */
  ghost predicate LastGives(items: seq<Json>, i: nat, kid: string, pem: string, ssl: OpenSsl) {
    && i < |items| && Gives(items[i], kid, pem, ssl)
    && forall j, other :: i < j < |items| ==> !Gives(items[j], kid, other, ssl)
  }

  lemma LastGivesIsLastWord(items: seq<Json>, i: nat, kid: string, pem: string, ssl: OpenSsl)
    ensures LastGives(items, i, kid, pem, ssl) <==> LastWord(ReadAll(items, ssl), i, kid, pem)
  {
    var entries := ReadAll(items, ssl);
    forall j, other | 0 <= j < |items|
      ensures Gives(items[j], kid, other, ssl) <==> entries[j] == Key(kid, other)
    {
      EntryExactly(items[j], kid, other, ssl);
    }
    if LastGives(items, i, kid, pem, ssl) {
      forall j | i < j < |entries|
        ensures !Speaks(entries[j], kid)
      {
        assert entries[j] != Key(kid, if entries[j].Key? then entries[j].pem else "");
      }
    }
    if LastWord(entries, i, kid, pem) {
      forall j, other | i < j < |items|
        ensures !Gives(items[j], kid, other, ssl)
      {
        assert !Speaks(entries[j], kid);
      }
    }
  }

  /** The exact meaning of a document: it converts if no item spoils it, to the last PEM that each kid is given. */
  lemma DocumentExactly(items: seq<Json>, kid: string, pem: string, ssl: OpenSsl)
    ensures Convert(ReadAll(items, ssl)).Some? <==> forall i :: 0 <= i < |items| ==> !Spoils(items[i], ssl)
    ensures Convert(ReadAll(items, ssl)).Some? ==>
              var keys := Convert(ReadAll(items, ssl)).value;
              (kid in keys && keys[kid] == pem <==> exists i: nat :: LastGives(items, i, kid, pem, ssl))
  {
    var entries := ReadAll(items, ssl);
    ConvertMeaning(entries, kid, pem);
    forall i | 0 <= i < |items|
      ensures entries[i] == Fail <==> Spoils(items[i], ssl)
    {
      EntryExactly(items[i], kid, pem, ssl);
    }
    forall i: nat
      ensures LastGives(items, i, kid, pem, ssl) <==> LastWord(entries, i, kid, pem)
    {
      LastGivesIsLastWord(items, i, kid, pem, ssl);
    }
  }

  // ---------------------------------------------------------------- the cache

  /** `fetchedAt` is 0 until the first successful refresh. */
  datatype Cache = Cache(keys: map<string, string>, fetchedAt: int)

  const EMPTY := Cache(map[], 0)

  /** What a refresh makes of the fetched document; None when the fetch, the status or the parse fails. */
  function EntriesOf(fetch: Option<Json>, ssl: OpenSsl): seq<Entry> {
    if fetch.None? then [Fail] else ReadAll(Keys(fetch.value), ssl)
  }

  /**
   A call of `GetKey` and what it meets: the clock on entry, the entries of the document a refresh
   would see, and the clock when that refresh completes.
   */
  datatype Call = Call(kid: string, now: int, entries: seq<Entry>, done: int)

  predicate Expired(c: Cache, ttl: int, now: int) {
    c.fetchedAt == 0 || now - c.fetchedAt > ttl
  }

  predicate Hit(c: Cache, ttl: int, call: Call) {
    call.kid in c.keys && !Expired(c, ttl, call.now)
  }

  /** The new key map when a refresh made by this call succeeds. */
  function Fetched(call: Call): Option<map<string, string>> { Convert(call.entries) }

  function Next(c: Cache, ttl: int, call: Call): Cache {
    if Hit(c, ttl, call) || Fetched(call).None? then c else Cache(Fetched(call).value, call.done)
  }

  function Answer(c: Cache, ttl: int, call: Call): Option<string> {
    if Hit(c, ttl, call) then Some(c.keys[call.kid])
    else if Fetched(call).Some? && call.kid in Fetched(call).value then Some(Fetched(call).value[call.kid])
    else None
  }

  lemma ConvertStep(entries: seq<Entry>, i: nat, before: map<string, string>)
    requires i < |entries| && Convert(entries[..i]) == Some(before)
    ensures Convert(entries[..i + 1]) == match entries[i]
                                         case Skip => Some(before)
                                         case Fail => None
                                         case Key(kid, pem) => Some(before[kid := pem])
  {
    assert entries[..i + 1][..i] == entries[..i];
  }

  class JwksCache {
    const ttl: int
    var keys: map<string, string>
    var fetchedAt: int

    ghost function Contents(): Cache
      reads this
    {
      Cache(keys, fetchedAt)
    }

    constructor (ttl: int)
      ensures this.ttl == ttl && Contents() == EMPTY
    {
      this.ttl := ttl;
      keys := map[];
      fetchedAt := 0;
    }

    /** Builds the new map aside and assigns it only when every entry went through; false is an exception. */
    method Refresh(fetch: Option<Json>, ssl: OpenSsl, done: int) returns (ok: bool)
      modifies this
      ensures ok <==> Convert(EntriesOf(fetch, ssl)).Some?
      ensures Contents() == if ok then Cache(Convert(EntriesOf(fetch, ssl)).value, done) else old(Contents())
    {
      ghost var entries := EntriesOf(fetch, ssl);
      if fetch.None? { OneFailSpoils(entries); return false; }
      var next: map<string, string> := map[];
      var items := Keys(fetch.value);
      for i := 0 to |items|
        invariant Contents() == old(Contents())
        invariant Convert(entries[..i]) == Some(next)
      {
        ConvertStep(entries, i, next);
        match ReadEntry(items[i], ssl) {
          case Skip =>
          case Fail => OneFailSpoils(entries); return false;
          case Key(kid, pem) => next := next[kid := pem];
        }
      }
      assert entries[..|items|] == entries;
      keys := next;
      fetchedAt := done;
      ok := true;
    }

    method GetKey(kid: string, now: int, fetch: Option<Json>, ssl: OpenSsl, done: int) returns (pem: Option<string>)
      modifies this
      ensures pem == Answer(old(Contents()), ttl, Call(kid, now, EntriesOf(fetch, ssl), done))
      ensures Contents() == Next(old(Contents()), ttl, Call(kid, now, EntriesOf(fetch, ssl), done))
    {
      ghost var call := Call(kid, now, EntriesOf(fetch, ssl), done);
      var expired := fetchedAt == 0 || now - fetchedAt > ttl;
      if kid in keys && !expired {
        HitKeeps(Contents(), ttl, call);
        return Some(keys[kid]);
      }
      MissFetches(Contents(), ttl, call);
      var ok := Refresh(fetch, ssl, done);
      if !ok { return None; }
      pem := if kid in keys then Some(keys[kid]) else None;
    }
  }

  lemma HitKeeps(c: Cache, ttl: int, call: Call)
    requires Hit(c, ttl, call)
    ensures Next(c, ttl, call) == c && Answer(c, ttl, call) == Some(c.keys[call.kid])
  {
  }

  lemma MissFetches(c: Cache, ttl: int, call: Call)
    requires !Hit(c, ttl, call)
    ensures Convert(call.entries).None? ==> Next(c, ttl, call) == c && Answer(c, ttl, call) == None
    ensures Convert(call.entries).Some? ==>
              var keys := Convert(call.entries).value;
              && Next(c, ttl, call) == Cache(keys, call.done)
              && Answer(c, ttl, call) == if call.kid in keys then Some(keys[call.kid]) else None
  {
  }

  // ---------------------------------------------------------------- runs

  /** The cache after the first `n` calls of a run. */
  function After(calls: seq<Call>, ttl: int, n: nat): Cache
    requires n <= |calls|
  {
    if n == 0 then EMPTY else Next(After(calls, ttl, n - 1), ttl, calls[n - 1])
  }

  function AnswerOf(calls: seq<Call>, ttl: int, i: nat): Option<string>
    requires i < |calls|
  {
    Answer(After(calls, ttl, i), ttl, calls[i])
  }

  /** Call `i` of the run went to the network and its refresh succeeded. */
  predicate Refreshed(calls: seq<Call>, ttl: int, i: nat)
    requires i < |calls|
  {
    !Hit(After(calls, ttl, i), ttl, calls[i]) && Fetched(calls[i]).Some?
  }

  /** The steady clock never goes back, and calls are serialised by the mutex. */
  ghost predicate Monotone(calls: seq<Call>) {
    && (forall i :: 0 <= i < |calls| ==> calls[i].now <= calls[i].done)
    && (forall i, j :: 0 <= i < j < |calls| ==> calls[i].done <= calls[j].now)
  }

  /** The last of the first `n` calls that refreshed. */
  ghost predicate LastRefresh(calls: seq<Call>, ttl: int, n: nat, j: nat)
    requires n <= |calls|
  {
    j < n && Refreshed(calls, ttl, j) && forall k: nat :: j < k < n ==> !Refreshed(calls, ttl, k)
  }

  /** The cache holds the document of call `j`, whole, with that refresh's time. */
  ghost predicate HoldsDocument(c: Cache, calls: seq<Call>, j: nat)
    requires j < |calls|
  {
    Convert(calls[j].entries) == Some(c.keys) && c.fetchedAt == calls[j].done
  }

  /** Call `j` is the last refresh so far, and the cache is its document. */
  ghost predicate Explains(calls: seq<Call>, ttl: int, n: nat, j: nat)
    requires n <= |calls|
  {
    LastRefresh(calls, ttl, n, j) && HoldsDocument(After(calls, ttl, n), calls, j)
  }

  ghost predicate Untouched(calls: seq<Call>, ttl: int, n: nat)
    requires n <= |calls|
  {
    After(calls, ttl, n) == EMPTY && forall k: nat :: k < n ==> !Refreshed(calls, ttl, k)
  }

  lemma RefreshExplains(calls: seq<Call>, ttl: int, n: nat)
    requires n < |calls| && Refreshed(calls, ttl, n)
    ensures Explains(calls, ttl, n + 1, n)
  {
  }

  lemma OtherCallsKeep(calls: seq<Call>, ttl: int, n: nat)
    requires n < |calls| && !Refreshed(calls, ttl, n)
    ensures After(calls, ttl, n + 1) == After(calls, ttl, n)
    ensures Untouched(calls, ttl, n) ==> Untouched(calls, ttl, n + 1)
    ensures forall j: nat :: Explains(calls, ttl, n, j) ==> Explains(calls, ttl, n + 1, j)
  {
  }

  /**
   At every moment of every run the cache is the conversion of the last document that converted, as
   a whole and with that refresh's time, or still empty: entries of two documents never mix.
   */
  lemma {:induction false} CacheIsLastDocument(calls: seq<Call>, ttl: int, n: nat)
    requires n <= |calls|
    ensures Untouched(calls, ttl, n) || exists j: nat :: Explains(calls, ttl, n, j)
  {
    if n > 0 {
      CacheIsLastDocument(calls, ttl, n - 1);
      if Refreshed(calls, ttl, n - 1) {
        RefreshExplains(calls, ttl, n - 1);
      } else {
        OtherCallsKeep(calls, ttl, n - 1);
      }
    }
  }

  lemma OneLastRefresh(calls: seq<Call>, ttl: int, n: nat, i: nat, j: nat)
    requires n <= |calls| && LastRefresh(calls, ttl, n, i) && LastRefresh(calls, ttl, n, j)
    ensures i == j
  {
  }

  /** What makes the answer of call `i` legitimate: the last word of document `j`, still current. */
  ghost predicate CurrentKey(calls: seq<Call>, ttl: int, i: nat, j: nat, pem: string)
    requires i < |calls|
  {
    && LastRefresh(calls, ttl, i + 1, j)
    && Publishes(calls[j].entries, calls[i].kid, pem)
    && (j == i || 0 <= calls[i].now - calls[j].done <= ttl)
  }

  lemma HitIsCurrent(calls: seq<Call>, ttl: int, i: nat, j: nat)
    requires Monotone(calls) && i < |calls| && Hit(After(calls, ttl, i), ttl, calls[i])
    requires Explains(calls, ttl, i, j)
    ensures CurrentKey(calls, ttl, i, j, AnswerOf(calls, ttl, i).value)
  {
    ConvertMeaning(calls[j].entries, calls[i].kid, AnswerOf(calls, ttl, i).value);
  }

  /**
   Every key handed out is the last word on that kid in a document whose refresh finished during the
   call itself or at most `ttl` before it, with no later document in between.
   */
  lemma AnswersAreCurrent(calls: seq<Call>, ttl: int, i: nat)
    requires Monotone(calls) && i < |calls| && AnswerOf(calls, ttl, i).Some?
    ensures exists j: nat :: CurrentKey(calls, ttl, i, j, AnswerOf(calls, ttl, i).value)
  {
    if Hit(After(calls, ttl, i), ttl, calls[i]) {
      CacheIsLastDocument(calls, ttl, i);
      var j: nat :| Explains(calls, ttl, i, j);
      HitIsCurrent(calls, ttl, i, j);
    } else {
      var pem := AnswerOf(calls, ttl, i).value;
      ConvertMeaning(calls[i].entries, calls[i].kid, pem);
      assert CurrentKey(calls, ttl, i, i, pem);
    }
  }

  ghost predicate SpeaksFor(entries: seq<Entry>, kid: string) {
    exists i :: 0 <= i < |entries| && Speaks(entries[i], kid)
  }

  lemma {:induction false} ConvertDomain(entries: seq<Entry>, kid: string)
    requires Convert(entries).Some?
    ensures kid in Convert(entries).value <==> SpeaksFor(entries, kid)
  {
    if entries != [] {
      var before, n := entries[..|entries| - 1], |entries|;
      ConvertDomain(before, kid);
      assert forall i :: 0 <= i < n - 1 ==> before[i] == entries[i];
    }
  }

  /**
   A call is answered None exactly when no unexpired key was cached and the fetch failed, an entry
   spoiled the document, or no entry speaks for that kid.
   */
  lemma FailsClosed(calls: seq<Call>, ttl: int, i: nat)
    requires i < |calls|
    ensures AnswerOf(calls, ttl, i).None? <==>
              && !Hit(After(calls, ttl, i), ttl, calls[i])
              && (Fail in calls[i].entries || !SpeaksFor(calls[i].entries, calls[i].kid))
  {
    ConvertMeaning(calls[i].entries, "", "");
    if Fail !in calls[i].entries { ConvertDomain(calls[i].entries, calls[i].kid); }
  }

  /** A failed refresh leaves keys and time alone, and no expired key is handed out because of it. */
  lemma FailedRefreshChangesNothing(calls: seq<Call>, ttl: int, i: nat)
    requires i < |calls| && Fail in calls[i].entries
    ensures After(calls, ttl, i + 1) == After(calls, ttl, i)
    ensures AnswerOf(calls, ttl, i).Some? ==> !Expired(After(calls, ttl, i), ttl, calls[i].now)
  {
    ConvertMeaning(calls[i].entries, "", "");
  }

  // ---------------------------------------------------------------- publishing and serving

  /** An RSA signing key as an issuer writes it, whatever other fields it adds. */
  ghost predicate Published(k: Json, kid: string, n: seq<Byte>, e: seq<Byte>) {
    && k.Object? && "kty" in k.fields && k.fields["kty"] == Text("RSA")
    && "kid" in k.fields && k.fields["kid"] == Text(kid)
    && "n" in k.fields && k.fields["n"] == Text(Base64Url.Encode(n))
    && "e" in k.fields && k.fields["e"] == Text(Base64Url.Encode(e))
  }

  lemma PublishedReads(k: Json, kid: string, n: seq<Byte>, e: seq<Byte>, ssl: OpenSsl)
    requires Base64Url.ReadsBase64(ssl.base64)
    requires Published(k, kid, n, e) && kid != "" && n != [] && e != []
    ensures ReadEntry(k, ssl) == match ssl.toPem(n, e) case None => Fail case Some(pem) => Key(kid, pem)
  {
    Base64Url.RoundTrip(n, ssl.base64);
    Base64Url.RoundTrip(e, ssl.base64);
  }

  lemma HeldKeyIsServed(calls: seq<Call>, ttl: int, j: nat, i: nat, pem: string)
    requires j <= i < |calls| && LastRefresh(calls, ttl, i + 1, j)
    requires Convert(calls[j].entries).Some?
    requires calls[i].kid in Convert(calls[j].entries).value && Convert(calls[j].entries).value[calls[i].kid] == pem
    requires i == j || (calls[j].done != 0 && calls[i].now - calls[j].done <= ttl)
    ensures AnswerOf(calls, ttl, i) == Some(pem)
  {
    if j < i {
      assert LastRefresh(calls, ttl, i, j);
      CacheIsLastDocument(calls, ttl, i);
      var j': nat :| Explains(calls, ttl, i, j');
      OneLastRefresh(calls, ttl, i, j, j');
    }
  }

  /**
   An RSA key whose entry is the last word on its kid is served as the PEM of exactly its bytes, by
   the call that fetches the document and by every later call within the time to live while no
   further refresh happens, whatever the network does meanwhile.
   */
  lemma PublishedKeyIsServed(calls: seq<Call>, ttl: int, j: nat, i: nat,
                             document: Json, ssl: OpenSsl, p: nat, n: seq<Byte>, e: seq<Byte>)
    requires j <= i < |calls| && LastRefresh(calls, ttl, i + 1, j)
    requires Base64Url.ReadsBase64(ssl.base64) && calls[i].kid != "" && n != [] && e != []
    requires p < |Keys(document)| && Published(Keys(document)[p], calls[i].kid, n, e)
    requires calls[j].entries == EntriesOf(Some(document), ssl)
    requires forall q :: p < q < |calls[j].entries| ==> !Speaks(calls[j].entries[q], calls[i].kid)
    requires i == j || (calls[j].done != 0 && calls[i].now - calls[j].done <= ttl)
    ensures AnswerOf(calls, ttl, i).Some? && AnswerOf(calls, ttl, i) == ssl.toPem(n, e)
  {
    var entries, kid := calls[j].entries, calls[i].kid;
    PublishedReads(Keys(document)[p], kid, n, e, ssl);
    ConvertMeaning(entries, "", "");
    assert entries[p] == ReadEntry(Keys(document)[p], ssl);
    var pem := entries[p].pem;
    assert LastWord(entries, p, kid, pem);
    ConvertMeaning(entries, kid, pem);
    HeldKeyIsServed(calls, ttl, j, i, pem);
  }

  /** The "keys" of a document; anything without an array of that name has none. */
  lemma KeysOfDocument(fields: map<string, Json>, items: seq<Json>)
    ensures Keys(Object(fields["keys" := Array(items)])) == items
    ensures "keys" !in fields || !fields["keys"].Array? ==> Keys(Object(fields)) == []
    ensures Keys(Array(items)) == []
  {
  }

  /**
   A call that finds no current key answers exactly from the JSON it fetches: `pem` if no item spoils
   the document and the last item that gives the kid a key gives this one.
   */
  lemma MissAnswersFromDocument(c: Cache, ttl: int, kid: string, now: int, document: Json, ssl: OpenSsl, done: int,
                                pem: string)
    requires !(kid in c.keys && c.fetchedAt != 0 && now - c.fetchedAt <= ttl)
    ensures var items := Keys(document);
            Answer(c, ttl, Call(kid, now, EntriesOf(Some(document), ssl), done)) == Some(pem)
            <==> && (forall i :: 0 <= i < |items| ==> !Spoils(items[i], ssl))
                 && exists i: nat :: LastGives(items, i, kid, pem, ssl)
  {
    var call := Call(kid, now, EntriesOf(Some(document), ssl), done);
    MissFetches(c, ttl, call);
    DocumentExactly(Keys(document), kid, pem, ssl);
  }

  /** A call that finds a current key answers it and leaves the cache as it is, whatever it could fetch. */
  lemma HitAnswersFromCache(c: Cache, ttl: int, call: Call)
    requires call.kid in c.keys && c.fetchedAt != 0 && call.now - c.fetchedAt <= ttl
    ensures Answer(c, ttl, call) == Some(c.keys[call.kid]) && Next(c, ttl, call) == c
  {
    HitKeeps(c, ttl, call);
  }

  /** A failed fetch is answered None and leaves the cache as it is, unless a current key is held. */
  lemma FailedFetchAnswersNone(c: Cache, ttl: int, kid: string, now: int, ssl: OpenSsl, done: int)
    requires !(kid in c.keys && c.fetchedAt != 0 && now - c.fetchedAt <= ttl)
    ensures var call := Call(kid, now, EntriesOf(None, ssl), done);
            Answer(c, ttl, call) == None && Next(c, ttl, call) == c
  {
    OneFailSpoils(EntriesOf(None, ssl));
    MissFetches(c, ttl, Call(kid, now, EntriesOf(None, ssl), done));
  }
}
