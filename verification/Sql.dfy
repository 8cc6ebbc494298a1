/**
 The list queries as text. A reader for a SELECT over one table, from its select list to its
 LIMIT and OFFSET, gives the text a meaning that does not know how it was built.
 */
module Sql {
  import opened Wrappers
  import opened Decimal
  import opened Text
  import opened PageToken
  import opened Paging
  import opened TextOrder

  /** A bound parameter, or the value of a column in a row. */
  datatype Datum = Id(text: string) | Time(micros: int) | Label(name: string) | Number(n: nat) | Null

  /** `column op $hole`, with the cast after the placeholder, "" for none. */
  datatype Cond = Cond(column: string, op: string, hole: nat, cast: string)

  /** An output column: the column it shows, and its cast, "" for none. */
  datatype Item = Item(column: string, cast: string)

  datatype Query = Query(items: seq<Item>, from: string, conds: seq<Cond>, orderBy: string, limit: nat, offset: nat)

  // ---------------------------------------------------------------- placeholders

  function DigitsAfter(s: string, from: nat): (end: nat)
    requires from <= |s|
    ensures from <= end <= |s| && AllDigits(s[from..end])
  {
    FindFirst(s, NotDigit, from);
    Find(s, NotDigit, from)
  }

  /** The numbers of all `$k` in a text, in order. */
  function Holes(s: string): seq<nat>
    decreases |s|
  {
    if s == "" then []
    else if s[0] != '$' then Holes(s[1..])
    else
      var end := DigitsAfter(s, 1);
      (if end == 1 then [] else [Value(s[1..end])]) + Holes(s[end..])
  }

  lemma DigitsAfterConcat(a: string, b: string, from: nat)
    requires from <= |a| && (b == "" || !IsDigit(b[0]))
    ensures DigitsAfter(a + b, from) == DigitsAfter(a, from)
  {
    var end := DigitsAfter(a, from);
    FindFirst(a, NotDigit, from);
    if end < |a| || b != "" {
      assert NotDigit((a + b)[end]);
      FindAt(a + b, NotDigit, from, end);
    } else {
      assert a + b == a;
    }
  }

  lemma {:induction false} HolesConcat(a: string, b: string)
    requires b == "" || !IsDigit(b[0])
    ensures Holes(a + b) == Holes(a) + Holes(b)
    decreases |a|
  {
    if a == "" {
      assert a + b == b;
    } else if a[0] != '$' {
      assert (a + b)[1..] == a[1..] + b;
      HolesConcat(a[1..], b);
    } else {
      var end := DigitsAfter(a, 1);
      DigitsAfterConcat(a, b, 1);
      assert (a + b)[1..end] == a[1..end];
      assert (a + b)[end..] == a[end..] + b;
      HolesConcat(a[end..], b);
    }
  }

  lemma {:induction false} NoHoles(s: string)
    requires '$' !in s
    ensures Holes(s) == []
  {
    if s != "" { NoHoles(s[1..]); }
  }

  function Placeholder(k: nat): string { "$" + Print(k) }

  lemma HolesOfPlaceholder(k: nat, after: string)
    requires '$' !in after && (after == "" || !IsDigit(after[0]))
    ensures Holes(Placeholder(k) + after) == [k]
  {
    var s := Placeholder(k);
    FindNone(s, NotDigit, 1);
    assert s[1..|s|] == Print(k) && s[|s|..] == "";
    ValueOfPrint(k);
    HolesConcat(s, after);
    NoHoles(after);
  }

  // ---------------------------------------------------------------- reading the text

  /** The words of a text, split at single blanks. */
  function Split(s: string): (ws: seq<string>)
    ensures ws != []
    decreases |s|
  {
    if s == "" then [""]
    else if s[|s| - 1] == ' ' then Split(s[..|s| - 1]) + [""]
    else var ws := Split(s[..|s| - 1]); ws[|ws| - 1 := ws[|ws| - 1] + [s[|s| - 1]]]
  }

  lemma {:induction false} SplitWord(a: string, w: string)
    requires ' ' !in w
    ensures Split(a + " " + w) == Split(a) + [w]
    decreases |w|
  {
    var s := a + " " + w;
    if w == "" {
      assert s[..|s| - 1] == a;
    } else {
      var v := w[..|w| - 1];
      assert s[..|s| - 1] == a + " " + v;
      SplitWord(a, v);
      assert v + [w[|w| - 1]] == w;
    }
  }

  /** `$k` or `$k::cast` as k. */
  function ReadHole(w: string): Option<nat> {
    if w == "" || w[0] != '$' then None else
    var end := DigitsAfter(w, 1);
    if end == 1 || !(end == |w| || "::" <= w[end..]) then None else Some(Value(w[1..end]))
  }

  /** The cast of `$k::cast` */
  function ReadCast(w: string): string { if w == "" then "" else w[DigitsAfter(w, 1)..] }

  lemma ReadPlaceholder(k: nat, cast: string)
    requires cast == "" || "::" <= cast
    ensures ReadHole(Placeholder(k) + cast) == Some(k) && ReadCast(Placeholder(k) + cast) == cast
  {
    var s := Placeholder(k);
    FindNone(s, NotDigit, 1);
    DigitsAfterConcat(s, cast, 1);
    assert (s + cast)[1..|s|] == Print(k) && (s + cast)[|s|..] == cast;
    ValueOfPrint(k);
  }

  /** Conditions `AND column op $k`, read from the last one back. */
  function ReadConds(ws: seq<string>): Option<seq<Cond>>
    decreases |ws|
  {
    if ws == [] then Some([])
    else if |ws| < 4 then None else
    var n := |ws|;
    match (ReadConds(ws[..n - 4]), ReadHole(ws[n - 1]))
    case (Some(conds), Some(hole)) =>
      if ws[n - 4] != "AND" || ws[n - 2] !in ["=", ">", "<"] then None
      else Some(conds + [Cond(ws[n - 3], ws[n - 2], hole, ReadCast(ws[n - 1]))])
    case _ => None
  }

  /** `column` or `column::type` */
  function ReadItem(w: string): Item {
    var end := Find(w, IsColon, 0);
    Item(w[..end], w[end..])
  }

  predicate IsColon(c: char) { c == ':' }

  /** The select list: items that are followed by a comma, and a last one that is not. */
  function ReadItems(ws: seq<string>): Option<seq<Item>> {
    if ws == [] then None
    else if |ws| == 1 then Some([ReadItem(ws[0])])
    else if ws[0] == "" || ws[0][|ws[0]| - 1] != ',' then None
    else
      match ReadItems(ws[1..])
      case Some(items) => Some([ReadItem(ws[0][..|ws[0]| - 1])] + items)
      case None => None
  }

  /** The words after `WHERE 1=1`. */
  function ReadTail(items: seq<Item>, from: string, ws: seq<string>): Option<Query> {
    var n := |ws|;
    if n < 8 then None
    else if ws[n - 8] != "ORDER" || ws[n - 7] != "BY" || ws[n - 5] != "DESC" || ws[n - 4] != "LIMIT" then None
    else if ws[n - 2] != "OFFSET" then None
    else
      match (ReadConds(ws[..n - 8]), ReadHole(ws[n - 3]), ReadHole(ws[n - 1]))
      case (Some(conds), Some(limit), Some(offset)) => Some(Query(items, from, conds, ws[n - 6], limit, offset))
      case _ => None
  }

  /** The position of a word, the number of words when it is not there. */
  function IndexOf(ws: seq<string>, w: string): (k: nat)
    ensures k <= |ws|
  {
    if ws == [] || ws[0] == w then 0 else 1 + IndexOf(ws[1..], w)
  }

  /** The words after `SELECT`. */
  function ReadSelect(ws: seq<string>): Option<Query> {
    var k := IndexOf(ws, "FROM");
    if |ws| < k + 4 || ws[k + 2] != "WHERE" || ws[k + 3] != "1=1" then None
    else
      match ReadItems(ws[..k])
      case Some(items) => ReadTail(items, ws[k + 1], ws[k + 4..])
      case None => None
  }

  function ReadQuery(sql: string): Option<Query> {
    var ws := Split(sql);
    if ws[0] != "SELECT" then None else ReadSelect(ws[1..])
  }

  // ---------------------------------------------------------------- meaning

  /** SQL comparison: NULL and values of different kinds compare as not true. */
  predicate Holds(op: string, a: Datum, b: Datum) {
    match (a, b)
    case (Id(x), Id(y)) => op == "=" && x == y
    case (Label(x), Label(y)) => op == "=" && x == y
    case (Time(x), Time(y)) => (op == "=" && x == y) || (op == ">" && x > y) || (op == "<" && x < y)
    case _ => false
  }

  function Param(params: seq<Datum>, hole: nat): Datum {
    if 1 <= hole <= |params| then params[hole - 1] else Null
  }

  /** A parameter after its cast: the two enum labels, a time, or as it is; anything else has no value here. */
  function CastTo(cast: string, d: Datum): Datum {
    if cast == "" then d
    else if cast == "::charger_type_enum" && (d == Label("fast") || d == Label("slow")) then d
    else if cast == "::timestamptz" && d.Time? then d
    else Null
  }

  predicate RowPasses<R>(row: R, column: (R, string) -> Datum, conds: seq<Cond>, params: seq<Datum>) {
    forall i :: 0 <= i < |conds| ==>
      Holds(conds[i].op, column(row, conds[i].column), CastTo(conds[i].cast, Param(params, conds[i].hole)))
  }

  function Filter<R>(rows: seq<R>, p: R -> bool): seq<R> {
    if rows == [] then [] else (if p(rows[0]) then [rows[0]] else []) + Filter(rows[1..], p)
  }

  /** A value as a session shows it. */
  function Shown(l: Locale, d: Datum): string {
    match d
    case Id(text) => text
    case Time(micros) => l.time(micros)
    case Label(name) => name
    case Number(n) => Print(n)
    case Null => ""
  }

  /** The cast of the first output column of this name, None when there is none. */
  function OutputCast(items: seq<Item>, name: string): Option<string> {
    if items == [] then None
    else if items[0].column == name then Some(items[0].cast)
    else OutputCast(items[1..], name)
  }

  /** What ORDER BY compares: a name means the output column, so a column that is cast to text is compared as text. */
  datatype SortKey = Words(text: string) | Plain(datum: Datum)

  function KeyOf(l: Locale, items: seq<Item>, name: string, d: Datum): SortKey {
    if OutputCast(items, name) == Some("::text") then Words(Shown(l, d)) else Plain(d)
  }

  predicate KeyLe(l: Locale, a: SortKey, b: SortKey) {
    match (a, b)
    case (Words(x), Words(y)) => l.le(x, y)
    case (Plain(Time(x)), Plain(Time(y))) => x <= y
    case _ => true
  }

  /** ORDER BY name DESC */
  function KeyDesc<R>(l: Locale, items: seq<Item>, column: (R, string) -> Datum, name: string): (R, R) -> bool {
    (a: R, b: R) => KeyLe(l, KeyOf(l, items, name, column(b, name)), KeyOf(l, items, name, column(a, name)))
  }

  /** `result` is a possible outcome of running the text with these parameters on this table. */
  ghost predicate Outcome<R(!new)>(l: Locale, sql: string, params: seq<Datum>, table: seq<R>,
                                   column: (R, string) -> Datum, result: seq<R>) {
    match ReadQuery(sql)
    case None => false
    case Some(q) =>
      && Param(params, q.limit).Number? && Param(params, q.offset).Number?
      && IsSlice(Filter(table, (row: R) => RowPasses(row, column, q.conds, params)),
                 KeyDesc(l, q.items, column, q.orderBy),
                 Param(params, q.limit).n, Param(params, q.offset).n, result)
  }

  // ---------------------------------------------------------------- building

  /** One filter that is set: what it compares, the cast it writes, and the value it binds. */
  datatype Clause = Clause(column: string, op: string, cast: string, value: Datum)

  predicate WellFormed(c: Clause) {
    && c.column != "" && ' ' !in c.column && '$' !in c.column && c.op in ["=", ">", "<"]
    && (c.cast == "" || "::" <= c.cast) && ' ' !in c.cast && '$' !in c.cast
  }

  /** The words of a text, each behind a blank. */
  function Sentence(ws: seq<string>): string {
    if ws == [] then "" else Sentence(ws[..|ws| - 1]) + " " + ws[|ws| - 1]
  }

  function ClauseWords(c: Clause, k: nat): seq<string> { ["AND", c.column, c.op, Placeholder(k) + c.cast] }

  function ClausesWords(cs: seq<Clause>): seq<string> {
    if cs == [] then [] else ClausesWords(cs[..|cs| - 1]) + ClauseWords(cs[|cs| - 1], |cs|)
  }

  function TailWords(orderBy: string, n: nat): seq<string> {
    ["ORDER", "BY", orderBy, "DESC", "LIMIT", Placeholder(n + 1), "OFFSET", Placeholder(n + 2)]
  }

  predicate IsName(s: string) { s != "" && forall i :: 0 <= i < |s| ==> 'A' <= s[i] <= 'Z' || 'a' <= s[i] <= 'z' }

  predicate IsPlain(item: Item) {
    && IsName(item.column) && item.column != "FROM"
    && (item.cast == "" || ("::" <= item.cast && IsName(item.cast[2..])))
  }

  function ItemWord(item: Item): string { item.column + item.cast }

  function ItemWords(items: seq<Item>): seq<string> {
    if items == [] then []
    else [ItemWord(items[0]) + if |items| == 1 then "" else ","] + ItemWords(items[1..])
  }

  function SelectWords(items: seq<Item>, from: string): seq<string> {
    ItemWords(items) + ["FROM", from, "WHERE", "1=1"]
  }

  /** The fixed part of a list query. */
  function Select(items: seq<Item>, from: string): string { "SELECT" + Sentence(SelectWords(items, from)) }

  function QueryText(items: seq<Item>, from: string, cs: seq<Clause>, orderBy: string): string {
    Select(items, from) + Sentence(ClausesWords(cs) + TailWords(orderBy, |cs|))
  }

  function ClauseConds(cs: seq<Clause>): seq<Cond> {
    if cs == [] then [] else
    var last := cs[|cs| - 1];
    ClauseConds(cs[..|cs| - 1]) + [Cond(last.column, last.op, |cs|, last.cast)]
  }

  function ClauseValues(cs: seq<Clause>): seq<Datum> {
    if cs == [] then [] else ClauseValues(cs[..|cs| - 1]) + [cs[|cs| - 1].value]
  }

  lemma {:induction false} CondAndValueAt(cs: seq<Clause>)
    ensures |ClauseConds(cs)| == |ClauseValues(cs)| == |cs|
    ensures forall i :: 0 <= i < |cs| ==>
      ClauseConds(cs)[i] == Cond(cs[i].column, cs[i].op, i + 1, cs[i].cast) && ClauseValues(cs)[i] == cs[i].value
  {
    if cs != [] { CondAndValueAt(cs[..|cs| - 1]); }
  }

  function QueryParams(cs: seq<Clause>, limit: nat, offset: nat): seq<Datum> {
    ClauseValues(cs) + [Number(limit), Number(offset)]
  }

  predicate NoBlanks(ws: seq<string>) { forall i :: 0 <= i < |ws| ==> ' ' !in ws[i] }

  lemma {:induction false} SplitOne(w: string)
    requires ' ' !in w
    ensures Split(w) == [w]
  {
    if w != "" {
      SplitOne(w[..|w| - 1]);
      assert w == w[..|w| - 1] + [w[|w| - 1]];
    }
  }

  lemma SplitAppended(a: string, init: string, last: string)
    requires ' ' !in last
    ensures Split(a + (init + " " + last)) == Split(a + init) + [last]
  {
    SplitWord(a + init, last);
    assert a + (init + " " + last) == a + init + " " + last;
  }

  lemma {:induction false} SplitSentence(w: string, ws: seq<string>)
    requires ' ' !in w && NoBlanks(ws)
    ensures Split(w + Sentence(ws)) == [w] + ws
    decreases |ws|
  {
    if ws == [] {
      assert w + "" == w;
      SplitOne(w);
    } else {
      SplitSentence(w, ws[..|ws| - 1]);
      SplitAppended(w, Sentence(ws[..|ws| - 1]), ws[|ws| - 1]);
    }
  }

  lemma {:induction false} SentenceConcat(a: seq<string>, b: seq<string>)
    ensures Sentence(a + b) == Sentence(a) + Sentence(b)
  {
    if b == [] {
      assert a + b == a;
    } else {
      assert (a + b)[..|a + b| - 1] == a + b[..|b| - 1];
      SentenceConcat(a, b[..|b| - 1]);
    }
  }

  lemma PlaceholderIsOneWord(k: nat, cast: string)
    requires ' ' !in cast
    ensures ' ' !in Placeholder(k) + cast && Placeholder(k) + "" == Placeholder(k)
  {
  }

  lemma {:induction false} WordsHaveNoBlanks(cs: seq<Clause>)
    requires forall i :: 0 <= i < |cs| ==> WellFormed(cs[i])
    ensures NoBlanks(ClausesWords(cs))
  {
    if cs != [] {
      WordsHaveNoBlanks(cs[..|cs| - 1]);
      PlaceholderIsOneWord(|cs|, cs[|cs| - 1].cast);
    }
  }

  lemma {:induction false} ReadClauses(cs: seq<Clause>)
    requires forall i :: 0 <= i < |cs| ==> WellFormed(cs[i])
    ensures ReadConds(ClausesWords(cs)) == Some(ClauseConds(cs))
  {
    if cs != [] {
      var init, c := cs[..|cs| - 1], cs[|cs| - 1];
      ReadClauses(init);
      var ws := ClausesWords(cs);
      assert ws[..|ws| - 4] == ClausesWords(init);
      ReadPlaceholder(|cs|, c.cast);
    }
  }

  lemma TailHasNoBlanks(orderBy: string, n: nat)
    requires ' ' !in orderBy
    ensures NoBlanks(TailWords(orderBy, n))
  {
  }

  lemma ReadTailParts(items: seq<Item>, from: string, clauses: seq<string>, orderBy: string, limit: string,
                      offset: string)
    requires ReadConds(clauses).Some? && ReadHole(limit).Some? && ReadHole(offset).Some?
    ensures ReadTail(items, from, clauses + ["ORDER", "BY", orderBy, "DESC", "LIMIT", limit, "OFFSET", offset])
         == Some(Query(items, from, ReadConds(clauses).value, orderBy, ReadHole(limit).value, ReadHole(offset).value))
  {
    var ws := clauses + ["ORDER", "BY", orderBy, "DESC", "LIMIT", limit, "OFFSET", offset];
    assert ws[..|ws| - 8] == clauses;
  }

  lemma ReadTailWords(items: seq<Item>, from: string, clauses: seq<string>, orderBy: string, n: nat)
    requires ReadConds(clauses).Some?
    ensures ReadTail(items, from, clauses + TailWords(orderBy, n))
         == Some(Query(items, from, ReadConds(clauses).value, orderBy, n + 1, n + 2))
  {
    ReadPlaceholder(n + 1, "");
    ReadPlaceholder(n + 2, "");
    PlaceholderIsOneWord(n + 1, "");
    PlaceholderIsOneWord(n + 2, "");
    ReadTailParts(items, from, clauses, orderBy, Placeholder(n + 1), Placeholder(n + 2));
  }

  lemma ReadItemWord(item: Item)
    requires IsPlain(item)
    ensures ReadItem(ItemWord(item)) == item
  {
    var w := ItemWord(item);
    assert w[..|item.column|] == item.column && w[|item.column|..] == item.cast;
    if item.cast == "" {
      FindNone(w, IsColon, 0);
    } else {
      assert w[|item.column|] == item.cast[0];
      FindAt(w, IsColon, 0, |item.column|);
    }
  }

  lemma ReadOneMore(item: Item, ws: seq<string>, items: seq<Item>)
    requires IsPlain(item) && ws != [] && ReadItems(ws) == Some(items)
    ensures ReadItems([ItemWord(item) + ","] + ws) == Some([item] + items)
  {
    var w := ItemWord(item);
    ReadItemWord(item);
    assert (w + ",")[..|w|] == w && ([w + ","] + ws)[1..] == ws;
  }

  lemma ReadOneOnly(item: Item)
    requires IsPlain(item)
    ensures ReadItems([ItemWord(item) + ""]) == Some([item])
  {
    ReadItemWord(item);
    assert ItemWord(item) + "" == ItemWord(item);
  }

  lemma OneItemWord(items: seq<Item>)
    requires |items| == 1
    ensures ItemWords(items) == [ItemWord(items[0]) + ""] && items == [items[0]]
  {
    assert ItemWords(items[1..]) == [];
  }

  lemma MoreItemWords(items: seq<Item>)
    requires |items| > 1
    ensures ItemWords(items) == [ItemWord(items[0]) + ","] + ItemWords(items[1..]) && ItemWords(items[1..]) != []
    ensures items == [items[0]] + items[1..]
  {
  }

  lemma {:induction false} ReadItemWords(items: seq<Item>)
    requires items != [] && forall i :: 0 <= i < |items| ==> IsPlain(items[i])
    ensures ReadItems(ItemWords(items)) == Some(items)
  {
    if |items| == 1 {
      OneItemWord(items);
      ReadOneOnly(items[0]);
    } else {
      ReadItemWords(items[1..]);
      MoreItemWords(items);
      ReadOneMore(items[0], ItemWords(items[1..]), items[1..]);
    }
  }

  lemma PlainWord(item: Item, after: string)
    requires IsPlain(item) && (after == "" || after == ",")
    ensures ' ' !in ItemWord(item) + after && '$' !in ItemWord(item) + after && ItemWord(item) + after != "FROM"
  {
    var w := ItemWord(item) + after;
    forall i | 0 <= i < |w|
      ensures w[i] != ' ' && w[i] != '$'
    {
      if |item.column| <= i < |item.column| + |item.cast| {
        assert w[i] == item.cast[i - |item.column|];
        assert i - |item.column| >= 2 ==> w[i] == item.cast[2..][i - |item.column| - 2];
      }
    }
    if after == "," {
      assert w[|w| - 1] == ',' && "FROM"[3] == 'M';
    } else if item.cast == "" {
      assert w == item.column;
    } else {
      assert w[|item.column|] == ':';
    }
  }

  lemma {:induction false} PlainWords(items: seq<Item>)
    requires forall i :: 0 <= i < |items| ==> IsPlain(items[i])
    ensures NoBlanks(ItemWords(items)) && "FROM" !in ItemWords(items)
    ensures forall i :: 0 <= i < |ItemWords(items)| ==> '$' !in ItemWords(items)[i]
  {
    if items != [] {
      PlainWords(items[1..]);
      PlainWord(items[0], if |items| == 1 then "" else ",");
    }
  }

  lemma {:induction false} IndexBehind(a: seq<string>, w: string, b: seq<string>)
    requires w !in a
    ensures IndexOf(a + [w] + b, w) == |a|
  {
    if a != [] {
      assert (a + [w] + b)[1..] == a[1..] + [w] + b;
      IndexBehind(a[1..], w, b);
    }
  }

  lemma ReadBehindFrom(a: seq<string>, items: seq<Item>, from: string, tail: seq<string>)
    requires "FROM" !in a && ReadItems(a) == Some(items)
    ensures ReadSelect(a + ["FROM", from, "WHERE", "1=1"] + tail) == ReadTail(items, from, tail)
  {
    var ws := a + ["FROM", from, "WHERE", "1=1"] + tail;
    assert ws == a + ["FROM"] + ([from, "WHERE", "1=1"] + tail);
    IndexBehind(a, "FROM", [from, "WHERE", "1=1"] + tail);
    assert ws[..|a|] == a && ws[|a| + 4..] == tail;
  }

  lemma ReadSelectWords(items: seq<Item>, from: string, tail: seq<string>)
    requires items != [] && forall i :: 0 <= i < |items| ==> IsPlain(items[i])
    ensures ReadSelect(SelectWords(items, from) + tail) == ReadTail(items, from, tail)
  {
    PlainWords(items);
    ReadItemWords(items);
    ReadBehindFrom(ItemWords(items), items, from, tail);
  }

  lemma SelectHasNoBlanks(items: seq<Item>, from: string)
    requires IsName(from) && forall i :: 0 <= i < |items| ==> IsPlain(items[i])
    ensures NoBlanks(SelectWords(items, from))
  {
    PlainWords(items);
  }

  lemma SplitQuery(select: seq<string>, tail: seq<string>)
    requires NoBlanks(select) && NoBlanks(tail)
    ensures Split("SELECT" + Sentence(select) + Sentence(tail)) == ["SELECT"] + (select + tail)
  {
    SentenceConcat(select, tail);
    SplitSentence("SELECT", select + tail);
    assert "SELECT" + (Sentence(select) + Sentence(tail)) == "SELECT" + Sentence(select) + Sentence(tail);
  }

  lemma ReadWords(sql: string, ws: seq<string>)
    requires Split(sql) == ["SELECT"] + ws
    ensures ReadQuery(sql) == ReadSelect(ws)
  {
    assert Split(sql)[1..] == ws;
  }

  lemma ReadAllWords(items: seq<Item>, from: string, words: seq<string>, conds: seq<Cond>, orderBy: string, n: nat,
                     sql: string)
    requires items != [] && IsName(from) && forall i :: 0 <= i < |items| ==> IsPlain(items[i])
    requires NoBlanks(words) && ReadConds(words) == Some(conds) && ' ' !in orderBy
    requires sql == Select(items, from) + Sentence(words + TailWords(orderBy, n))
    ensures ReadQuery(sql) == Some(Query(items, from, conds, orderBy, n + 1, n + 2))
  {
    var tail := words + TailWords(orderBy, n);
    TailHasNoBlanks(orderBy, n);
    SelectHasNoBlanks(items, from);
    SplitQuery(SelectWords(items, from), tail);
    ReadWords(sql, SelectWords(items, from) + tail);
    ReadSelectWords(items, from, tail);
    ReadTailWords(items, from, words, orderBy, n);
  }

  lemma ClausesRead(cs: seq<Clause>, words: seq<string>)
    requires words == ClausesWords(cs) && forall i :: 0 <= i < |cs| ==> WellFormed(cs[i])
    ensures NoBlanks(words) && ReadConds(words) == Some(ClauseConds(cs))
  {
    WordsHaveNoBlanks(cs);
    ReadClauses(cs);
  }

  lemma ReadBuiltText(items: seq<Item>, from: string, cs: seq<Clause>, orderBy: string, words: seq<string>, sql: string)
    requires items != [] && IsName(from) && forall i :: 0 <= i < |items| ==> IsPlain(items[i])
    requires ' ' !in orderBy && forall i :: 0 <= i < |cs| ==> WellFormed(cs[i])
    requires words == ClausesWords(cs) && sql == Select(items, from) + Sentence(words + TailWords(orderBy, |cs|))
    ensures ReadQuery(sql) == Some(Query(items, from, ClauseConds(cs), orderBy, |cs| + 1, |cs| + 2))
  {
    ClausesRead(cs, words);
    ReadAllWords(items, from, words, ClauseConds(cs), orderBy, |cs|, sql);
  }

  /** The text reads back as the list and the clauses it was built from, hole i + 1 belonging to clause i. */
  lemma ReadBuilt(items: seq<Item>, from: string, cs: seq<Clause>, orderBy: string)
    requires items != [] && IsName(from) && forall i :: 0 <= i < |items| ==> IsPlain(items[i])
    requires ' ' !in orderBy && forall i :: 0 <= i < |cs| ==> WellFormed(cs[i])
    ensures ReadQuery(QueryText(items, from, cs, orderBy))
         == Some(Query(items, from, ClauseConds(cs), orderBy, |cs| + 1, |cs| + 2))
  {
    ReadBuiltText(items, from, cs, orderBy, ClausesWords(cs), QueryText(items, from, cs, orderBy));
  }

  /** 1, 2, ..., n */
  function FirstNumbers(n: nat): seq<nat> { if n == 0 then [] else FirstNumbers(n - 1) + [n] }

  function HolesOfWords(ws: seq<string>): seq<nat> {
    if ws == [] then [] else HolesOfWords(ws[..|ws| - 1]) + Holes(ws[|ws| - 1])
  }

  lemma {:induction false} HolesOfSentence(ws: seq<string>)
    ensures Holes(Sentence(ws)) == HolesOfWords(ws)
  {
    if ws != [] {
      var init, w := Sentence(ws[..|ws| - 1]), ws[|ws| - 1];
      HolesOfSentence(ws[..|ws| - 1]);
      HolesConcat(init, " " + w);
      assert (" " + w)[1..] == w;
      assert init + " " + w == init + (" " + w);
    }
  }

  lemma {:induction false} HolesOfWordsConcat(a: seq<string>, b: seq<string>)
    ensures HolesOfWords(a + b) == HolesOfWords(a) + HolesOfWords(b)
  {
    if b == [] {
      assert a + b == a;
    } else {
      assert (a + b)[..|a + b| - 1] == a + b[..|b| - 1];
      HolesOfWordsConcat(a, b[..|b| - 1]);
    }
  }

  lemma {:induction false} HolesOfClauses(cs: seq<Clause>)
    requires forall i :: 0 <= i < |cs| ==> WellFormed(cs[i])
    ensures HolesOfWords(ClausesWords(cs)) == FirstNumbers(|cs|)
  {
    if cs != [] {
      var init, c := cs[..|cs| - 1], cs[|cs| - 1];
      HolesOfClauses(init);
      HolesOfWordsConcat(ClausesWords(init), ClauseWords(c, |cs|));
      NoHoles("AND"); NoHoles(c.column); NoHoles(c.op);
      HolesOfPlaceholder(|cs|, c.cast);
      HolesOfFour(ClauseWords(c, |cs|));
    }
  }

  lemma HolesOfFour(ws: seq<string>)
    requires |ws| == 4
    ensures HolesOfWords(ws) == Holes(ws[0]) + Holes(ws[1]) + Holes(ws[2]) + Holes(ws[3])
  {
    assert ws[..3][..2] == ws[..2] && ws[..2][..1] == ws[..1] && ws[..1][..0] == [];
    assert HolesOfWords(ws[..1]) == Holes(ws[0]);
    assert HolesOfWords(ws[..2]) == Holes(ws[0]) + Holes(ws[1]);
    assert HolesOfWords(ws[..3]) == Holes(ws[0]) + Holes(ws[1]) + Holes(ws[2]);
  }

  lemma HolesOfOrder(orderBy: string)
    requires '$' !in orderBy
    ensures HolesOfWords(["ORDER", "BY", orderBy, "DESC"]) == []
  {
    HolesOfFour(["ORDER", "BY", orderBy, "DESC"]);
    NoHoles("ORDER"); NoHoles("BY"); NoHoles(orderBy); NoHoles("DESC");
  }

  lemma HolesOfPage(n: nat)
    ensures HolesOfWords(["LIMIT", Placeholder(n + 1), "OFFSET", Placeholder(n + 2)]) == [n + 1, n + 2]
  {
    HolesOfFour(["LIMIT", Placeholder(n + 1), "OFFSET", Placeholder(n + 2)]);
    NoHoles("LIMIT"); NoHoles("OFFSET");
    HolesOfPlaceholder(n + 1, ""); HolesOfPlaceholder(n + 2, "");
    PlaceholderIsOneWord(n + 1, ""); PlaceholderIsOneWord(n + 2, "");
  }

  lemma HolesOfTail(orderBy: string, n: nat)
    requires '$' !in orderBy
    ensures HolesOfWords(TailWords(orderBy, n)) == [n + 1, n + 2]
  {
    var a, b := ["ORDER", "BY", orderBy, "DESC"], ["LIMIT", Placeholder(n + 1), "OFFSET", Placeholder(n + 2)];
    assert TailWords(orderBy, n) == a + b;
    HolesOfWordsConcat(a, b);
    HolesOfOrder(orderBy);
    HolesOfPage(n);
  }

  lemma {:induction false} SentenceStartsBlank(ws: seq<string>)
    ensures Sentence(ws) == "" || Sentence(ws)[0] == ' '
  {
    if ws != [] { SentenceStartsBlank(ws[..|ws| - 1]); }
  }

  lemma NumbersGoOn(a: seq<string>, b: seq<string>, n: nat)
    requires HolesOfWords(a) == FirstNumbers(n) && HolesOfWords(b) == [n + 1, n + 2]
    ensures HolesOfWords(a + b) == FirstNumbers(n + 2)
  {
    HolesOfWordsConcat(a, b);
    assert FirstNumbers(n + 2) == FirstNumbers(n + 1) + [n + 2];
    assert FirstNumbers(n) + [n + 1, n + 2] == FirstNumbers(n) + [n + 1] + [n + 2];
  }

  lemma TailGoesOn(words: seq<string>, orderBy: string, n: nat)
    requires '$' !in orderBy && HolesOfWords(words) == FirstNumbers(n)
    ensures HolesOfWords(words + TailWords(orderBy, n)) == FirstNumbers(n + 2)
  {
    HolesOfTail(orderBy, n);
    NumbersGoOn(words, TailWords(orderBy, n), n);
  }

  lemma HolesOfAllWords(cs: seq<Clause>, words: seq<string>, orderBy: string, n: nat)
    requires '$' !in orderBy && forall i :: 0 <= i < |cs| ==> WellFormed(cs[i])
    requires words == ClausesWords(cs) && n == |cs|
    ensures HolesOfWords(words + TailWords(orderBy, n)) == FirstNumbers(n + 2)
  {
    HolesOfClauses(cs);
    TailGoesOn(words, orderBy, n);
  }

  lemma HolesBehindSelect(select: string, ws: seq<string>)
    requires '$' !in select
    ensures Holes(select + Sentence(ws)) == HolesOfWords(ws)
  {
    var sentence := Sentence(ws);
    SentenceStartsBlank(ws);
    HolesConcat(select, sentence);
    NoHoles(select);
    HolesOfSentence(ws);
  }

  lemma {:induction false} NoDollarInSentence(ws: seq<string>)
    requires forall i :: 0 <= i < |ws| ==> '$' !in ws[i]
    ensures '$' !in Sentence(ws)
  {
    if ws != [] { NoDollarInSentence(ws[..|ws| - 1]); }
  }

  lemma NoDollarInSelect(items: seq<Item>, from: string)
    requires IsName(from) && forall i :: 0 <= i < |items| ==> IsPlain(items[i])
    ensures '$' !in Select(items, from)
  {
    PlainWords(items);
    NoDollarInSentence(SelectWords(items, from));
  }

  /** The placeholders of a built query are exactly $1..$n, one for each parameter, in order. */
  lemma HolesAreParameters(items: seq<Item>, from: string, cs: seq<Clause>, orderBy: string, limit: nat, offset: nat)
    requires IsName(from) && forall i :: 0 <= i < |items| ==> IsPlain(items[i])
    requires '$' !in orderBy && forall i :: 0 <= i < |cs| ==> WellFormed(cs[i])
    ensures Holes(QueryText(items, from, cs, orderBy)) == FirstNumbers(|QueryParams(cs, limit, offset)|)
  {
    NoDollarInSelect(items, from);
    HolesBehindSelect(Select(items, from), ClausesWords(cs) + TailWords(orderBy, |cs|));
    HolesOfAllWords(cs, ClausesWords(cs), orderBy, |cs|);
    CondAndValueAt(cs);
  }
}
