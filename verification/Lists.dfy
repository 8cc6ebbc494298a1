/** ListChargings and ListConsumptions: a query grown filter by filter, run, and cut into a page. */
module Lists {
  import opened Wrappers
  import opened Calendar
  import opened PageToken
  import opened Paging
  import opened Rows
  import opened Sql
  import opened TextOrder

  // ---------------------------------------------------------------- the fixed part of the text

  /** The part of a list query that no request changes. */
  datatype ListQuery = ListQuery(items: seq<Item>, from: string, orderBy: string)

  const CHARGING := ListQuery(
    [Item("Id", ""), Item("VehicleId", ""), Item("StartTime", "::text"), Item("EndTime", "::text"),
     Item("StartPercent", ""), Item("EndPercent", ""), Item("StartMileage", ""), Item("EndMileage", ""),
     Item("KwhCharged", ""), Item("Cost", ""), Item("ElectricityUnitPrice", ""), Item("ServiceFee", ""),
     Item("ChargerType", ""), Item("SourceCategoryId", ""), Item("Location", ""), Item("Remark", "")],
    "charging", "StartTime")

  const CONSUMPTION := ListQuery(
    [Item("Id", ""), Item("VehicleId", ""), Item("Start", "::text"), Item("EndTime", "::text"),
     Item("BeginPercent", ""), Item("EndPercent", ""), Item("BeginMileage", ""), Item("EndMileage", ""),
     Item("BeginRange", ""), Item("EndRange", ""), Item("HighestTemperature", ""), Item("LowestTemperature", ""),
     Item("WeatherId", ""), Item("Remark", "")],
    "consumption", "Start")

  /** Plain names throughout, and an order by a column that is selected as text. */
  predicate IsListQuery(q: ListQuery) {
    && q.items != [] && IsName(q.from) && IsName(q.orderBy) && OutputCast(q.items, q.orderBy) == Some("::text")
    && forall i :: 0 <= i < |q.items| ==> IsPlain(q.items[i])
  }

  lemma PlainItem(name: string, cast: string)
    requires IsName(name) && name != "FROM" && (cast == "" || cast == "::text")
    ensures IsPlain(Item(name, cast))
  {
    if cast == "::text" { assert "::text"[2..] == "text"; }
  }

  lemma PlainItems(items: seq<Item>)
    requires forall i :: 0 <= i < |items| ==> IsName(items[i].column) && items[i].column != "FROM"
    requires forall i :: 0 <= i < |items| ==> items[i].cast == "" || items[i].cast == "::text"
    ensures forall i :: 0 <= i < |items| ==> IsPlain(items[i])
  {
    forall i | 0 <= i < |items|
      ensures IsPlain(items[i])
    {
      PlainItem(items[i].column, items[i].cast);
    }
  }

  lemma SharedNames()
    ensures IsName("Id") && IsName("VehicleId") && IsName("EndTime") && IsName("EndPercent") && IsName("EndMileage")
    ensures IsName("Remark")
  {
  }

  lemma ChargingNames()
    ensures IsName("StartTime") && IsName("StartPercent") && IsName("StartMileage") && IsName("KwhCharged")
    ensures IsName("Cost") && IsName("ServiceFee") && IsName("ChargerType") && IsName("Location")
  {
  }

  lemma LongNames()
    ensures IsName("ElectricityUnitPrice") && IsName("SourceCategoryId") && IsName("HighestTemperature")
  {
  }

  lemma TableNames()
    ensures IsName("LowestTemperature") && IsName("charging") && IsName("consumption")
  {
  }

  lemma ConsumptionNames()
    ensures IsName("Start") && IsName("BeginPercent") && IsName("BeginMileage") && IsName("BeginRange")
    ensures IsName("EndRange") && IsName("WeatherId")
  {
  }

  lemma ChargingIsListQuery()
    ensures IsListQuery(CHARGING)
  {
    SharedNames();
    ChargingNames();
    LongNames();
    TableNames();
    PlainItems(CHARGING.items);
    OrderedByThird(CHARGING.items, "StartTime");
  }

  lemma ConsumptionIsListQuery()
    ensures IsListQuery(CONSUMPTION)
  {
    SharedNames();
    ConsumptionNames();
    LongNames();
    TableNames();
    PlainItems(CONSUMPTION.items);
    OrderedByThird(CONSUMPTION.items, "Start");
  }

  lemma OrderedByThird(items: seq<Item>, name: string)
    requires |items| > 2 && items[0].column != name && items[1].column != name && items[2].column == name
    ensures OutputCast(items, name) == Some(items[2].cast)
  {
    assert OutputCast(items, name) == OutputCast(items[1..], name);
    assert OutputCast(items[1..], name) == OutputCast(items[1..][1..], name);
    assert items[1..][1..][0] == items[2];
  }

  // ---------------------------------------------------------------- clauses in general

  /** A filter of the request: whether it is set, and the clause it then adds. */
  datatype Candidate = Candidate(given: bool, clause: Clause)

  /** The clauses of the filters that are set, in order. */
  function Chosen(cands: seq<Candidate>): seq<Clause> {
    if cands == [] then [] else
    var last := cands[|cands| - 1];
    Chosen(cands[..|cands| - 1]) + if last.given then [last.clause] else []
  }

  predicate ClauseHolds<R>(row: R, column: (R, string) -> Datum, c: Clause) {
    Holds(c.op, column(row, c.column), CastTo(c.cast, c.value))
  }

  /** The row satisfies every clause, each compared with its own value. */
  predicate Satisfies<R>(row: R, column: (R, string) -> Datum, cs: seq<Clause>) {
    forall i :: 0 <= i < |cs| ==> ClauseHolds(row, column, cs[i])
  }

  lemma {:induction false} SatisfiesChosen<R>(row: R, column: (R, string) -> Datum, cands: seq<Candidate>)
    ensures Satisfies(row, column, Chosen(cands)) <==>
            forall i :: 0 <= i < |cands| ==> cands[i].given ==> ClauseHolds(row, column, cands[i].clause)
  {
    if cands != [] {
      var init, last := cands[..|cands| - 1], cands[|cands| - 1];
      SatisfiesChosen(row, column, init);
      assert forall i :: 0 <= i < |init| ==> init[i] == cands[i];
      assert forall i :: 0 <= i < |Chosen(init)| ==> Chosen(cands)[i] == Chosen(init)[i];
      if last.given { assert Chosen(cands)[|Chosen(cands)| - 1] == last.clause; }
      assert Satisfies(row, column, Chosen(cands)) <==>
             Satisfies(row, column, Chosen(init)) && (last.given ==> ClauseHolds(row, column, last.clause));
    }
  }

  lemma {:induction false} ChosenWellFormed(cands: seq<Candidate>)
    requires forall i :: 0 <= i < |cands| ==> WellFormed(cands[i].clause)
    ensures forall i :: 0 <= i < |Chosen(cands)| ==> WellFormed(Chosen(cands)[i])
  {
    if cands != [] { ChosenWellFormed(cands[..|cands| - 1]); }
  }

  /** Each placeholder finds the value of its own clause among the parameters. */
  lemma PassesIsSatisfies<R>(row: R, column: (R, string) -> Datum, cs: seq<Clause>, limit: nat, offset: nat)
    ensures RowPasses(row, column, ClauseConds(cs), QueryParams(cs, limit, offset)) <==> Satisfies(row, column, cs)
  {
    CondAndValueAt(cs);
    assert forall i :: 0 <= i < |cs| ==> Param(QueryParams(cs, limit, offset), i + 1) == cs[i].value;
  }

  lemma {:induction false} FilterSame<R>(rows: seq<R>, p: R -> bool, q: R -> bool)
    requires forall i :: 0 <= i < |rows| ==> p(rows[i]) == q(rows[i])
    ensures Filter(rows, p) == Filter(rows, q)
  {
    if rows != [] { FilterSame(rows[1..], p, q); }
  }

  lemma {:induction false} FilterMembers<R>(rows: seq<R>, p: R -> bool, x: R)
    ensures x in Filter(rows, p) <==> x in rows && p(x)
  {
    if rows != [] {
      FilterMembers(rows[1..], p, x);
      assert rows == [rows[0]] + rows[1..];
    }
  }

  /** Filter by `matches`, sort by `le`, drop `offset`, take `limit`. */
  ghost predicate Wanted<R(!new)>(table: seq<R>, matches: R -> bool, le: (R, R) -> bool, limit: nat, offset: nat,
                                  result: seq<R>) {
    IsSlice(Filter(table, matches), le, limit, offset, result)
  }

  /** Descending by the text that the session shows for the start. */
  function TextDesc<R>(l: Locale, start: R -> int): (R, R) -> bool {
    (a: R, b: R) => l.le(l.time(start(b)), l.time(start(a)))
  }

  /** Column `name` is the start time. */
  ghost predicate IsStart<R(!new)>(column: (R, string) -> Datum, name: string, start: R -> int) {
    forall r :: column(r, name) == Time(start(r))
  }

  /** Every start is an instant of the years 1 to 9999. */
  ghost predicate StartsInRange<R>(table: seq<R>, start: R -> int) {
    forall i :: 0 <= i < |table| ==> InRange(start(table[i]))
  }

  /** Orders that agree on the rows of a table allow the same arrangements of it. */
  lemma SameAnswers<R(!new)>(rows: seq<R>, le: (R, R) -> bool, le': (R, R) -> bool, answer: seq<R>)
    requires forall x, y :: x in rows && y in rows ==> le(x, y) == le'(x, y)
    ensures IsAnswer(rows, le, answer) == IsAnswer(rows, le', answer)
  {
    if multiset(answer) == multiset(rows) {
      SameMembers(answer, rows);
      assert forall i :: 0 <= i < |answer| ==> answer[i] in rows;
    }
  }

  lemma SameSlices<R(!new)>(rows: seq<R>, le: (R, R) -> bool, le': (R, R) -> bool, limit: nat, offset: nat,
                            result: seq<R>)
    requires forall x, y :: x in rows && y in rows ==> le(x, y) == le'(x, y)
    ensures IsSlice(rows, le, limit, offset, result) <==> IsSlice(rows, le', limit, offset, result)
  {
    forall answer
      ensures IsAnswer(rows, le, answer) == IsAnswer(rows, le', answer)
    {
      SameAnswers(rows, le, le', answer);
    }
  }

  lemma TextDescIsStartDesc<R>(l: Locale, start: R -> int, a: R, b: R)
    requires IsUtc(l) && InRange(start(a)) && InRange(start(b))
    ensures TextDesc(l, start)(a, b) == StartDesc(start)(a, b)
  {
    TimeTextOrder(start(a), start(b));
  }

  /** In a UTC session, sorting rows of the years 1 to 9999 by the text of their start is sorting them by start. */
  lemma TextOrderIsStartOrder<R(!new)>(l: Locale, table: seq<R>, matches: R -> bool, start: R -> int,
                                       limit: nat, offset: nat, result: seq<R>)
    requires IsUtc(l) && StartsInRange(table, start)
    ensures Wanted(table, matches, TextDesc(l, start), limit, offset, result)
       <==> Wanted(table, matches, StartDesc(start), limit, offset, result)
  {
    var rows := Filter(table, matches);
    forall x, y | x in rows && y in rows
      ensures TextDesc(l, start)(x, y) == StartDesc(start)(x, y)
    {
      FilterMembers(table, matches, x);
      FilterMembers(table, matches, y);
      TextDescIsStartDesc(l, start, x, y);
    }
    SameSlices(rows, TextDesc(l, start), StartDesc(start), limit, offset, result);
  }

  /** What the handlers build from their filters: the text and its parameters. */
  function ListText(q: ListQuery, cands: seq<Candidate>): string {
    QueryText(q.items, q.from, Chosen(cands), q.orderBy)
  }

  function ListParams(cands: seq<Candidate>, limit: nat, offset: nat): seq<Datum> {
    QueryParams(Chosen(cands), limit, offset)
  }

  /** A row passes when it satisfies the clause of every filter that is given. */
  predicate PassesGiven<R>(row: R, column: (R, string) -> Datum, cands: seq<Candidate>) {
    forall i :: 0 <= i < |cands| ==> cands[i].given ==> ClauseHolds(row, column, cands[i].clause)
  }

  /** A database in a session `l` may answer the built query with these rows. */
  ghost predicate ListOutcome<R(!new)>(l: Locale, q: ListQuery, cands: seq<Candidate>, limit: nat, offset: nat,
                                       table: seq<R>, column: (R, string) -> Datum, result: seq<R>) {
    Outcome(l, ListText(q, cands), ListParams(cands, limit, offset), table, column, result)
  }

  lemma KeyDescIsTextDesc<R(!new)>(l: Locale, q: ListQuery, column: (R, string) -> Datum, start: R -> int, a: R, b: R)
    requires IsListQuery(q) && IsStart(column, q.orderBy, start)
    ensures KeyDesc(l, q.items, column, q.orderBy)(a, b) == TextDesc(l, start)(a, b)
  {
  }

  /** Reading the text back: a filter by its clauses, and a sort by the column that it orders by. */
  lemma OutcomeIs<R(!new)>(l: Locale, q: ListQuery, cs: seq<Clause>, limit: nat, offset: nat, table: seq<R>,
                           column: (R, string) -> Datum, passes: R -> bool, result: seq<R>)
    requires IsListQuery(q) && forall i :: 0 <= i < |cs| ==> WellFormed(cs[i])
    requires forall r :: passes(r) <==> Satisfies(r, column, cs)
    ensures Outcome(l, QueryText(q.items, q.from, cs, q.orderBy), QueryParams(cs, limit, offset), table, column, result)
       <==> Wanted(table, passes, KeyDesc(l, q.items, column, q.orderBy), limit, offset, result)
  {
    ReadBuilt(q.items, q.from, cs, q.orderBy);
    var params := QueryParams(cs, limit, offset);
    var accepts := (row: R) => RowPasses(row, column, ClauseConds(cs), params);
    CondAndValueAt(cs);
    assert Param(params, |cs| + 1) == Number(limit) && Param(params, |cs| + 2) == Number(offset);
    forall i | 0 <= i < |table|
      ensures accepts(table[i]) == passes(table[i])
    {
      PassesIsSatisfies(table[i], column, cs, limit, offset);
    }
    FilterSame(table, accepts, passes);
  }

  /** The query, for any list: filter by `matches`, sort by the text of the start, drop, take. */
  ghost predicate Means<R(!new)>(l: Locale, q: ListQuery, cands: seq<Candidate>, table: seq<R>,
                                 column: (R, string) -> Datum, matches: R -> bool, start: R -> int) {
    forall limit: nat, offset: nat, result: seq<R> ::
      ListOutcome(l, q, cands, limit, offset, table, column, result)
      <==> Wanted(table, matches, TextDesc(l, start), limit, offset, result)
  }

  lemma ListMeaning<R(!new)>(l: Locale, q: ListQuery, cands: seq<Candidate>, limit: nat, offset: nat, table: seq<R>,
                             column: (R, string) -> Datum, matches: R -> bool, start: R -> int, result: seq<R>)
    requires IsListQuery(q) && IsStart(column, q.orderBy, start)
    requires forall i :: 0 <= i < |cands| ==> WellFormed(cands[i].clause)
    requires forall r :: matches(r) <==> PassesGiven(r, column, cands)
    ensures ListOutcome(l, q, cands, limit, offset, table, column, result)
       <==> Wanted(table, matches, TextDesc(l, start), limit, offset, result)
  {
    ChosenWellFormed(cands);
    forall r
      ensures matches(r) <==> Satisfies(r, column, Chosen(cands))
    {
      SatisfiesChosen(r, column, cands);
    }
    OutcomeIs(l, q, Chosen(cands), limit, offset, table, column, matches, result);
    var le, le' := KeyDesc(l, q.items, column, q.orderBy), TextDesc(l, start);
    forall x, y
      ensures le(x, y) == le'(x, y)
    {
      KeyDescIsTextDesc(l, q, column, start, x, y);
    }
    SameSlices(Filter(table, matches), le, le', limit, offset, result);
  }

  lemma ListMeans<R(!new)>(l: Locale, q: ListQuery, cands: seq<Candidate>, table: seq<R>,
                           column: (R, string) -> Datum, matches: R -> bool, start: R -> int)
    requires IsListQuery(q) && IsStart(column, q.orderBy, start)
    requires forall i :: 0 <= i < |cands| ==> WellFormed(cands[i].clause)
    requires forall r :: matches(r) <==> PassesGiven(r, column, cands)
    ensures Means(l, q, cands, table, column, matches, start)
  {
    forall limit: nat, offset: nat, result: seq<R>
      ensures ListOutcome(l, q, cands, limit, offset, table, column, result)
         <==> Wanted(table, matches, TextDesc(l, start), limit, offset, result)
    {
      ListMeaning(l, q, cands, limit, offset, table, column, matches, start, result);
    }
  }

  lemma MeansByStart<R(!new)>(l: Locale, q: ListQuery, cands: seq<Candidate>, limit: nat, offset: nat, table: seq<R>,
                              column: (R, string) -> Datum, matches: R -> bool, start: R -> int, result: seq<R>)
    requires Means(l, q, cands, table, column, matches, start) && IsUtc(l) && StartsInRange(table, start)
    ensures ListOutcome(l, q, cands, limit, offset, table, column, result)
       <==> Wanted(table, matches, StartDesc(start), limit, offset, result)
  {
    TextOrderIsStartOrder(l, table, matches, start, limit, offset, result);
  }

  lemma ListHoles(q: ListQuery, cands: seq<Candidate>, limit: nat, offset: nat)
    requires IsListQuery(q) && forall i :: 0 <= i < |cands| ==> WellFormed(cands[i].clause)
    ensures Holes(ListText(q, cands)) == FirstNumbers(|ListParams(cands, limit, offset)|)
  {
    ChosenWellFormed(cands);
    HolesAreParameters(q.items, q.from, Chosen(cands), q.orderBy, limit, offset);
  }

  // ---------------------------------------------------------------- ListChargings

  function LabelOf(c: Charger): string { match c case Fast => "fast" case Slow => "slow" }

  function ChargingColumn(r: Entry<Charge>, name: string): Datum {
    match name
    case "VehicleId" => Id(r.row.vehicleId)
    case "StartTime" => Time(r.row.startTime)
    case "ChargerType" => Label(LabelOf(r.row.chargerType))
    case "SourceCategoryId" => Id(r.row.sourceCategoryId)
    case _ => Null
  }

  /** `chargerType` is the enum number on the wire: 0 unspecified, 1 fast, 2 slow; proto3 lets others through. */
  datatype ChargingFilter = ChargingFilter(
    vehicleId: string, startAfter: Option<int>, startBefore: Option<int>, chargerType: int, sourceCategoryId: string)

  function ChargerTypeLabel(t: int): Datum { if t == 1 then Label("fast") else if t == 2 then Label("slow") else Null }

  predicate ChargingMatches(c: Charge, f: ChargingFilter) {
    && (f.vehicleId == "" || c.vehicleId == f.vehicleId)
    && (f.startAfter.None? || c.startTime > f.startAfter.value)
    && (f.startBefore.None? || c.startTime < f.startBefore.value)
    && (|| f.chargerType == 0
        || (f.chargerType == 1 && c.chargerType == Fast)
        || (f.chargerType == 2 && c.chargerType == Slow))
    && (f.sourceCategoryId == "" || c.sourceCategoryId == f.sourceCategoryId)
  }

  function TimeOf(t: Option<int>): Datum { match t case Some(micros) => Time(micros) case None => Null }

  function ChargingCandidates(f: ChargingFilter): seq<Candidate> {
    [ Candidate(f.vehicleId != "", Clause("VehicleId", "=", "", Id(f.vehicleId))),
      Candidate(f.startAfter.Some?, Clause("StartTime", ">", "", TimeOf(f.startAfter))),
      Candidate(f.startBefore.Some?, Clause("StartTime", "<", "", TimeOf(f.startBefore))),
      Candidate(f.chargerType != 0, Clause("ChargerType", "=", "::charger_type_enum", ChargerTypeLabel(f.chargerType))),
      Candidate(f.sourceCategoryId != "", Clause("SourceCategoryId", "=", "", Id(f.sourceCategoryId))) ]
  }

  lemma ChargingClausesAreFilter(r: Entry<Charge>, f: ChargingFilter)
    ensures ChargingMatches(r.row, f) <==> PassesGiven(r, ChargingColumn, ChargingCandidates(f))
  {
    var cands := ChargingCandidates(f);
    assert (cands[0].given ==> ClauseHolds(r, ChargingColumn, cands[0].clause))
      <==> (f.vehicleId == "" || r.row.vehicleId == f.vehicleId);
    assert (cands[1].given ==> ClauseHolds(r, ChargingColumn, cands[1].clause))
      <==> (f.startAfter.None? || r.row.startTime > f.startAfter.value);
    assert (cands[2].given ==> ClauseHolds(r, ChargingColumn, cands[2].clause))
      <==> (f.startBefore.None? || r.row.startTime < f.startBefore.value);
    assert (cands[3].given ==> ClauseHolds(r, ChargingColumn, cands[3].clause)) <==>
      (f.chargerType == 0 || (f.chargerType == 1 && r.row.chargerType == Fast)
       || (f.chargerType == 2 && r.row.chargerType == Slow)) by { LabelsDiffer(r.row.chargerType); }
    assert (cands[4].given ==> ClauseHolds(r, ChargingColumn, cands[4].clause))
      <==> (f.sourceCategoryId == "" || r.row.sourceCategoryId == f.sourceCategoryId);
  }

  lemma LabelsDiffer(c: Charger)
    ensures LabelOf(c) == "fast" <==> c == Fast
    ensures LabelOf(c) == "slow" <==> c == Slow
  {
    assert "fast"[0] != "slow"[0];
  }

  function Matching(f: ChargingFilter): Entry<Charge> -> bool { (r: Entry<Charge>) => ChargingMatches(r.row, f) }
  function StartTime(r: Entry<Charge>): int { r.row.startTime }

  lemma ChargingMeans(l: Locale, f: ChargingFilter, table: seq<Entry<Charge>>)
    ensures Means(l, CHARGING, ChargingCandidates(f), table, ChargingColumn, Matching(f), StartTime)
  {
    ChargingIsListQuery();
    ChargingCandidatesWellFormed(f);
    forall r
      ensures Matching(f)(r) <==> PassesGiven(r, ChargingColumn, ChargingCandidates(f))
    {
      ChargingClausesAreFilter(r, f);
    }
    StartTimeColumn();
    ListMeans(l, CHARGING, ChargingCandidates(f), table, ChargingColumn, Matching(f), StartTime);
  }

  /**
   The query of ListChargings, for every combination and value of its five filters, in any session:
   filter, sort by the text of the start, drop, take. In a UTC session and for rows of the years 1
   to 9999 the sort is the sort by start.
   */
  lemma ChargingQueryMeaning(l: Locale, f: ChargingFilter, limit: nat, offset: nat, table: seq<Entry<Charge>>,
                             result: seq<Entry<Charge>>)
    ensures Holes(ListText(CHARGING, ChargingCandidates(f)))
         == FirstNumbers(|ListParams(ChargingCandidates(f), limit, offset)|)
    ensures ListOutcome(l, CHARGING, ChargingCandidates(f), limit, offset, table, ChargingColumn, result)
       <==> Wanted(table, Matching(f), TextDesc(l, StartTime), limit, offset, result)
    ensures IsUtc(l) && StartsInRange(table, StartTime) ==>
              (Wanted(table, Matching(f), TextDesc(l, StartTime), limit, offset, result)
               <==> Wanted(table, Matching(f), StartDesc(StartTime), limit, offset, result))
  {
    ChargingIsListQuery();
    ChargingCandidatesWellFormed(f);
    ListHoles(CHARGING, ChargingCandidates(f), limit, offset);
    ChargingMeans(l, f, table);
    if IsUtc(l) && StartsInRange(table, StartTime) {
      TextOrderIsStartOrder(l, table, Matching(f), StartTime, limit, offset, result);
    }
  }

  lemma StartTimeColumn()
    ensures IsStart(ChargingColumn, "StartTime", StartTime)
  {
  }

  lemma ChargingCandidatesWellFormed(f: ChargingFilter)
    ensures forall i :: 0 <= i < |ChargingCandidates(f)| ==> WellFormed(ChargingCandidates(f)[i].clause)
  {
    PlainVehicleId(Id(f.vehicleId));
    PlainStartTime(">", TimeOf(f.startAfter));
    PlainStartTime("<", TimeOf(f.startBefore));
    PlainChargerType(ChargerTypeLabel(f.chargerType));
    PlainCategory(Id(f.sourceCategoryId));
  }

  lemma PlainVehicleId(v: Datum)
    ensures WellFormed(Clause("VehicleId", "=", "", v))
  {
  }

  lemma PlainStartTime(op: string, v: Datum)
    requires op == ">" || op == "<"
    ensures WellFormed(Clause("StartTime", op, "", v))
  {
  }

  lemma PlainChargerType(v: Datum)
    ensures WellFormed(Clause("ChargerType", "=", "::charger_type_enum", v))
  {
    PlainCast();
    assert ' ' !in "ChargerType" && '$' !in "ChargerType";
  }

  lemma PlainCast()
    ensures "::" <= "::charger_type_enum" && ' ' !in "::charger_type_enum" && '$' !in "::charger_type_enum"
  {
    var a, b := "::charger_", "type_enum";
    assert ' ' !in a && '$' !in a;
    assert ' ' !in b && '$' !in b;
    assert "::charger_type_enum" == a + b;
  }

  lemma PlainCategory(v: Datum)
    ensures WellFormed(Clause("SourceCategoryId", "=", "", v))
  {
  }

  // ---------------------------------------------------------------- growing the text

  /** The text and parameters after the filters looked at so far. */
  predicate GrownTo(q: ListQuery, cands: seq<Candidate>, sql: string, p: seq<Datum>) {
    sql == Select(q.items, q.from) + Sentence(ClausesWords(Chosen(cands))) && p == ClauseValues(Chosen(cands))
  }

  lemma ChosenLast(cands: seq<Candidate>, c: Candidate)
    ensures Chosen(cands + [c]) == Chosen(cands) + if c.given then [c.clause] else []
  {
    assert (cands + [c])[..|cands|] == cands;
  }

  lemma WordsOfNextClause(cs: seq<Clause>, c: Clause)
    ensures ClausesWords(cs + [c]) == ClausesWords(cs) + ClauseWords(c, |cs| + 1)
    ensures ClauseValues(cs + [c]) == ClauseValues(cs) + [c.value]
  {
    assert (cs + [c])[..|cs|] == cs;
  }

  lemma TextOfNextClause(cs: seq<Clause>, c: Clause)
    ensures Sentence(ClausesWords(cs + [c])) == Sentence(ClausesWords(cs)) + NextClause(c, |cs| + 1)
  {
    WordsOfNextClause(cs, c);
    var words := ClauseWords(c, |cs| + 1);
    SentenceOfFour(ClausesWords(cs), words);
    assert words[0] == "AND" && words[1] == c.column && words[2] == c.op && words[3] == Placeholder(|cs| + 1) + c.cast;
  }

  function NextClause(c: Clause, k: nat): string {
    " " + "AND" + " " + c.column + " " + c.op + " " + (Placeholder(k) + c.cast)
  }

  lemma ClauseAsWritten(column: string, op: string, hole: string, cast: string)
    ensures " AND " + column + " " + op + " " + hole + cast
         == " " + "AND" + " " + column + " " + op + " " + (hole + cast)
  {
    assert " AND " == " " + "AND" + " ";
  }

  lemma SentenceOfFour(a: seq<string>, b: seq<string>)
    requires |b| == 4
    ensures Sentence(a + b) == Sentence(a) + (" " + b[0] + " " + b[1] + " " + b[2] + " " + b[3])
  {
    SentenceConcat(a, b);
    assert b[..3][..2] == b[..2] && b[..2][..1] == b[..1] && b[..1][..0] == [];
    assert Sentence(b[..1]) == " " + b[0];
    assert Sentence(b[..2]) == " " + b[0] + " " + b[1];
    assert Sentence(b[..3]) == " " + b[0] + " " + b[1] + " " + b[2];
  }

  lemma FilterNotGiven(q: ListQuery, cands: seq<Candidate>, c: Candidate, sql: string, p: seq<Datum>)
    requires GrownTo(q, cands, sql, p) && !c.given
    ensures GrownTo(q, cands + [c], sql, p)
  {
    ChosenLast(cands, c);
    assert Chosen(cands + [c]) == Chosen(cands);
  }

  lemma FilterGiven(q: ListQuery, cands: seq<Candidate>, c: Candidate, sql: string, p: seq<Datum>)
    requires GrownTo(q, cands, sql, p) && c.given
    ensures GrownTo(q, cands + [c], sql + NextClause(c.clause, |p| + 1), p + [c.clause.value])
  {
    ChosenLast(cands, c);
    CondAndValueAt(Chosen(cands));
    WordsOfNextClause(Chosen(cands), c.clause);
    TextOfNextClause(Chosen(cands), c.clause);
  }

  /** The `if`s of the handlers, in order: each appends a clause and its parameter when its filter is given. */
  method AddFilters(q: ListQuery, cands: seq<Candidate>) returns (sql: string, p: seq<Datum>)
    ensures GrownTo(q, cands, sql, p)
  {
    sql, p := Select(q.items, q.from), [];
    for i := 0 to |cands|
      invariant GrownTo(q, cands[..i], sql, p)
    {
      var c := cands[i].clause;
      assert cands[..i + 1] == cands[..i] + [cands[i]];
      if !cands[i].given {
        FilterNotGiven(q, cands[..i], cands[i], sql, p);
      } else {
        FilterGiven(q, cands[..i], cands[i], sql, p);
        ClauseAsWritten(c.column, c.op, Placeholder(|p| + 1), c.cast);
        sql := sql + (" AND " + c.column + " " + c.op + " " + Placeholder(|p| + 1) + c.cast);
        p := p + [c.value];
      }
    }
    assert cands[..|cands|] == cands;
  }

  method AddPage(q: ListQuery, ghost cands: seq<Candidate>, limit: nat, offset: nat, sql: string, p: seq<Datum>)
    returns (sql': string, p': seq<Datum>)
    requires GrownTo(q, cands, sql, p)
    ensures sql' == ListText(q, cands) && p' == ListParams(cands, limit, offset)
  {
    var k := |p|;
    CondAndValueAt(Chosen(cands));
    sql' := sql + Sentence(TailWords(q.orderBy, k));
    p' := p + [Number(limit), Number(offset)];
    SentenceConcat(ClausesWords(Chosen(cands)), TailWords(q.orderBy, k));
  }

  /** A database: text and parameters to rows. */
  type Database<R> = (string, seq<Datum>) -> seq<R>

  /** One list request against a database: the built query, one row more than the page, the page and its token. */
  function Listed<R>(db: Database<R>, q: ListQuery, cands: seq<Candidate>, requested: int,
                     token: string): Result<Page<R>> {
    match TokenOffset(token)
    case Failure(error) => Failure(error)
    case Success(offset) =>
      var size := EffectiveSize(requested);
      Success(PageOf(db(ListText(q, cands), ListParams(cands, size + 1, offset)), size, offset))
  }

  /** The common body of the two handlers. */
  method ListRows<R>(q: ListQuery, cands: seq<Candidate>, requested: int, token: string, db: Database<R>)
    returns (resp: Result<Page<R>>)
    ensures resp == Listed(db, q, cands, requested, token)
  {
    var pageSize := EffectiveSize(requested);
    var sql, p := AddFilters(q, cands);
    var status, offset := ParsePageToken(token);
    if status != Ok { return Failure(status); }
    sql, p := AddPage(q, cands, pageSize + 1, offset, sql, p);
    var page := EmitPage(db(sql, p), pageSize, offset);
    return Success(page);
  }

  method ListChargings(f: ChargingFilter, requested: int, token: string, db: Database<Entry<Charge>>)
    returns (resp: Result<Page<Entry<Charge>>>)
    ensures resp == Listed(db, CHARGING, ChargingCandidates(f), requested, token)
  {
    resp := ListRows(CHARGING, ChargingCandidates(f), requested, token, db);
  }

  // ---------------------------------------------------------------- ListConsumptions

  function ConsumptionColumn(r: Entry<Trip>, name: string): Datum {
    match name
    case "VehicleId" => Id(r.row.vehicleId)
    case "Start" => Time(r.row.start)
    case _ => Null
  }

  datatype ConsumptionFilter = ConsumptionFilter(vehicleId: string, startAfter: Option<int>, startBefore: Option<int>)

  predicate ConsumptionMatches(t: Trip, f: ConsumptionFilter) {
    && (f.vehicleId == "" || t.vehicleId == f.vehicleId)
    && (f.startAfter.None? || t.start > f.startAfter.value)
    && (f.startBefore.None? || t.start < f.startBefore.value)
  }

  function ConsumptionCandidates(f: ConsumptionFilter): seq<Candidate> {
    [ Candidate(f.vehicleId != "", Clause("VehicleId", "=", "", Id(f.vehicleId))),
      Candidate(f.startAfter.Some?, Clause("Start", ">", "::timestamptz", TimeOf(f.startAfter))),
      Candidate(f.startBefore.Some?, Clause("Start", "<", "::timestamptz", TimeOf(f.startBefore))) ]
  }

  function MatchingConsumption(f: ConsumptionFilter): Entry<Trip> -> bool {
    (r: Entry<Trip>) => ConsumptionMatches(r.row, f)
  }

  function Start(r: Entry<Trip>): int { r.row.start }

  lemma ConsumptionClausesAreFilter(r: Entry<Trip>, f: ConsumptionFilter)
    ensures ConsumptionMatches(r.row, f) <==> PassesGiven(r, ConsumptionColumn, ConsumptionCandidates(f))
  {
    var cands := ConsumptionCandidates(f);
    assert (cands[0].given ==> ClauseHolds(r, ConsumptionColumn, cands[0].clause))
      <==> (f.vehicleId == "" || r.row.vehicleId == f.vehicleId);
    assert (cands[1].given ==> ClauseHolds(r, ConsumptionColumn, cands[1].clause))
      <==> (f.startAfter.None? || r.row.start > f.startAfter.value);
    assert (cands[2].given ==> ClauseHolds(r, ConsumptionColumn, cands[2].clause))
      <==> (f.startBefore.None? || r.row.start < f.startBefore.value);
  }

  lemma PlainStart(op: string, v: Datum)
    requires op == ">" || op == "<"
    ensures WellFormed(Clause("Start", op, "::timestamptz", v))
  {
  }

  lemma ConsumptionCandidatesWellFormed(f: ConsumptionFilter)
    ensures forall i :: 0 <= i < |ConsumptionCandidates(f)| ==> WellFormed(ConsumptionCandidates(f)[i].clause)
  {
    PlainVehicleId(Id(f.vehicleId));
    PlainStart(">", TimeOf(f.startAfter));
    PlainStart("<", TimeOf(f.startBefore));
  }

  lemma ConsumptionMeans(l: Locale, f: ConsumptionFilter, table: seq<Entry<Trip>>)
    ensures Means(l, CONSUMPTION, ConsumptionCandidates(f), table, ConsumptionColumn, MatchingConsumption(f), Start)
  {
    ConsumptionIsListQuery();
    ConsumptionCandidatesWellFormed(f);
    forall r
      ensures MatchingConsumption(f)(r) <==> PassesGiven(r, ConsumptionColumn, ConsumptionCandidates(f))
    {
      ConsumptionClausesAreFilter(r, f);
    }
    StartColumn();
    ListMeans(l, CONSUMPTION, ConsumptionCandidates(f), table, ConsumptionColumn, MatchingConsumption(f), Start);
  }

  /** The query of ListConsumptions, for every combination and value of its three filters. */
  lemma ConsumptionQueryMeaning(l: Locale, f: ConsumptionFilter, limit: nat, offset: nat, table: seq<Entry<Trip>>,
                                result: seq<Entry<Trip>>)
    ensures Holes(ListText(CONSUMPTION, ConsumptionCandidates(f)))
         == FirstNumbers(|ListParams(ConsumptionCandidates(f), limit, offset)|)
    ensures ListOutcome(l, CONSUMPTION, ConsumptionCandidates(f), limit, offset, table, ConsumptionColumn, result)
       <==> Wanted(table, MatchingConsumption(f), TextDesc(l, Start), limit, offset, result)
    ensures IsUtc(l) && StartsInRange(table, Start) ==>
              (Wanted(table, MatchingConsumption(f), TextDesc(l, Start), limit, offset, result)
               <==> Wanted(table, MatchingConsumption(f), StartDesc(Start), limit, offset, result))
  {
    ConsumptionIsListQuery();
    ConsumptionCandidatesWellFormed(f);
    ListHoles(CONSUMPTION, ConsumptionCandidates(f), limit, offset);
    ConsumptionMeans(l, f, table);
    if IsUtc(l) && StartsInRange(table, Start) {
      TextOrderIsStartOrder(l, table, MatchingConsumption(f), Start, limit, offset, result);
    }
  }

  lemma StartColumn()
    ensures IsStart(ConsumptionColumn, "Start", Start)
  {
  }

  method ListConsumptions(f: ConsumptionFilter, requested: int, token: string, db: Database<Entry<Trip>>)
    returns (resp: Result<Page<Entry<Trip>>>)
    ensures resp == Listed(db, CONSUMPTION, ConsumptionCandidates(f), requested, token)
  {
    resp := ListRows(CONSUMPTION, ConsumptionCandidates(f), requested, token, db);
  }

  // ---------------------------------------------------------------- ListVehicles

  /** A database that answers the fixed query from its LIMIT and OFFSET alone. */
  function Once<R>(db: (nat, nat) -> seq<R>): Fetch<R> { (k: nat, limit: nat, offset: nat) => db(limit, offset) }

  method ListVehicles(requested: int, token: string, db: (nat, nat) -> seq<Entry<Vehicle>>)
    returns (resp: Result<Page<Entry<Vehicle>>>)
    ensures resp == Respond(Once(db), 0, requested, token)
  {
    var pageSize := EffectiveSize(requested);
    var status, offset := ParsePageToken(token);
    if status != Ok { return Failure(status); }
    var page := EmitPage(db(pageSize + 1, offset), pageSize, offset);
    return Success(page);
  }

  /** ORDER BY PurchaseDate DESC, Id: the date is compared as the text it is selected as. */
  function VehicleOrder(l: Locale): (Entry<Vehicle>, Entry<Vehicle>) -> bool {
    (v: Entry<Vehicle>, w: Entry<Vehicle>) =>
      var a, b := l.date(v.row.purchaseDate), l.date(w.row.purchaseDate);
      l.le(b, a) && (a == b ==> !TextLess(w.id, v.id))
  }

  /** In a UTC session and for dates of the years 1 to 9999 that is: later dates first, then ids in order. */
  lemma VehicleOrderIsDateOrder(l: Locale, v: Entry<Vehicle>, w: Entry<Vehicle>)
    requires IsUtc(l) && DateInRange(v.row.purchaseDate) && DateInRange(w.row.purchaseDate)
    ensures VehicleOrder(l)(v, w) <==>
              || v.row.purchaseDate > w.row.purchaseDate
              || (v.row.purchaseDate == w.row.purchaseDate && !TextLess(w.id, v.id))
  {
    CivilOrder(v.row.purchaseDate, w.row.purchaseDate);
    DateTextOrder(CivilOf(v.row.purchaseDate), CivilOf(w.row.purchaseDate));
  }

  lemma VehicleOrderIsTotal(l: Locale, v: Entry<Vehicle>, w: Entry<Vehicle>)
    requires TellsApart(l)
    ensures VehicleOrder(l)(v, w) || VehicleOrder(l)(w, v)
  {
    var a, b := l.date(v.row.purchaseDate), l.date(w.row.purchaseDate);
    assert l.le(a, b) || l.le(b, a);
    LessIsTotal(v.id, w.id);
  }

  lemma VehicleOrderIsTransitive(l: Locale, u: Entry<Vehicle>, v: Entry<Vehicle>, w: Entry<Vehicle>)
    requires TellsApart(l) && VehicleOrder(l)(u, v) && VehicleOrder(l)(v, w)
    ensures VehicleOrder(l)(u, w)
  {
    var a, b, c := l.date(u.row.purchaseDate), l.date(v.row.purchaseDate), l.date(w.row.purchaseDate);
    assert l.le(c, b) && l.le(b, a) && l.le(c, a);
    if a == c {
      assert a == b == c;
      NotLessIsTransitive(u.id, v.id, w.id);
    }
  }

  lemma VehicleOrderIsOrder(l: Locale)
    requires TellsApart(l)
    ensures IsOrder(VehicleOrder(l))
  {
    var le := VehicleOrder(l);
    forall v, w
      ensures le(v, w) || le(w, v)
    {
      VehicleOrderIsTotal(l, v, w);
    }
    forall u, v, w | le(u, v) && le(v, w)
      ensures le(u, w)
    {
      VehicleOrderIsTransitive(l, u, v, w);
    }
  }

  /** The primary key breaks every tie. */
  lemma VehiclesDoNotTie(l: Locale, vehicles: map<Uuid, Vehicle>, ids: seq<Uuid>)
    requires TellsApart(l) && IsScan(vehicles, ids)
    ensures NoTies(Entries(vehicles, ids), VehicleOrder(l))
  {
    var table, le := Entries(vehicles, ids), VehicleOrder(l);
    forall i, j | 0 <= i < j < |table|
      ensures !(le(table[i], table[j]) && le(table[j], table[i]))
    {
      LessIsTotal(table[i].id, table[j].id);
    }
  }

  lemma EntriesAreDistinct<R>(table: map<Uuid, R>, ids: seq<Uuid>)
    requires IsScan(table, ids)
    ensures NoDuplicates(Entries(table, ids))
  {
  }

  /**
   With the primary key in the order, whatever texts the session shows for dates, every vehicle walk
   shows each vehicle once and in order; and a database that reads the table exists.
   */
  lemma VehicleWalk(l: Locale, vehicles: map<Uuid, Vehicle>, ids: seq<Uuid>)
    requires TellsApart(l) && IsScan(vehicles, ids) && |ids| <= INT_MAX
    ensures exists fetch: Fetch<Entry<Vehicle>> :: Reads(fetch, Entries(vehicles, ids), VehicleOrder(l))
    ensures forall fetch: Fetch<Entry<Vehicle>>, sizes: nat -> int, steps: nat ::
              Reads(fetch, Entries(vehicles, ids), VehicleOrder(l)) && steps > |ids|
              ==> IsAnswer(Entries(vehicles, ids), VehicleOrder(l), Follow(Lister(fetch, sizes), steps))
  {
    var table, le := Entries(vehicles, ids), VehicleOrder(l);
    VehicleOrderIsOrder(l);
    VehiclesDoNotTie(l, vehicles, ids);
    SomeReads(table, le);
    forall fetch: Fetch<Entry<Vehicle>>, sizes: nat -> int, steps: nat | Reads(fetch, table, le) && steps > |ids|
      ensures IsAnswer(table, le, Follow(Lister(fetch, sizes), steps))
    {
      NoTiesInOrder(table, le, fetch, sizes, steps);
    }
  }

  // ---------------------------------------------------------------- one request, end to end

  /** The page is one that ListAt gives for some order of the matching rows. */
  ghost predicate IsPage<R(!new)>(table: seq<R>, matches: R -> bool, le: (R, R) -> bool, requested: int, offset: nat,
                                  page: Page<R>) {
    exists answer :: IsAnswer(Filter(table, matches), le, answer) && page == ListAt(answer, requested, offset)
  }

  lemma PageOfWanted<R(!new)>(table: seq<R>, matches: R -> bool, le: (R, R) -> bool, requested: int, offset: nat,
                              result: seq<R>)
    requires Wanted(table, matches, le, EffectiveSize(requested) + 1, offset, result)
    ensures IsPage(table, matches, le, requested, offset, PageOf(result, EffectiveSize(requested), offset))
  {
  }

  /** What a page is, by the text of the start and by the start. */
  ghost predicate IsListPage<R(!new)>(l: Locale, table: seq<R>, matches: R -> bool, start: R -> int, requested: int,
                                      offset: nat, page: Page<R>) {
    && IsPage(table, matches, TextDesc(l, start), requested, offset, page)
    && (IsUtc(l) && StartsInRange(table, start) ==>
          IsPage(table, matches, StartDesc(start), requested, offset, page))
  }

  lemma StartPageOfWanted<R(!new)>(l: Locale, table: seq<R>, matches: R -> bool, start: R -> int, requested: int,
                                   offset: nat, result: seq<R>)
    requires Wanted(table, matches, TextDesc(l, start), EffectiveSize(requested) + 1, offset, result)
    requires IsUtc(l) && StartsInRange(table, start)
    ensures IsPage(table, matches, StartDesc(start), requested, offset,
                   PageOf(result, EffectiveSize(requested), offset))
  {
    TextOrderIsStartOrder(l, table, matches, start, EffectiveSize(requested) + 1, offset, result);
    PageOfWanted(table, matches, StartDesc(start), requested, offset, result);
  }

  lemma ListPageOfWanted<R(!new)>(l: Locale, table: seq<R>, matches: R -> bool, start: R -> int, requested: int,
                                  offset: nat, result: seq<R>)
    requires Wanted(table, matches, TextDesc(l, start), EffectiveSize(requested) + 1, offset, result)
    ensures IsListPage(l, table, matches, start, requested, offset, PageOf(result, EffectiveSize(requested), offset))
  {
    PageOfWanted(table, matches, TextDesc(l, start), requested, offset, result);
    if IsUtc(l) && StartsInRange(table, start) {
      StartPageOfWanted(l, table, matches, start, requested, offset, result);
    }
  }

  lemma PageOfOutcome<R(!new)>(l: Locale, q: ListQuery, cands: seq<Candidate>, requested: int, offset: nat,
                               table: seq<R>, column: (R, string) -> Datum, matches: R -> bool, start: R -> int,
                               result: seq<R>)
    requires Means(l, q, cands, table, column, matches, start)
    ensures ListOutcome(l, q, cands, EffectiveSize(requested) + 1, offset, table, column, result)
            ==> IsListPage(l, table, matches, start, requested, offset,
                           PageOf(result, EffectiveSize(requested), offset))
  {
    if ListOutcome(l, q, cands, EffectiveSize(requested) + 1, offset, table, column, result) {
      ListPageOfWanted(l, table, matches, start, requested, offset, result);
    }
  }

  /**
   On a database that runs the text, a ListChargings response is one page of the matching rows in an
   order by the text of their start, which in a UTC session is an order by start.
   */
  lemma ChargingPage(l: Locale, f: ChargingFilter, requested: int, offset: nat, table: seq<Entry<Charge>>,
                     result: seq<Entry<Charge>>)
    ensures ListOutcome(l, CHARGING, ChargingCandidates(f), EffectiveSize(requested) + 1, offset, table,
                        ChargingColumn, result)
            ==> IsListPage(l, table, Matching(f), StartTime, requested, offset,
                           PageOf(result, EffectiveSize(requested), offset))
  {
    ChargingMeans(l, f, table);
    PageOfOutcome(l, CHARGING, ChargingCandidates(f), requested, offset, table, ChargingColumn, Matching(f), StartTime,
                  result);
  }

  lemma ConsumptionPage(l: Locale, f: ConsumptionFilter, requested: int, offset: nat, table: seq<Entry<Trip>>,
                        result: seq<Entry<Trip>>)
    ensures ListOutcome(l, CONSUMPTION, ConsumptionCandidates(f), EffectiveSize(requested) + 1, offset, table,
                        ConsumptionColumn, result)
            ==> IsListPage(l, table, MatchingConsumption(f), Start, requested, offset,
                           PageOf(result, EffectiveSize(requested), offset))
  {
    ConsumptionMeans(l, f, table);
    PageOfOutcome(l, CONSUMPTION, ConsumptionCandidates(f), requested, offset, table, ConsumptionColumn,
                  MatchingConsumption(f), Start, result);
  }

  /** How many rows a request asks for. */
  function Wants(requested: int): nat { if requested <= 0 then 50 else if requested > 999 then 999 else requested }

  /**
   A list request with an accepted token, on a database that runs the built query: of the `n` matching
   rows, those from the token's offset on, as many as asked for; and a token exactly while rows remain.
   */
  lemma ListResponse<R(!new)>(l: Locale, db: Database<R>, q: ListQuery, cands: seq<Candidate>, requested: int,
                              token: string, table: seq<R>, column: (R, string) -> Datum, matches: R -> bool,
                              start: R -> int)
    requires Means(l, q, cands, table, column, matches, start) && TokenOffset(token).Success?
    requires forall limit: nat, offset: nat ::
               ListOutcome(l, q, cands, limit, offset, table, column,
                           db(ListText(q, cands), ListParams(cands, limit, offset)))
    ensures Listed(db, q, cands, requested, token).Success?
    ensures exists answer :: IsAnswer(Filter(table, matches), TextDesc(l, start), answer)
              && IsPageOf(answer, Wants(requested), TokenOffset(token).value,
                          Listed(db, q, cands, requested, token).value)
  {
    var limit, offset := EffectiveSize(requested) + 1, TokenOffset(token).value;
    var result := db(ListText(q, cands), ListParams(cands, limit, offset));
    assert ListOutcome(l, q, cands, limit, offset, table, column, result);
    WantedResponse(table, matches, TextDesc(l, start), requested, offset, result);
  }

  lemma WantedResponse<R(!new)>(table: seq<R>, matches: R -> bool, le: (R, R) -> bool, requested: int, offset: nat,
                                result: seq<R>)
    requires Wanted(table, matches, le, EffectiveSize(requested) + 1, offset, result)
    ensures exists answer :: IsAnswer(Filter(table, matches), le, answer)
              && IsPageOf(answer, Wants(requested), offset, PageOf(result, EffectiveSize(requested), offset))
  {
    var answer :| IsAnswer(Filter(table, matches), le, answer)
                  && result == Slice(answer, EffectiveSize(requested) + 1, offset);
    PageSizes(answer, requested, offset);
    assert ListAt(answer, requested, offset) == PageOf(result, EffectiveSize(requested), offset);
  }

  /** A response of ListVehicles to an accepted token, from one order of the table. */
  lemma VehicleResponse(answer: seq<Entry<Vehicle>>, requested: int, token: string)
    requires TokenOffset(token).Success?
    ensures Respond(Serving(Always(answer)), 0, requested, token).Success?
    ensures IsPageOf(answer, Wants(requested), TokenOffset(token).value,
                     Respond(Serving(Always(answer)), 0, requested, token).value)
  {
    RespondIs(Always(answer), 0, requested, token);
    PageSizes(answer, requested, TokenOffset(token).value);
  }

  // ---------------------------------------------------------------- a whole walk, end to end

  /** The list method over databases that may answer each request differently; request k asks for `sizes(k)` rows. */
  function ListService<R>(dbs: nat -> Database<R>, q: ListQuery, cands: seq<Candidate>, sizes: nat -> int): Service<R> {
    (k: nat, token: string) => Listed(dbs(k), q, cands, sizes(k), token)
  }

  /** What the built query reads. */
  function Reading<R>(dbs: nat -> Database<R>, q: ListQuery, cands: seq<Candidate>): Fetch<R> {
    (k: nat, limit: nat, offset: nat) => dbs(k)(ListText(q, cands), ListParams(cands, limit, offset))
  }

  /** Every database runs the text on the table. */
  ghost predicate RunOn<R(!new)>(l: Locale, dbs: nat -> Database<R>, q: ListQuery, cands: seq<Candidate>,
                                 table: seq<R>, column: (R, string) -> Datum) {
    forall k: nat, limit: nat, offset: nat ::
      ListOutcome(l, q, cands, limit, offset, table, column, Reading(dbs, q, cands)(k, limit, offset))
  }

  /** Whatever the databases choose where ORDER BY leaves a choice, and for all page sizes, the walk is complete. */
  ghost predicate EveryListComplete<R(!new)>(l: Locale, q: ListQuery, cands: seq<Candidate>, table: seq<R>,
                                             column: (R, string) -> Datum, rows: seq<R>) {
    forall dbs: nat -> Database<R>, sizes: nat -> int ::
      RunOn(l, dbs, q, cands, table, column) ==> Complete(rows, ListService(dbs, q, cands, sizes))
  }

  /** A database that finds LIMIT and OFFSET in its parameters and reads accordingly. */
  function Answering<R>(fetch: Fetch<R>): nat -> Database<R> {
    (k: nat) => (sql: string, p: seq<Datum>) =>
      if |p| >= 2 && p[|p| - 2].Number? && p[|p| - 1].Number? then fetch(k, p[|p| - 2].n, p[|p| - 1].n) else []
  }

  lemma AnsweringReads<R>(fetch: Fetch<R>, q: ListQuery, cands: seq<Candidate>, k: nat, limit: nat, offset: nat)
    ensures Reading(Answering(fetch), q, cands)(k, limit, offset) == fetch(k, limit, offset)
  {
    var p := ListParams(cands, limit, offset);
    assert p[|p| - 2] == Number(limit) && p[|p| - 1] == Number(offset);
  }

  lemma ListedIsRespond<R>(dbs: nat -> Database<R>, q: ListQuery, cands: seq<Candidate>, k: nat, requested: int,
                           token: string)
    ensures Listed(dbs(k), q, cands, requested, token) == Respond(Reading(dbs, q, cands), k, requested, token)
  {
    if TokenOffset(token).Success? {
      var limit, offset := EffectiveSize(requested) + 1, TokenOffset(token).value;
      assert Reading(dbs, q, cands)(k, limit, offset) == dbs(k)(ListText(q, cands), ListParams(cands, limit, offset));
    }
  }

  lemma ListIsLister<R>(dbs: nat -> Database<R>, q: ListQuery, cands: seq<Candidate>, sizes: nat -> int, steps: nat)
    ensures Follow(ListService(dbs, q, cands, sizes), steps) == Follow(Lister(Reading(dbs, q, cands), sizes), steps)
  {
    var a, b := ListService(dbs, q, cands, sizes), Lister(Reading(dbs, q, cands), sizes);
    forall k: nat, token: string
      ensures a(k, token) == b(k, token)
    {
      ListedIsRespond(dbs, q, cands, k, sizes(k), token);
    }
    CollectSame(a, b, 0, "", steps, []);
  }

  lemma RunOnReads<R(!new)>(l: Locale, dbs: nat -> Database<R>, q: ListQuery, cands: seq<Candidate>, table: seq<R>,
                            column: (R, string) -> Datum, matches: R -> bool, start: R -> int)
    requires Means(l, q, cands, table, column, matches, start)
    ensures RunOn(l, dbs, q, cands, table, column)
       <==> Reads(Reading(dbs, q, cands), Filter(table, matches), TextDesc(l, start))
  {
    var fetch := Reading(dbs, q, cands);
    assert forall k: nat, limit: nat, offset: nat ::
        ListOutcome(l, q, cands, limit, offset, table, column, fetch(k, limit, offset))
        <==> IsSlice(Filter(table, matches), TextDesc(l, start), limit, offset, fetch(k, limit, offset)) by {
      forall k: nat, limit: nat, offset: nat
        ensures ListOutcome(l, q, cands, limit, offset, table, column, fetch(k, limit, offset))
           <==> Wanted(table, matches, TextDesc(l, start), limit, offset, fetch(k, limit, offset))
      {
      }
    }
  }

  lemma CompleteSame<R(!new)>(rows: seq<R>, dbs: nat -> Database<R>, q: ListQuery, cands: seq<Candidate>,
                              sizes: nat -> int)
    ensures Complete(rows, ListService(dbs, q, cands, sizes)) <==> Complete(rows, Lister(Reading(dbs, q, cands), sizes))
  {
    forall steps: nat
      ensures Follow(ListService(dbs, q, cands, sizes), steps) == Follow(Lister(Reading(dbs, q, cands), sizes), steps)
    {
      ListIsLister(dbs, q, cands, sizes, steps);
    }
  }

  lemma {:induction false} FilterNoDuplicates<R>(rows: seq<R>, p: R -> bool)
    requires NoDuplicates(rows)
    ensures NoDuplicates(Filter(rows, p)) && |Filter(rows, p)| <= |rows|
  {
    if rows != [] {
      FilterNoDuplicates(rows[1..], p);
      FilterMembers(rows[1..], p, rows[0]);
    }
  }

  lemma AnsweringWalks<R(!new)>(fetch: Fetch<R>, q: ListQuery, cands: seq<Candidate>, table: seq<R>,
                                le: (R, R) -> bool, rows: seq<R>, sizes: nat -> int)
    ensures Reads(Reading(Answering(fetch), q, cands), table, le) <==> Reads(fetch, table, le)
    ensures Complete(rows, ListService(Answering(fetch), q, cands, sizes)) <==> Complete(rows, Lister(fetch, sizes))
  {
    var reading := Reading(Answering(fetch), q, cands);
    forall k: nat, limit: nat, offset: nat
      ensures reading(k, limit, offset) == fetch(k, limit, offset)
    {
      AnsweringReads(fetch, q, cands, k, limit, offset);
    }
    CompleteSame(rows, Answering(fetch), q, cands, sizes);
    forall steps: nat
      ensures Follow(Lister(reading, sizes), steps) == Follow(Lister(fetch, sizes), steps)
    {
      ListerSame(reading, fetch, sizes, steps);
    }
  }

  lemma TextDescIsOrder<R(!new)>(l: Locale, start: R -> int)
    requires TellsApart(l)
    ensures IsOrder(TextDesc(l, start))
  {
    var le := TextDesc(l, start);
    forall x, y
      ensures le(x, y) || le(y, x)
    {
      assert l.le(l.time(start(x)), l.time(start(y))) || l.le(l.time(start(y)), l.time(start(x)));
    }
  }

  /** Texts tie exactly where starts are equal. */
  lemma TiesAreEqualStarts<R(!new)>(l: Locale, rows: seq<R>, start: R -> int)
    requires TellsApart(l)
    ensures NoTies(rows, TextDesc(l, start)) <==> DistinctStarts(rows, start)
  {
    TextDescIsOrder(l, start);
    var le := TextDesc(l, start);
    forall x, y
      ensures le(x, y) && le(y, x) <==> start(x) == start(y)
    {
      assert le(x, x) || le(x, x);
    }
  }

  lemma ListExactly<R(!new)>(l: Locale, q: ListQuery, cands: seq<Candidate>, table: seq<R>,
                             column: (R, string) -> Datum, matches: R -> bool, start: R -> int)
    requires TellsApart(l) && NoDuplicates(table) && |table| <= INT_MAX
    requires Means(l, q, cands, table, column, matches, start)
    ensures EveryListComplete(l, q, cands, table, column, Filter(table, matches))
       <==> DistinctStarts(Filter(table, matches), start)
  {
    var rows, le := Filter(table, matches), TextDesc(l, start);
    FilterNoDuplicates(table, matches);
    TextDescIsOrder(l, start);
    TiesAreEqualStarts(l, rows, start);
    WalkExactly(rows, le);
    if DistinctStarts(rows, start) {
      forall dbs: nat -> Database<R>, sizes: nat -> int | RunOn(l, dbs, q, cands, table, column)
        ensures Complete(rows, ListService(dbs, q, cands, sizes))
      {
        RunOnReads(l, dbs, q, cands, table, column, matches, start);
        CompleteSame(rows, dbs, q, cands, sizes);
      }
    } else {
      var fetch: Fetch<R>, sizes: nat -> int :| Reads(fetch, rows, le) && !Complete(rows, Lister(fetch, sizes));
      AnsweringWalks(fetch, q, cands, rows, le, rows, sizes);
      RunOnReads(l, Answering(fetch), q, cands, table, column, matches, start);
    }
  }

  /**
   Following next_page_token from the first request on, over one charging table and one filter, shows
   each matching row once, whatever the database does within ORDER BY and whatever the page sizes, if
   and only if the matching rows start at different times. All that is asked of the session is that
   its texts tell instants apart and its collation tells texts apart.
   */
  lemma ChargingListExactly(l: Locale, charges: map<Uuid, Charge>, ids: seq<Uuid>, f: ChargingFilter)
    requires TellsApart(l) && IsScan(charges, ids) && |ids| <= INT_MAX
    ensures var rows := Filter(Entries(charges, ids), Matching(f));
            EveryListComplete(l, CHARGING, ChargingCandidates(f), Entries(charges, ids), ChargingColumn, rows)
            <==> DistinctStarts(rows, StartTime)
  {
    var table := Entries(charges, ids);
    EntriesAreDistinct(charges, ids);
    ChargingMeans(l, f, table);
    ListExactly(l, CHARGING, ChargingCandidates(f), table, ChargingColumn, Matching(f), StartTime);
  }

  /** The same for the consumption list. */
  lemma ConsumptionListExactly(l: Locale, trips: map<Uuid, Trip>, ids: seq<Uuid>, f: ConsumptionFilter)
    requires TellsApart(l) && IsScan(trips, ids) && |ids| <= INT_MAX
    ensures var rows := Filter(Entries(trips, ids), MatchingConsumption(f));
            EveryListComplete(l, CONSUMPTION, ConsumptionCandidates(f), Entries(trips, ids), ConsumptionColumn, rows)
            <==> DistinctStarts(rows, Start)
  {
    var table := Entries(trips, ids);
    EntriesAreDistinct(trips, ids);
    ConsumptionMeans(l, f, table);
    ListExactly(l, CONSUMPTION, ConsumptionCandidates(f), table, ConsumptionColumn, MatchingConsumption(f), Start);
  }
}
