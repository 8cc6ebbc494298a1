/** The vehicle cost summary and the two cost breakdowns, which aggregate the same charging rows three ways. */
module Breakdowns {
  import opened Wrappers
  import opened Rows
  import opened Aggregates

  // ---------------------------------------------------------------- the filter they share

  /** An inclusive time window, open on the sides that are not given. */
  datatype Window = Window(from: Option<int>, to: Option<int>)

  predicate Inside(w: Window, t: int) { (w.from.Some? ==> t >= w.from.value) && (w.to.Some? ==> t <= w.to.value) }

  function ChargesOf(v: string, w: Window): Charge -> bool {
    (c: Charge) => (v == "" || c.vehicleId == v) && Inside(w, c.startTime)
  }

  function TripsOf(v: string, w: Window): Trip -> bool {
    (t: Trip) => (v == "" || t.vehicleId == v) && Inside(w, t.start)
  }

  // ---------------------------------------------------------------- reference totals, field by field

  /** A row of the vehicle, or of any when none is named, that starts within the limits that are given. */
  predicate Covered(v: string, w: Window, vehicleId: string, start: int) {
    && v in {"", vehicleId}
    && (w.from == None || w.from.value <= start) && (w.to == None || start <= w.to.value)
  }

  function Spent(charges: seq<Charge>, covers: Charge -> bool): int {
    if charges == [] then 0 else (if covers(charges[0]) then charges[0].cost else 0) + Spent(charges[1..], covers)
  }

  function Charged(charges: seq<Charge>, covers: Charge -> bool): int {
    if charges == [] then 0 else (if covers(charges[0]) then charges[0].kwh else 0) + Charged(charges[1..], covers)
  }

  function Driven(trips: seq<Trip>, covers: Trip -> bool): int {
    if trips == [] then 0
    else (if covers(trips[0]) then trips[0].endMileage - trips[0].beginMileage else 0) + Driven(trips[1..], covers)
  }

  function RangeLost(trips: seq<Trip>, covers: Trip -> bool): int {
    if trips == [] then 0
    else (if covers(trips[0]) then trips[0].beginRange - trips[0].endRange else 0) + RangeLost(trips[1..], covers)
  }

  lemma {:induction false} ChargeTotals(charges: seq<Charge>, p: Charge -> bool, covers: Charge -> bool)
    requires forall c :: p(c) <==> covers(c)
    ensures Sum(charges, p, Cost()) == Spent(charges, covers) && Sum(charges, p, Kwh()) == Charged(charges, covers)
  {
    if charges != [] { ChargeTotals(charges[1..], p, covers); }
  }

  lemma {:induction false} TripTotals(trips: seq<Trip>, p: Trip -> bool, covers: Trip -> bool)
    requires forall t :: p(t) <==> covers(t)
    ensures Sum(trips, p, Km()) == Driven(trips, covers) && Sum(trips, p, RangeKm()) == RangeLost(trips, covers)
  {
    if trips != [] { TripTotals(trips[1..], p, covers); }
  }

  lemma FiltersExactly(v: string, w: Window)
    ensures forall c :: ChargesOf(v, w)(c) <==> Covered(v, w, c.vehicleId, c.startTime)
    ensures forall t :: TripsOf(v, w)(t) <==> Covered(v, w, t.vehicleId, t.start)
  {
  }

  /** An average, guarded as the handlers guard it: times its base it gives the amount back. */
  function Ratio(a: int, b: int): (r: real)
    ensures b > 0 ==> r * b as real == a as real
    ensures b <= 0 ==> r == 0.0
  {
    if b > 0 then a as real / b as real else 0.0
  }

  // ---------------------------------------------------------------- the summary

  datatype Summary = Summary(vehicleId: string, cost: int, kwh: int, perKwh: real, perKm: real)

  /** The summary's aggregates compare the vehicle without the escape for an empty one that its EXISTS gate has. */
  function SummaryCharges(v: string, w: Window): Charge -> bool {
    (c: Charge) => c.vehicleId == v && Inside(w, c.startTime)
  }

  function SummaryTrips(v: string, w: Window): Trip -> bool { (t: Trip) => t.vehicleId == v && Inside(w, t.start) }

  function CostSummary(charges: seq<Charge>, trips: seq<Trip>, v: string, w: Window): Result<Summary> {
    if v == "" then Failure(InvalidArgument)
    else if !Matches(charges, ChargesOf(v, w)) then Failure(InvalidArgument)
    else
      var cost, kwh := Sum(charges, SummaryCharges(v, w), Cost()), Sum(charges, SummaryCharges(v, w), Kwh());
      var km := Sum(trips, SummaryTrips(v, w), Km());
      Success(Summary(v, cost, kwh, Ratio(cost, kwh), Ratio(cost, km) / 100.0))
  }

  function CoversCharge(v: string, w: Window): Charge -> bool {
    (c: Charge) => Covered(v, w, c.vehicleId, c.startTime)
  }

  function CoversTrip(v: string, w: Window): Trip -> bool { (t: Trip) => Covered(v, w, t.vehicleId, t.start) }

  lemma AveragesAre(s: Summary, v: string, cost: int, kwh: int, km: int)
    requires s == Summary(v, cost, kwh, Ratio(cost, kwh), Ratio(cost, km) / 100.0)
    ensures IsSummary(s, v, cost, kwh, km)
  {
    var r, d := Ratio(cost, km), km as real;
    assert r / 100.0 * d * 100.0 == r * d;
  }

  lemma GateIs(charges: seq<Charge>, v: string, w: Window)
    ensures Matches(charges, ChargesOf(v, w)) <==> exists i :: 0 <= i < |charges| && CoversCharge(v, w)(charges[i])
  {
    FiltersExactly(v, w);
  }

  /** The cost per kWh (cents by hundredths) and per km in yuan, each 0 without a base. */
  predicate IsSummary(s: Summary, v: string, cost: int, kwh: int, km: int) {
    && s.vehicleId == v && s.cost == cost && s.kwh == kwh
    && (if kwh > 0 then s.perKwh * kwh as real == cost as real else s.perKwh == 0.0)
    && (if km > 0 then s.perKm * km as real * 100.0 == cost as real else s.perKm == 0.0)
  }

  lemma SummaryTotals(charges: seq<Charge>, trips: seq<Trip>, v: string, w: Window, cost: int, kwh: int, km: int)
    requires CostSummary(charges, trips, v, w).Success?
    requires cost == Spent(charges, CoversCharge(v, w)) && kwh == Charged(charges, CoversCharge(v, w))
    requires km == Driven(trips, CoversTrip(v, w))
    ensures CostSummary(charges, trips, v, w).value
         == Summary(v, cost, kwh, Ratio(cost, kwh), Ratio(cost, km) / 100.0)
  {
    ChargeTotals(charges, SummaryCharges(v, w), CoversCharge(v, w));
    TripTotals(trips, SummaryTrips(v, w), CoversTrip(v, w));
  }

  /** The summary answers exactly when a vehicle is named and one of its charging rows is in the window. */
  lemma SummaryExactly(charges: seq<Charge>, trips: seq<Trip>, v: string, w: Window)
    ensures CostSummary(charges, trips, v, w).Success?
       <==> v != "" && exists i :: 0 <= i < |charges| && CoversCharge(v, w)(charges[i])
    ensures CostSummary(charges, trips, v, w).Success? || CostSummary(charges, trips, v, w).error == InvalidArgument
    ensures CostSummary(charges, trips, v, w).Success? ==>
              IsSummary(CostSummary(charges, trips, v, w).value, v, Spent(charges, CoversCharge(v, w)),
                        Charged(charges, CoversCharge(v, w)), Driven(trips, CoversTrip(v, w)))
  {
    GateIs(charges, v, w);
    var r := CostSummary(charges, trips, v, w);
    if r.Success? {
      var cost, kwh := Spent(charges, CoversCharge(v, w)), Charged(charges, CoversCharge(v, w));
      var km := Driven(trips, CoversTrip(v, w));
      SummaryTotals(charges, trips, v, w, cost, kwh, km);
      AveragesAre(r.value, v, cost, kwh, km);
    }
  }

  // ---------------------------------------------------------------- rows of a GROUP BY

  datatype GroupRow<+K> = GroupRow(key: K, cost: int, kwh: int)

  function Keys<K>(result: seq<GroupRow<K>>): (keys: seq<K>)
    ensures |keys| == |result| && forall i :: 0 <= i < |keys| ==> keys[i] == result[i].key
  {
    if result == [] then [] else [result[0].key] + Keys(result[1..])
  }

  /** The database's answer to SUM(Cost), SUM(KwhCharged) GROUP BY k, in any order. */
  predicate IsBreakdown<K(==)>(charges: seq<Charge>, p: Charge -> bool, k: Charge -> K, result: seq<GroupRow<K>>) {
    && IsGrouping(charges, p, k, Keys(result))
    && forall i :: 0 <= i < |result| ==>
         && result[i].cost == Sum(charges, KeyIs(p, k, result[i].key), Cost())
         && result[i].kwh == Sum(charges, KeyIs(p, k, result[i].key), Kwh())
  }

  function TotalCost<K>(result: seq<GroupRow<K>>): int {
    if result == [] then 0 else TotalCost(result[1..]) + result[0].cost
  }

  function TotalKwh<K>(result: seq<GroupRow<K>>): int {
    if result == [] then 0 else TotalKwh(result[1..]) + result[0].kwh
  }

  lemma {:induction false} TotalsAreSumsOfGroups<K>(charges: seq<Charge>, p: Charge -> bool, k: Charge -> K,
                                                    result: seq<GroupRow<K>>)
    requires forall i :: 0 <= i < |result| ==>
               && result[i].cost == Sum(charges, KeyIs(p, k, result[i].key), Cost())
               && result[i].kwh == Sum(charges, KeyIs(p, k, result[i].key), Kwh())
    ensures TotalCost(result) == SumOfGroups(charges, p, k, Cost(), Keys(result))
    ensures TotalKwh(result) == SumOfGroups(charges, p, k, Kwh(), Keys(result))
  {
    if result != [] {
      TotalsAreSumsOfGroups(charges, p, k, result[1..]);
      assert Keys(result)[1..] == Keys(result[1..]);
    }
  }

  /** A breakdown loses and invents nothing, whatever it groups by. */
  lemma BreakdownIsComplete<K>(charges: seq<Charge>, p: Charge -> bool, k: Charge -> K, result: seq<GroupRow<K>>)
    requires IsBreakdown(charges, p, k, result)
    ensures TotalCost(result) == Sum(charges, p, Cost()) && TotalKwh(result) == Sum(charges, p, Kwh())
  {
    TotalsAreSumsOfGroups(charges, p, k, result);
    GroupsPartition(charges, p, k, Cost(), Keys(result));
    GroupsPartition(charges, p, k, Kwh(), Keys(result));
  }

  /** A GROUP BY lists each key once, and exactly the keys of the rows. */
  lemma KeysExactly<K>(charges: seq<Charge>, p: Charge -> bool, k: Charge -> K, keys: seq<K>)
    ensures IsGrouping(charges, p, k, keys)
       <==> Distinct(keys) && forall key :: key in keys <==> Matches(charges, KeyIs(p, k, key))
  {
    if IsGrouping(charges, p, k, keys) {
      forall key ensures key in keys <==> Matches(charges, KeyIs(p, k, key)) {
        SameKeys(charges, p, k, keys, keys, key);
      }
    }
    if forall key :: key in keys <==> Matches(charges, KeyIs(p, k, key)) {
      forall i | 0 <= i < |charges| && p(charges[i]) ensures k(charges[i]) in keys {
        assert KeyIs(p, k, k(charges[i]))(charges[i]);
      }
    }
  }

  /** One row for each key that a charge is covered under, with what was spent and charged under it. */
  ghost predicate IsTotals<K(!new)>(charges: seq<Charge>, covers: K -> Charge -> bool, result: seq<GroupRow<K>>) {
    && (forall i, j :: 0 <= i < j < |result| ==> result[i].key != result[j].key)
    && (forall key :: key in Keys(result) <==> exists i :: 0 <= i < |charges| && covers(key)(charges[i]))
    && (forall j :: 0 <= j < |result| ==>
          && result[j].cost == Spent(charges, covers(result[j].key))
          && result[j].kwh == Charged(charges, covers(result[j].key)))
  }

  lemma BreakdownExactly<K(!new)>(charges: seq<Charge>, p: Charge -> bool, k: Charge -> K, covers: K -> Charge -> bool,
                                  result: seq<GroupRow<K>>)
    requires forall key, c :: covers(key)(c) <==> p(c) && k(c) == key
    ensures IsBreakdown(charges, p, k, result) <==> IsTotals(charges, covers, result)
  {
    KeysExactly(charges, p, k, Keys(result));
    forall key
      ensures Matches(charges, KeyIs(p, k, key)) <==> exists i :: 0 <= i < |charges| && covers(key)(charges[i])
      ensures Sum(charges, KeyIs(p, k, key), Cost()) == Spent(charges, covers(key))
      ensures Sum(charges, KeyIs(p, k, key), Kwh()) == Charged(charges, covers(key))
    {
      ChargeTotals(charges, KeyIs(p, k, key), covers(key));
    }
  }

  datatype Breakdown<+K> = Breakdown(key: K, cost: int, kwh: int, perKwh: real)

  /** The loop both handlers run over the result rows. */
  method EmitBreakdowns<K>(result: seq<GroupRow<K>>) returns (resp: seq<Breakdown<K>>)
    ensures |resp| == |result|
    ensures forall i :: 0 <= i < |resp| ==>
              resp[i] == Breakdown(result[i].key, result[i].cost, result[i].kwh, Ratio(result[i].cost, result[i].kwh))
  {
    resp := [];
    for i := 0 to |result|
      invariant |resp| == i
      invariant forall j :: 0 <= j < i ==>
                  resp[j] == Breakdown(result[j].key, result[j].cost, result[j].kwh,
                                       Ratio(result[j].cost, result[j].kwh))
    {
      var row := result[i];
      var perKwh := 0.0;
      if row.kwh > 0 { perKwh := row.cost as real / row.kwh as real; }
      resp := resp + [Breakdown(row.key, row.cost, row.kwh, perKwh)];
    }
  }

  // ---------------------------------------------------------------- by charger type

  function ByCharger(): Charge -> Charger { (c: Charge) => c.chargerType }

  /** The position in the enum type, by which ORDER BY sorts. */
  function Rank(kind: Charger): nat { match kind case Fast => 0 case Slow => 1 }

  predicate IsChargerAnswer(charges: seq<Charge>, v: string, w: Window, result: seq<GroupRow<Charger>>) {
    && IsBreakdown(charges, ChargesOf(v, w), ByCharger(), result)
    && forall i, j :: 0 <= i < j < |result| ==> Rank(result[i].key) < Rank(result[j].key)
  }

  /** The covered charges of one kind of charger. */
  function CoversType(v: string, w: Window): Charger -> Charge -> bool {
    (kind: Charger) => (c: Charge) => Covered(v, w, c.vehicleId, c.startTime) && c.chargerType == kind
  }

  lemma ChargerTotalsExactly(charges: seq<Charge>, v: string, w: Window, result: seq<GroupRow<Charger>>)
    ensures IsBreakdown(charges, ChargesOf(v, w), ByCharger(), result) <==> IsTotals(charges, CoversType(v, w), result)
  {
    FiltersExactly(v, w);
    BreakdownExactly(charges, ChargesOf(v, w), ByCharger(), CoversType(v, w), result);
  }

  lemma EnumOrder(result: seq<GroupRow<Charger>>)
    ensures (forall i, j :: 0 <= i < j < |result| ==> Rank(result[i].key) < Rank(result[j].key))
       <==> |result| < 2 || (|result| == 2 && result[0].key == Fast && result[1].key == Slow)
  {
    forall i | 0 <= i < |result|
      ensures Rank(result[i].key) == if result[i].key == Fast then 0 else 1
    {
      var kind: Charger := result[i].key;
      match kind case Fast => case Slow =>
    }
    if |result| > 2 { assert Rank(result[0].key) >= Rank(result[1].key) || Rank(result[1].key) >= Rank(result[2].key); }
  }

  /** One row, with what was spent and charged, for each kind of charger that was used; fast before slow. */
  lemma ChargerAnswerExactly(charges: seq<Charge>, v: string, w: Window, result: seq<GroupRow<Charger>>)
    ensures IsChargerAnswer(charges, v, w, result)
       <==> && IsTotals(charges, CoversType(v, w), result)
            && (|result| < 2 || (|result| == 2 && result[0].key == Fast && result[1].key == Slow))
  {
    ChargerTotalsExactly(charges, v, w, result);
    EnumOrder(result);
  }

  // ---------------------------------------------------------------- by source category

  /** The category table: names by primary key. */
  type Categories = map<Uuid, string>

  function Joined(p: Charge -> bool, categories: Categories): Charge -> bool {
    (c: Charge) => p(c) && c.sourceCategoryId in categories
  }

  function Dangling(p: Charge -> bool, categories: Categories): Charge -> bool {
    (c: Charge) => p(c) && c.sourceCategoryId !in categories
  }

  function ByCategory(categories: Categories): Charge -> (Uuid, string) {
    (c: Charge) => (c.sourceCategoryId, if c.sourceCategoryId in categories then categories[c.sourceCategoryId] else "")
  }

  /** An inner join with the category table, most expensive first; ties in any order. */
  predicate IsCategoryAnswer(charges: seq<Charge>, categories: Categories, v: string, w: Window,
                             result: seq<GroupRow<(Uuid, string)>>) {
    && IsBreakdown(charges, Joined(ChargesOf(v, w), categories), ByCategory(categories), result)
    && forall i, j :: 0 <= i < j < |result| ==> result[i].cost >= result[j].cost
  }

  /** The covered charges of one category, under the name it has in the table. */
  function CoversCategory(categories: Categories, v: string, w: Window): ((Uuid, string)) -> Charge -> bool {
    (key: (Uuid, string)) => (c: Charge) =>
      && Covered(v, w, c.vehicleId, c.startTime) && c.sourceCategoryId == key.0
      && key.0 in categories && categories[key.0] == key.1
  }

  /** One row, with its name, what was spent and charged, for each category of the table in use; dearest first. */
  lemma CategoryAnswerExactly(charges: seq<Charge>, categories: Categories, v: string, w: Window,
                              result: seq<GroupRow<(Uuid, string)>>)
    ensures IsCategoryAnswer(charges, categories, v, w, result)
       <==> && IsTotals(charges, CoversCategory(categories, v, w), result)
            && forall i, j :: 0 <= i < j < |result| ==> result[i].cost >= result[j].cost
  {
    FiltersExactly(v, w);
    BreakdownExactly(charges, Joined(ChargesOf(v, w), categories), ByCategory(categories),
                     CoversCategory(categories, v, w), result);
  }

  predicate ReferencesHold(charges: seq<Charge>, categories: Categories) {
    forall i :: 0 <= i < |charges| ==> charges[i].sourceCategoryId in categories
  }

  // ---------------------------------------------------------------- the three answers

  /** The summary answers exactly when the vehicle is named and a row matches, with the charger breakdown's totals. */
  lemma ChargersAgreeWithSummary(charges: seq<Charge>, trips: seq<Trip>, v: string, w: Window,
                                 chargers: seq<GroupRow<Charger>>)
    requires IsChargerAnswer(charges, v, w, chargers)
    ensures CostSummary(charges, trips, v, w).Success? <==> v != "" && chargers != []
    ensures CostSummary(charges, trips, v, w).Success? ==>
              && TotalCost(chargers) == CostSummary(charges, trips, v, w).value.cost
              && TotalKwh(chargers) == CostSummary(charges, trips, v, w).value.kwh
  {
    var p := ChargesOf(v, w);
    BreakdownIsComplete(charges, p, ByCharger(), chargers);
    if v != "" {
      SumSame(charges, p, SummaryCharges(v, w), Cost());
      SumSame(charges, p, SummaryCharges(v, w), Kwh());
    }
    if chargers != [] {
      var key := Keys(chargers)[0];
      var i :| 0 <= i < |charges| && KeyIs(p, ByCharger(), key)(charges[i]);
      assert p(charges[i]);
    }
    if Matches(charges, p) {
      var i :| 0 <= i < |charges| && p(charges[i]);
      assert ByCharger()(charges[i]) in Keys(chargers);
    }
  }

  /** What the category breakdown misses is exactly the rows the inner join drops. */
  lemma CategoriesMissDanglingRows(charges: seq<Charge>, categories: Categories, v: string, w: Window,
                                   byCategory: seq<GroupRow<(Uuid, string)>>)
    requires IsCategoryAnswer(charges, categories, v, w, byCategory)
    ensures TotalCost(byCategory) + Sum(charges, Dangling(ChargesOf(v, w), categories), Cost())
         == Sum(charges, ChargesOf(v, w), Cost())
    ensures TotalKwh(byCategory) + Sum(charges, Dangling(ChargesOf(v, w), categories), Kwh())
         == Sum(charges, ChargesOf(v, w), Kwh())
  {
    var p := ChargesOf(v, w);
    BreakdownIsComplete(charges, Joined(p, categories), ByCategory(categories), byCategory);
    SumSplit(charges, p, Joined(p, categories), Dangling(p, categories), Cost());
    SumSplit(charges, p, Joined(p, categories), Dangling(p, categories), Kwh());
  }

  /** With the foreign key in place the three answers have equal totals, for every vehicle and window. */
  lemma ThreeAnswersAgree(charges: seq<Charge>, trips: seq<Trip>, categories: Categories, v: string, w: Window,
                          chargers: seq<GroupRow<Charger>>, byCategory: seq<GroupRow<(Uuid, string)>>)
    requires IsChargerAnswer(charges, v, w, chargers) && IsCategoryAnswer(charges, categories, v, w, byCategory)
    requires ReferencesHold(charges, categories)
    ensures TotalCost(chargers) == TotalCost(byCategory) && TotalKwh(chargers) == TotalKwh(byCategory)
    ensures CostSummary(charges, trips, v, w).Success? ==>
              && CostSummary(charges, trips, v, w).value.cost == TotalCost(byCategory)
              && CostSummary(charges, trips, v, w).value.kwh == TotalKwh(byCategory)
  {
    ChargersAgreeWithSummary(charges, trips, v, w, chargers);
    BreakdownIsComplete(charges, ChargesOf(v, w), ByCharger(), chargers);
    CategoriesMissDanglingRows(charges, categories, v, w, byCategory);
    SumNone(charges, Dangling(ChargesOf(v, w), categories), Cost());
    SumNone(charges, Dangling(ChargesOf(v, w), categories), Kwh());
  }
}
