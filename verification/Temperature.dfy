/** Consumption against temperature: trips that moved, put into five bands of mean temperature. */
module Temperature {
  import opened Rows
  import opened Aggregates
  import opened Breakdowns

  const DAY_BACK: int := 86_400_000_000

  /** The sum of the two temperatures in tenths of a degree is 20 times their mean in degrees. */
  function Heat(): Trip -> int { (t: Trip) => t.highest + t.lowest }

  function Band(heat: int): (b: nat)
    ensures b < 5
  {
    if heat < 0 then 0 else if heat < 200 then 1 else if heat < 400 then 2 else if heat < 600 then 3 else 4
  }

  function Label(band: nat): string
    requires band < 5
  {
    match band case 0 => "<0" case 1 => "0-10" case 2 => "10-20" case 3 => "20-30" case 4 => ">30"
  }

  function LabelOf(): Trip -> string { (t: Trip) => Label(Band(Heat()(t))) }

  function Moving(p: Trip -> bool): Trip -> bool { (t: Trip) => p(t) && t.endMileage - t.beginMileage > 0 }

  /** Charges of the trip's vehicle from a day before its start to its end. */
  function Nearby(t: Trip): Charge -> bool {
    (c: Charge) => c.vehicleId == t.vehicleId && t.start - DAY_BACK <= c.startTime <= t.end
  }

  function Energy(charges: seq<Charge>): Trip -> int { (t: Trip) => Sum(charges, Nearby(t), Kwh()) }

  /** MIN(f) over the rows where p holds. */
  function Min<R>(rows: seq<R>, p: R -> bool, f: R -> int): int
    requires Matches(rows, p)
  {
    var rest := rows[1..];
    if !p(rows[0]) then Carry(rows, p); Min(rest, p, f)
    else if !Matches(rest, p) then f(rows[0])
    else if f(rows[0]) <= Min(rest, p, f) then f(rows[0]) else Min(rest, p, f)
  }

  lemma Carry<R>(rows: seq<R>, p: R -> bool)
    requires Matches(rows, p) && !p(rows[0])
    ensures Matches(rows[1..], p)
  {
  }

  lemma {:induction false} MinIsAttained<R>(rows: seq<R>, p: R -> bool, f: R -> int) returns (i: nat)
    requires Matches(rows, p)
    ensures i < |rows| && p(rows[i]) && f(rows[i]) == Min(rows, p, f)
    ensures forall j :: 0 <= j < |rows| && p(rows[j]) ==> Min(rows, p, f) <= f(rows[j])
  {
    var rest := rows[1..];
    if Matches(rest, p) {
      i := MinIsAttained(rest, p, f);
      i := if p(rows[0]) && f(rows[0]) <= Min(rest, p, f) then 0 else i + 1;
      assert forall j :: 0 < j < |rows| ==> rows[j] == rest[j - 1];
    } else {
      i := 0;
      assert p(rows[0]) by { if !p(rows[0]) { Carry(rows, p); } }
      assert forall j :: 0 < j < |rows| ==> rows[j] == rest[j - 1] && !p(rest[j - 1]);
    }
  }

  /** A result row: label, COUNT(*), total distance, total energy in hundredths of a kWh. */
  datatype Group = Group(name: string, samples: int, km: int, kwh: int)

  function Labels(result: seq<Group>): (labels: seq<string>)
    ensures |labels| == |result| && forall i :: 0 <= i < |labels| ==> labels[i] == result[i].name
  {
    if result == [] then [] else [result[0].name] + Labels(result[1..])
  }

  function InGroup(p: Trip -> bool, name: string): Trip -> bool { KeyIs(Moving(p), LabelOf(), name) }

  /** The database's answer: groups by label, ordered by their lowest temperature. */
  predicate IsAnswer(trips: seq<Trip>, charges: seq<Charge>, p: Trip -> bool, result: seq<Group>) {
    && IsGrouping(trips, Moving(p), LabelOf(), Labels(result))
    && (forall i :: 0 <= i < |result| ==>
          && result[i].samples == Count(trips, InGroup(p, result[i].name))
          && result[i].km == Sum(trips, InGroup(p, result[i].name), Km())
          && result[i].kwh == Sum(trips, InGroup(p, result[i].name), Energy(charges)))
    && (forall i :: 0 <= i < |result| ==> Matches(trips, InGroup(p, Labels(result)[i])))
    && (forall i, j :: 0 <= i < j < |result| ==>
          Min(trips, InGroup(p, Labels(result)[i]), Heat()) <= Min(trips, InGroup(p, Labels(result)[j]), Heat()))
  }

  function Samples(result: seq<Group>): int { if result == [] then 0 else Samples(result[1..]) + result[0].samples }
  function TotalKm(result: seq<Group>): int { if result == [] then 0 else TotalKm(result[1..]) + result[0].km }
  function TotalKwh(result: seq<Group>): int { if result == [] then 0 else TotalKwh(result[1..]) + result[0].kwh }

  lemma {:induction false} TotalsAreSumsOfGroups(trips: seq<Trip>, charges: seq<Charge>, p: Trip -> bool,
                                                 result: seq<Group>)
    requires forall i :: 0 <= i < |result| ==>
               && result[i].samples == Count(trips, InGroup(p, result[i].name))
               && result[i].km == Sum(trips, InGroup(p, result[i].name), Km())
               && result[i].kwh == Sum(trips, InGroup(p, result[i].name), Energy(charges))
    ensures Samples(result) == SumOfGroups(trips, Moving(p), LabelOf(), One(), Labels(result))
    ensures TotalKm(result) == SumOfGroups(trips, Moving(p), LabelOf(), Km(), Labels(result))
    ensures TotalKwh(result) == SumOfGroups(trips, Moving(p), LabelOf(), Energy(charges), Labels(result))
  {
    if result != [] {
      TotalsAreSumsOfGroups(trips, charges, p, result[1..]);
      assert Labels(result)[1..] == Labels(result[1..]);
    }
  }

  /** The buckets partition the trips that moved: samples, distance and energy add up to those of all of them. */
  lemma BucketsPartition(trips: seq<Trip>, charges: seq<Charge>, p: Trip -> bool, result: seq<Group>)
    requires IsAnswer(trips, charges, p, result)
    ensures Samples(result) == Count(trips, Moving(p))
    ensures TotalKm(result) == Sum(trips, Moving(p), Km())
    ensures TotalKwh(result) == Sum(trips, Moving(p), Energy(charges))
    ensures forall t :: t in trips && Moving(p)(t) ==>
              exists b: nat :: b < |result| && InGroup(p, result[b].name)(t)
    ensures forall b: nat, b': nat, t :: b < b' < |result| && InGroup(p, result[b].name)(t) ==>
              !InGroup(p, result[b'].name)(t)
  {
    TotalsAreSumsOfGroups(trips, charges, p, result);
    GroupsPartition(trips, Moving(p), LabelOf(), One(), Labels(result));
    GroupsPartition(trips, Moving(p), LabelOf(), Km(), Labels(result));
    GroupsPartition(trips, Moving(p), LabelOf(), Energy(charges), Labels(result));
  }

  /** A label names one band, so grouping by label is grouping by band. */
  lemma LabelsAreDistinct(a: nat, b: nat)
    requires a < 5 && b < 5 && Label(a) == Label(b)
    ensures a == b
  {
  }

  lemma BandsAreOrdered(heat: int, heat': int)
    requires heat <= heat'
    ensures Band(heat) <= Band(heat')
  {
  }

  /** A trip in the first of two groups and one in the second: their bands are in order. */
  lemma TripsInOrder(p: Trip -> bool, t: Trip, u: Trip, name: string, name': string)
    requires InGroup(p, name)(t) && InGroup(p, name')(u) && name != name' && Heat()(t) <= Heat()(u)
    ensures Band(Heat()(t)) < Band(Heat()(u)) && name == Label(Band(Heat()(t))) && name' == Label(Band(Heat()(u)))
  {
    BandsAreOrdered(Heat()(t), Heat()(u));
  }

  /** Ordering the groups by their lowest temperature emits the labels in band order, whatever the data. */
  lemma BucketsAscend(trips: seq<Trip>, charges: seq<Charge>, p: Trip -> bool, result: seq<Group>, i: nat, j: nat)
    requires IsAnswer(trips, charges, p, result) && i < j < |result|
    ensures exists a: nat, b: nat :: a < b < 5 && result[i].name == Label(a) && result[j].name == Label(b)
  {
    var name, name' := Labels(result)[i], Labels(result)[j];
    var x := MinIsAttained(trips, InGroup(p, name), Heat());
    var y := MinIsAttained(trips, InGroup(p, name'), Heat());
    TripsInOrder(p, trips[x], trips[y], name, name');
  }

  datatype Bucket = Bucket(name: string, samples: int, kwhPer100Km: real)

  /** The loop over the result rows; with every group's distance positive its guard never fires. */
  method EmitBuckets(result: seq<Group>) returns (resp: seq<Bucket>)
    ensures |resp| == |result|
    ensures forall i :: 0 <= i < |resp| ==>
              && resp[i].name == result[i].name && resp[i].samples == result[i].samples
              && (result[i].km > 0 ==> resp[i].kwhPer100Km * result[i].km as real == result[i].kwh as real)
              && (result[i].km <= 0 ==> resp[i].kwhPer100Km == 0.0)
  {
    resp := [];
    for i := 0 to |result|
      invariant |resp| == i
      invariant forall j :: 0 <= j < i ==>
                  && resp[j].name == result[j].name && resp[j].samples == result[j].samples
                  && (result[j].km > 0 ==> resp[j].kwhPer100Km * result[j].km as real == result[j].kwh as real)
                  && (result[j].km <= 0 ==> resp[j].kwhPer100Km == 0.0)
    {
      var row := result[i];
      var rate := 0.0;
      if row.km > 0 {
        rate := row.kwh as real / 100.0 / row.km as real * 100.0;
        RateTimesKm(row.kwh as real, row.km as real);
      }
      resp := resp + [Bucket(row.name, row.samples, rate)];
    }
  }

  lemma RateTimesKm(kwh: real, km: real)
    requires km > 0.0
    ensures kwh / 100.0 / km * 100.0 * km == kwh
  {
  }

  lemma {:induction false} PositiveTerms<R>(rows: seq<R>, p: R -> bool, f: R -> int)
    requires forall i :: 0 <= i < |rows| && p(rows[i]) ==> f(rows[i]) > 0
    ensures Sum(rows, p, f) >= 0 && (Matches(rows, p) ==> Sum(rows, p, f) > 0)
  {
    if rows != [] {
      PositiveTerms(rows[1..], p, f);
      if Matches(rows, p) && !p(rows[0]) { Carry(rows, p); }
    }
  }

  /** Every bucket has a positive count and a positive distance. */
  lemma BucketsArePositive(trips: seq<Trip>, charges: seq<Charge>, p: Trip -> bool, result: seq<Group>, i: nat)
    requires IsAnswer(trips, charges, p, result) && i < |result|
    ensures result[i].samples > 0 && result[i].km > 0
  {
    PositiveTerms(trips, InGroup(p, Labels(result)[i]), Km());
    CountIsPositive(trips, InGroup(p, Labels(result)[i]));
  }

  // ---------------------------------------------------------------- the answer in numbers

  /** The temperatures of a label: bounds on the sum of highest and lowest, in tenths of a degree. */
  predicate InBand(name: string, highest: int, lowest: int) {
    || (name == "<0" && highest + lowest < 0)
    || (name == "0-10" && 0 <= highest + lowest < 200)
    || (name == "10-20" && 200 <= highest + lowest < 400)
    || (name == "20-30" && 400 <= highest + lowest < 600)
    || (name == ">30" && 600 <= highest + lowest)
  }

  /** A trip of the request that moved and whose mean temperature is in the band of the label. */
  function Sampled(v: string, w: Window, name: string): Trip -> bool {
    (t: Trip) =>
      Covered(v, w, t.vehicleId, t.start) && t.endMileage > t.beginMileage && InBand(name, t.highest, t.lowest)
  }

  /** Charges of the same vehicle that start from 24 hours before the trip starts until it ends. */
  function Before(t: Trip): Charge -> bool {
    (c: Charge) => c.vehicleId == t.vehicleId && c.startTime >= t.start - 86_400_000_000 && c.startTime <= t.end
  }

  /** What was charged around the covered trips. */
  function Used(trips: seq<Trip>, charges: seq<Charge>, covers: Trip -> bool): int {
    if trips == [] then 0
    else (if covers(trips[0]) then Charged(charges, Before(trips[0])) else 0) + Used(trips[1..], charges, covers)
  }

  function Number(trips: seq<Trip>, covers: Trip -> bool): int {
    if trips == [] then 0 else (if covers(trips[0]) then 1 else 0) + Number(trips[1..], covers)
  }

  /** The label of a trip, in numbers. */
  lemma LabelExactly(t: Trip, name: string)
    ensures LabelOf()(t) == name <==> InBand(name, t.highest, t.lowest)
  {
    var heat := Heat()(t);
    assert heat == t.highest + t.lowest;
    if InBand(name, t.highest, t.lowest) {
      assert name == Label(Band(heat));
    }
    assert InBand(Label(Band(heat)), t.highest, t.lowest);
  }

  lemma SampledExactly(v: string, w: Window, name: string, t: Trip)
    ensures InGroup(TripsOf(v, w), name)(t) <==> Sampled(v, w, name)(t)
  {
    FiltersExactly(v, w);
    LabelExactly(t, name);
  }

  lemma EnergyExactly(charges: seq<Charge>, t: Trip)
    ensures Energy(charges)(t) == Charged(charges, Before(t))
  {
    ChargeTotals(charges, Nearby(t), Before(t));
  }

  lemma {:induction false} SampleTotals(trips: seq<Trip>, charges: seq<Charge>, p: Trip -> bool, covers: Trip -> bool)
    requires forall t :: p(t) <==> covers(t)
    ensures Count(trips, p) == Number(trips, covers)
    ensures Sum(trips, p, Energy(charges)) == Used(trips, charges, covers)
  {
    if trips != [] {
      SampleTotals(trips[1..], charges, p, covers);
      EnergyExactly(charges, trips[0]);
    }
  }

  /** Every result row has one of the five labels, and counts, drives and uses what the trips of its band do. */
  lemma BucketExactly(trips: seq<Trip>, charges: seq<Charge>, v: string, w: Window, result: seq<Group>, i: nat)
    requires IsAnswer(trips, charges, TripsOf(v, w), result) && i < |result|
    ensures var name := result[i].name;
            && name in {"<0", "0-10", "10-20", "20-30", ">30"}
            && result[i].samples == Number(trips, Sampled(v, w, name)) > 0
            && result[i].km == Driven(trips, Sampled(v, w, name))
            && result[i].kwh == Used(trips, charges, Sampled(v, w, name))
  {
    var name, p := Labels(result)[i], TripsOf(v, w);
    forall t
      ensures InGroup(p, name)(t) <==> Sampled(v, w, name)(t)
    {
      SampledExactly(v, w, name, t);
    }
    SampleTotals(trips, charges, InGroup(p, name), Sampled(v, w, name));
    TripTotals(trips, InGroup(p, name), Sampled(v, w, name));
    BucketsArePositive(trips, charges, p, result, i);
    var j :| 0 <= j < |trips| && InGroup(p, name)(trips[j]);
    assert InBand(name, trips[j].highest, trips[j].lowest);
  }

  /** And every trip of the request that moved is counted in the row of its band. */
  lemma EverySampleHasABucket(trips: seq<Trip>, charges: seq<Charge>, v: string, w: Window, result: seq<Group>, j: nat)
    requires IsAnswer(trips, charges, TripsOf(v, w), result) && j < |trips|
    requires Covered(v, w, trips[j].vehicleId, trips[j].start) && trips[j].endMileage > trips[j].beginMileage
    ensures exists i :: 0 <= i < |result| && InBand(result[i].name, trips[j].highest, trips[j].lowest)
  {
    FiltersExactly(v, w);
    var name := LabelOf()(trips[j]);
    assert name in Labels(result);
    var i :| 0 <= i < |result| && Labels(result)[i] == name;
    LabelExactly(trips[j], result[i].name);
  }
}
