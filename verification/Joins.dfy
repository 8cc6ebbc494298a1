/** Two reports that join aggregates per vehicle: efficiency, merged in C++, and range accuracy, joined in SQL. */
module Joins {
  import opened Wrappers
  import opened Rows
  import opened Aggregates
  import opened Breakdowns

  /** One row of SUM(f) GROUP BY VehicleId. */
  datatype VehicleSum = VehicleSum(vehicleId: Uuid, total: int)

  function Vehicles(result: seq<VehicleSum>): (ids: seq<Uuid>)
    ensures |ids| == |result| && forall i :: 0 <= i < |ids| ==> ids[i] == result[i].vehicleId
  {
    if result == [] then [] else [result[0].vehicleId] + Vehicles(result[1..])
  }

  /** The database's answer to SUM(f) GROUP BY k, in any order. */
  predicate IsSums<R>(rows: seq<R>, p: R -> bool, k: R -> Uuid, f: R -> int, result: seq<VehicleSum>) {
    && IsGrouping(rows, p, k, Vehicles(result))
    && forall i :: 0 <= i < |result| ==> result[i].total == Sum(rows, KeyIs(p, k, result[i].vehicleId), f)
  }

  // ---------------------------------------------------------------- efficiency

  /** Distance in km, energy in hundredths of a kWh. */
  datatype Efficiency = Efficiency(vehicleId: Uuid, km: int, kwh: int, kmPerKwh: real, kwhPer100Km: real)

  /** The two figures of one row are inverse to each other. */
  function Rate(v: Uuid, km: int, kwh: int): (r: Efficiency)
    ensures km > 0 && kwh > 0 ==> r.kmPerKwh * r.kwhPer100Km == 100.0
  {
    var energy := kwh as real / 100.0;
    Efficiency(v, km, kwh, if kwh > 0 then km as real / energy else 0.0,
               if km > 0 then energy / km as real * 100.0 else 0.0)
  }

  /** The energy of a vehicle's first row, 0 without one. */
  function EnergyOf(kwhRows: seq<VehicleSum>, v: Uuid): int {
    if kwhRows == [] then 0 else if kwhRows[0].vehicleId == v then kwhRows[0].total else EnergyOf(kwhRows[1..], v)
  }

  /** The nested-loop left join from the distance rows. */
  function LeftJoin(kmRows: seq<VehicleSum>, kwhRows: seq<VehicleSum>): seq<Efficiency> {
    if kmRows == [] then []
    else LeftJoin(kmRows[..|kmRows| - 1], kwhRows)
         + [Rate(kmRows[|kmRows| - 1].vehicleId, kmRows[|kmRows| - 1].total,
                 EnergyOf(kwhRows, kmRows[|kmRows| - 1].vehicleId))]
  }

  lemma {:induction false} EnergyOfLast(rows: seq<VehicleSum>, last: VehicleSum, v: Uuid)
    ensures EnergyOf(rows + [last], v)
         == if v in Vehicles(rows) then EnergyOf(rows, v) else if last.vehicleId == v then last.total else 0
  {
    if rows != [] {
      EnergyOfLast(rows[1..], last, v);
      assert (rows + [last])[1..] == rows[1..] + [last];
    } else {
      assert rows + [last] == [last];
    }
  }

  /** `emplace`: the first row of a vehicle stays. */
  method EnergyByVehicle(kwhRows: seq<VehicleSum>) returns (m: map<Uuid, int>)
    ensures forall v: Uuid :: (v in m <==> v in Vehicles(kwhRows)) && (v in m ==> m[v] == EnergyOf(kwhRows, v))
  {
    m := map[];
    for i := 0 to |kwhRows|
      invariant forall v: Uuid :: v in m <==> v in Vehicles(kwhRows[..i])
      invariant forall v: Uuid :: v in m ==> m[v] == EnergyOf(kwhRows[..i], v)
    {
      var row := kwhRows[i];
      assert kwhRows[..i + 1] == kwhRows[..i] + [row];
      forall v: Uuid ensures EnergyOf(kwhRows[..i + 1], v)
                          == if v in Vehicles(kwhRows[..i]) then EnergyOf(kwhRows[..i], v)
                             else if row.vehicleId == v then row.total else 0
                     ensures v in Vehicles(kwhRows[..i + 1]) <==> v in Vehicles(kwhRows[..i]) || v == row.vehicleId {
        EnergyOfLast(kwhRows[..i], row, v);
        VehiclesLast(kwhRows[..i], row);
      }
      if row.vehicleId !in m { m := m[row.vehicleId := row.total]; }
    }
    assert kwhRows[..|kwhRows|] == kwhRows;
  }

  lemma VehiclesLast(rows: seq<VehicleSum>, last: VehicleSum)
    ensures Vehicles(rows + [last]) == Vehicles(rows) + [last.vehicleId]
  {
  }

  lemma {:induction false} NoEnergyRow(rows: seq<VehicleSum>, v: Uuid)
    requires v !in Vehicles(rows)
    ensures EnergyOf(rows, v) == 0
  {
    if rows != [] {
      assert Vehicles(rows)[0] == rows[0].vehicleId && Vehicles(rows)[1..] == Vehicles(rows[1..]);
      NoEnergyRow(rows[1..], v);
    }
  }

  /** The C++ merge: a hash map filled from one result, looked up for each row of the other. */
  method MergeEfficiencies(kmRows: seq<VehicleSum>, kwhRows: seq<VehicleSum>) returns (resp: seq<Efficiency>)
    ensures resp == LeftJoin(kmRows, kwhRows)
  {
    var kwhByVehicle := EnergyByVehicle(kwhRows);
    resp := [];
    for i := 0 to |kmRows|
      invariant resp == LeftJoin(kmRows[..i], kwhRows)
    {
      var v, km := kmRows[i].vehicleId, kmRows[i].total;
      var kwh := if v in kwhByVehicle then kwhByVehicle[v] else 0;
      assert kwh == EnergyOf(kwhRows, v) by {
        if v !in kwhByVehicle { NoEnergyRow(kwhRows, v); }
      }
      assert kmRows[..i + 1][..i] == kmRows[..i];
      resp := resp + [Rate(v, km, kwh)];
    }
    assert kmRows[..|kmRows|] == kmRows;
  }

  lemma {:induction false} LeftJoinAt(kmRows: seq<VehicleSum>, kwhRows: seq<VehicleSum>, i: nat)
    requires i < |kmRows|
    ensures |LeftJoin(kmRows, kwhRows)| == |kmRows|
    ensures LeftJoin(kmRows, kwhRows)[i]
         == Rate(kmRows[i].vehicleId, kmRows[i].total, EnergyOf(kwhRows, kmRows[i].vehicleId))
    decreases |kmRows|
  {
    var before := kmRows[..|kmRows| - 1];
    if i < |before| { LeftJoinAt(before, kwhRows, i); } else if before != [] { LeftJoinAt(before, kwhRows, 0); }
  }

  lemma {:induction false} EnergyOfRow(rows: seq<VehicleSum>, i: nat)
    requires i < |rows| && Distinct(Vehicles(rows))
    ensures EnergyOf(rows, rows[i].vehicleId) == rows[i].total
  {
    if i > 0 {
      var ids := Vehicles(rows);
      assert ids[0] != ids[i];
      assert ids[1..] == Vehicles(rows[1..]);
      EnergyOfRow(rows[1..], i - 1);
    }
  }

  lemma EnergyIsSum<R>(rows: seq<R>, p: R -> bool, k: R -> Uuid, f: R -> int, result: seq<VehicleSum>, v: Uuid)
    requires IsSums(rows, p, k, f, result)
    ensures EnergyOf(result, v) == Sum(rows, KeyIs(p, k, v), f)
  {
    if v in Vehicles(result) {
      var i :| 0 <= i < |result| && Vehicles(result)[i] == v;
      EnergyOfRow(result, i);
    } else {
      NoEnergyRow(result, v);
      SumNone(rows, KeyIs(p, k, v), f);
    }
  }

  /**
   The merged answer lists each vehicle with trips in the window once, with its whole distance and
   its whole energy under the same filter, whatever order either result came in.
   */
  lemma EfficiencyMeaning(trips: seq<Trip>, charges: seq<Charge>, p: Trip -> bool, q: Charge -> bool,
                          kmRows: seq<VehicleSum>, kwhRows: seq<VehicleSum>, i: nat)
    requires IsSums(trips, p, TripVehicle(), Km(), kmRows) && IsSums(charges, q, ChargeVehicle(), Kwh(), kwhRows)
    requires i < |kmRows|
    ensures |LeftJoin(kmRows, kwhRows)| == |kmRows|
    ensures var v := Vehicles(kmRows)[i];
            LeftJoin(kmRows, kwhRows)[i]
            == Rate(v, Sum(trips, KeyIs(p, TripVehicle(), v), Km()), Sum(charges, KeyIs(q, ChargeVehicle(), v), Kwh()))
  {
    LeftJoinAt(kmRows, kwhRows, i);
    EnergyIsSum(charges, q, ChargeVehicle(), Kwh(), kwhRows, kmRows[i].vehicleId);
  }

  /** The covered trips of one vehicle, and its covered charges. */
  function TripsBy(v: string, w: Window, vehicle: Uuid): Trip -> bool {
    (t: Trip) => Covered(v, w, t.vehicleId, t.start) && t.vehicleId == vehicle
  }

  function ChargesBy(v: string, w: Window, vehicle: Uuid): Charge -> bool {
    (c: Charge) => Covered(v, w, c.vehicleId, c.startTime) && c.vehicleId == vehicle
  }

  /** Distance in km and energy in hundredths of a kWh, with km per kWh and kWh per 100 km, each 0 without a base. */
  predicate IsEfficiency(e: Efficiency, vehicle: Uuid, km: int, kwh: int) {
    && e.vehicleId == vehicle && e.km == km && e.kwh == kwh
    && (if kwh > 0 then e.kmPerKwh * kwh as real == km as real * 100.0 else e.kmPerKwh == 0.0)
    && (if km > 0 then e.kwhPer100Km * km as real == kwh as real else e.kwhPer100Km == 0.0)
  }

  lemma RateIs(vehicle: Uuid, km: int, kwh: int)
    ensures IsEfficiency(Rate(vehicle, km, kwh), vehicle, km, kwh)
  {
    var d, e := km as real, kwh as real;
    if kwh > 0 { assert d / (e / 100.0) * e == d * 100.0; }
    if km > 0 { assert e / 100.0 / d * 100.0 * d == e; }
  }

  /**
   The efficiency answer for a request: each vehicle with a covered trip, with what it drove and what
   it charged in the window.
   */
  lemma EfficiencyExactly(trips: seq<Trip>, charges: seq<Charge>, v: string, w: Window, kmRows: seq<VehicleSum>,
                          kwhRows: seq<VehicleSum>, i: nat)
    requires IsSums(trips, TripsOf(v, w), TripVehicle(), Km(), kmRows)
    requires IsSums(charges, ChargesOf(v, w), ChargeVehicle(), Kwh(), kwhRows)
    requires i < |kmRows|
    ensures |LeftJoin(kmRows, kwhRows)| == |kmRows|
    ensures var vehicle := kmRows[i].vehicleId;
            && (exists j :: 0 <= j < |trips| && TripsBy(v, w, vehicle)(trips[j]))
            && IsEfficiency(LeftJoin(kmRows, kwhRows)[i], vehicle, Driven(trips, TripsBy(v, w, vehicle)),
                            Charged(charges, ChargesBy(v, w, vehicle)))
  {
    var vehicle := Vehicles(kmRows)[i];
    FiltersExactly(v, w);
    EfficiencyMeaning(trips, charges, TripsOf(v, w), ChargesOf(v, w), kmRows, kwhRows, i);
    TripTotals(trips, KeyIs(TripsOf(v, w), TripVehicle(), vehicle), TripsBy(v, w, vehicle));
    ChargeTotals(charges, KeyIs(ChargesOf(v, w), ChargeVehicle(), vehicle), ChargesBy(v, w, vehicle));
    RateIs(vehicle, Driven(trips, TripsBy(v, w, vehicle)), Charged(charges, ChargesBy(v, w, vehicle)));
    assert Matches(trips, KeyIs(TripsOf(v, w), TripVehicle(), vehicle));
  }

  // ---------------------------------------------------------------- range accuracy

  /** A row of the join after COALESCE; the vehicle is NULL when only the right side has it. */
  datatype JoinRow = JoinRow(vehicleId: Option<Uuid>, dashboard: int, actual: int)

  /** The rows of `d` paired with their partners in `m`, or with 0. */
  function Partners(d: VehicleSum, m: seq<VehicleSum>): seq<JoinRow> {
    if m == [] then []
    else
      (if m[0].vehicleId == d.vehicleId then [JoinRow(Some(d.vehicleId), d.total, m[0].total)] else [])
      + Partners(d, m[1..])
  }

  function LeftRows(d: seq<VehicleSum>, m: seq<VehicleSum>): seq<JoinRow> {
    if d == [] then []
    else
      (if Partners(d[0], m) == [] then [JoinRow(Some(d[0].vehicleId), d[0].total, 0)] else Partners(d[0], m))
      + LeftRows(d[1..], m)
  }

  function RightOnlyRows(d: seq<VehicleSum>, m: seq<VehicleSum>): seq<JoinRow> {
    if m == [] then []
    else (if m[0].vehicleId in Vehicles(d) then [] else [JoinRow(None, 0, m[0].total)]) + RightOnlyRows(d, m[1..])
  }

  /** FULL OUTER JOIN on the vehicle; the database may return it in any order. */
  function FullJoin(d: seq<VehicleSum>, m: seq<VehicleSum>): seq<JoinRow> { LeftRows(d, m) + RightOnlyRows(d, m) }

  ghost predicate HasVehicle(rows: seq<VehicleSum>, v: Uuid) { exists i :: 0 <= i < |rows| && rows[i].vehicleId == v }

  lemma {:induction false} PartnersExactly(d: VehicleSum, m: seq<VehicleSum>, row: JoinRow)
    ensures row in Partners(d, m)
       <==> exists j :: 0 <= j < |m| && m[j].vehicleId == d.vehicleId
                        && row == JoinRow(Some(d.vehicleId), d.total, m[j].total)
    ensures Partners(d, m) == [] <==> !HasVehicle(m, d.vehicleId)
  {
    if m != [] {
      PartnersExactly(d, m[1..], row);
      assert m == [m[0]] + m[1..];
      assert forall j :: 0 < j < |m| ==> m[j] == m[1..][j - 1];
    }
  }

  /** A row of the left side: with each of its partners, or with 0 when it has none. */
  ghost predicate IsLeftRow(d: VehicleSum, m: seq<VehicleSum>, row: JoinRow) {
    || (exists j :: 0 <= j < |m| && m[j].vehicleId == d.vehicleId
                    && row == JoinRow(Some(d.vehicleId), d.total, m[j].total))
    || (!HasVehicle(m, d.vehicleId) && row == JoinRow(Some(d.vehicleId), d.total, 0))
  }

  lemma OneLeftRow(d: VehicleSum, m: seq<VehicleSum>, row: JoinRow)
    ensures row in (if Partners(d, m) == [] then [JoinRow(Some(d.vehicleId), d.total, 0)] else Partners(d, m))
       <==> IsLeftRow(d, m, row)
  {
    PartnersExactly(d, m, row);
  }

  lemma {:induction false} LeftRowsExactly(d: seq<VehicleSum>, m: seq<VehicleSum>, row: JoinRow)
    ensures row in LeftRows(d, m) <==> exists i :: 0 <= i < |d| && IsLeftRow(d[i], m, row)
  {
    if d != [] {
      var rest := d[1..];
      LeftRowsExactly(rest, m, row);
      OneLeftRow(d[0], m, row);
      if row in LeftRows(rest, m) {
        var i :| 0 <= i < |rest| && IsLeftRow(rest[i], m, row);
        assert d[i + 1] == rest[i];
      }
      if exists i :: 0 < i < |d| && IsLeftRow(d[i], m, row) {
        var i :| 0 < i < |d| && IsLeftRow(d[i], m, row);
        assert rest[i - 1] == d[i];
      }
    }
  }

  lemma {:induction false} RightOnlyRowsExactly(d: seq<VehicleSum>, m: seq<VehicleSum>, row: JoinRow)
    ensures row in RightOnlyRows(d, m)
       <==> exists j :: 0 <= j < |m| && !HasVehicle(d, m[j].vehicleId) && row == JoinRow(None, 0, m[j].total)
  {
    if m != [] {
      RightOnlyRowsExactly(d, m[1..], row);
      assert m[0].vehicleId in Vehicles(d) <==> HasVehicle(d, m[0].vehicleId) by {
        if m[0].vehicleId in Vehicles(d) {
          var k :| 0 <= k < |d| && Vehicles(d)[k] == m[0].vehicleId;
          assert d[k].vehicleId == m[0].vehicleId;
        }
        if HasVehicle(d, m[0].vehicleId) {
          var k :| 0 <= k < |d| && d[k].vehicleId == m[0].vehicleId;
          assert Vehicles(d)[k] == m[0].vehicleId;
        }
      }
      assert forall j :: 0 < j < |m| ==> m[j] == m[1..][j - 1];
    }
  }

  /** The full outer join: pairs of one vehicle, left rows without a partner with 0, right ones with NULL and 0. */
  lemma FullJoinExactly(d: seq<VehicleSum>, m: seq<VehicleSum>, row: JoinRow)
    ensures row in FullJoin(d, m)
       <==> || (exists i :: 0 <= i < |d| && IsLeftRow(d[i], m, row))
            || (exists j :: 0 <= j < |m| && !HasVehicle(d, m[j].vehicleId) && row == JoinRow(None, 0, m[j].total))
  {
    LeftRowsExactly(d, m, row);
    RightOnlyRowsExactly(d, m, row);
  }

  /** A single GROUP BY with two sums, over the given keys. */
  function TwoSums(trips: seq<Trip>, p: Trip -> bool, keys: seq<Uuid>): seq<JoinRow> {
    if keys == [] then []
    else [JoinRow(Some(keys[0]), Sum(trips, KeyIs(p, TripVehicle(), keys[0]), RangeKm()),
                  Sum(trips, KeyIs(p, TripVehicle(), keys[0]), Km()))]
         + TwoSums(trips, p, keys[1..])
  }

  lemma {:induction false} NoPartner(d: VehicleSum, m: seq<VehicleSum>)
    requires d.vehicleId !in Vehicles(m)
    ensures Partners(d, m) == []
  {
    if m != [] {
      assert Vehicles(m)[0] == m[0].vehicleId && Vehicles(m)[1..] == Vehicles(m[1..]);
      NoPartner(d, m[1..]);
    }
  }

  lemma {:induction false} OnePartner(d: VehicleSum, m: seq<VehicleSum>, i: nat)
    requires Distinct(Vehicles(m)) && i < |m| && m[i].vehicleId == d.vehicleId
    ensures Partners(d, m) == [JoinRow(Some(d.vehicleId), d.total, m[i].total)]
  {
    var ids := Vehicles(m);
    assert ids[1..] == Vehicles(m[1..]);
    if i == 0 {
      assert forall j :: 0 < j < |ids| ==> ids[j] != ids[0];
      NoPartner(d, m[1..]);
    } else {
      assert ids[0] != ids[i];
      OnePartner(d, m[1..], i - 1);
    }
  }

  lemma {:induction false} NothingRightOnly(d: seq<VehicleSum>, m: seq<VehicleSum>)
    requires forall i :: 0 <= i < |m| ==> m[i].vehicleId in Vehicles(d)
    ensures RightOnlyRows(d, m) == []
  {
    if m != [] { NothingRightOnly(d, m[1..]); }
  }

  lemma {:induction false} LeftRowsAreTwoSums(trips: seq<Trip>, p: Trip -> bool, d: seq<VehicleSum>, m: seq<VehicleSum>)
    requires IsSums(trips, p, TripVehicle(), Km(), m)
    requires forall i :: 0 <= i < |d| ==>
               && d[i].vehicleId in Vehicles(m)
               && d[i].total == Sum(trips, KeyIs(p, TripVehicle(), d[i].vehicleId), RangeKm())
    ensures LeftRows(d, m) == TwoSums(trips, p, Vehicles(d))
  {
    if d != [] {
      var i :| 0 <= i < |m| && Vehicles(m)[i] == d[0].vehicleId;
      OnePartner(d[0], m, i);
      LeftRowsAreTwoSums(trips, p, d[1..], m);
      assert Vehicles(d)[1..] == Vehicles(d[1..]);
    }
  }

  /** The full outer join of two identically filtered groupings is one grouping with two sums. */
  lemma FullJoinIsOneGrouping(trips: seq<Trip>, p: Trip -> bool, d: seq<VehicleSum>, m: seq<VehicleSum>)
    requires IsSums(trips, p, TripVehicle(), RangeKm(), d) && IsSums(trips, p, TripVehicle(), Km(), m)
    ensures FullJoin(d, m) == TwoSums(trips, p, Vehicles(d))
  {
    forall v: Uuid ensures v in Vehicles(d) <==> v in Vehicles(m) {
      SameKeys(trips, p, TripVehicle(), Vehicles(d), Vehicles(m), v);
    }
    forall i | 0 <= i < |m| ensures m[i].vehicleId in Vehicles(d) {
      assert Vehicles(m)[i] in Vehicles(m);
    }
    forall i | 0 <= i < |d| ensures d[i].vehicleId in Vehicles(m) {
      assert Vehicles(d)[i] in Vehicles(d);
    }
    NothingRightOnly(d, m);
    LeftRowsAreTwoSums(trips, p, d, m);
  }

  datatype Accuracy = Accuracy(vehicleId: string, dashboard: int, actual: int, ratio: real)

  function VehicleText(row: JoinRow): string { if row.vehicleId.Some? then row.vehicleId.value else "" }

  /** The ratio times the dashboard's range is the distance driven; 0 when the dashboard lost no range. */
  function AccuracyOf(row: JoinRow): (a: Accuracy)
    ensures row.dashboard > 0 ==> a.ratio * row.dashboard as real == row.actual as real
    ensures row.dashboard <= 0 ==> a.ratio == 0.0
  {
    Accuracy(VehicleText(row), row.dashboard, row.actual,
             if row.dashboard > 0 then row.actual as real / row.dashboard as real else 0.0)
  }

  /** Rows without a vehicle are skipped. */
  function Accuracies(rows: seq<JoinRow>): seq<Accuracy> {
    if rows == [] then []
    else Accuracies(rows[..|rows| - 1])
         + if VehicleText(rows[|rows| - 1]) == "" then [] else [AccuracyOf(rows[|rows| - 1])]
  }

  /** One more joined row is one more entry, unless its vehicle is NULL. */
  lemma NamelessAreSkipped(rows: seq<JoinRow>, row: JoinRow)
    ensures Accuracies(rows + [row])
         == if row.vehicleId == None then Accuracies(rows) else Accuracies(rows) + [AccuracyOf(row)]
  {
    assert (rows + [row])[..|rows|] == rows;
  }

  method EmitAccuracies(rows: seq<JoinRow>) returns (resp: seq<Accuracy>)
    ensures resp == Accuracies(rows)
  {
    resp := [];
    for i := 0 to |rows|
      invariant resp == Accuracies(rows[..i])
    {
      assert rows[..i + 1][..i] == rows[..i];
      var row := rows[i];
      var vid := if row.vehicleId.None? then "" else row.vehicleId.value;
      if vid == "" { continue; }
      var ratio := 0.0;
      if row.dashboard > 0 { ratio := row.actual as real / row.dashboard as real; }
      resp := resp + [Accuracy(vid, row.dashboard, row.actual, ratio)];
    }
    assert rows[..|rows|] == rows;
  }

  lemma {:induction false} NothingSkipped(rows: seq<JoinRow>, i: nat)
    requires forall j :: 0 <= j < |rows| ==> rows[j].vehicleId.Some?
    requires i < |rows|
    ensures |Accuracies(rows)| == |rows| && Accuracies(rows)[i] == AccuracyOf(rows[i])
    decreases |rows|
  {
    var before := rows[..|rows| - 1];
    if i < |before| { NothingSkipped(before, i); } else if before != [] { NothingSkipped(before, 0); }
  }

  ghost predicate HasTwoSums(trips: seq<Trip>, p: Trip -> bool, row: JoinRow) {
    && row.vehicleId.Some?
    && row.dashboard == Sum(trips, KeyIs(p, TripVehicle(), row.vehicleId.value), RangeKm())
    && row.actual == Sum(trips, KeyIs(p, TripVehicle(), row.vehicleId.value), Km())
  }

  lemma {:induction false} RowsHaveTwoSums(trips: seq<Trip>, p: Trip -> bool, keys: seq<Uuid>, row: JoinRow)
    ensures row in TwoSums(trips, p, keys) ==> HasTwoSums(trips, p, row)
    ensures |TwoSums(trips, p, keys)| == |keys|
  {
    if keys != [] { RowsHaveTwoSums(trips, p, keys[1..], row); }
  }

  lemma {:induction false} KeysOfTwoSums(trips: seq<Trip>, p: Trip -> bool, keys: seq<Uuid>, row: JoinRow)
    requires row in TwoSums(trips, p, keys)
    ensures row.vehicleId.Some? && row.vehicleId.value in keys
  {
    if row in TwoSums(trips, p, keys[1..]) { KeysOfTwoSums(trips, p, keys[1..], row); }
  }

  lemma {:induction false} TwoSumsListKeys(trips: seq<Trip>, p: Trip -> bool, keys: seq<Uuid>, i: nat)
    requires i < |keys|
    ensures |TwoSums(trips, p, keys)| == |keys| && TwoSums(trips, p, keys)[i].vehicleId == Some(keys[i])
  {
    if |keys| > 1 { TwoSumsListKeys(trips, p, keys[1..], if i > 0 then i - 1 else 0); }
  }

  /** No vehicle occurs twice in an arrangement of rows whose vehicles are distinct. */
  lemma {:induction false} DistinctInAnyOrder(rows: seq<JoinRow>, sums: seq<JoinRow>)
    requires multiset(rows) == multiset(sums)
    requires forall i, j :: 0 <= i < j < |sums| ==> sums[i].vehicleId != sums[j].vehicleId
    ensures forall i, j :: 0 <= i < j < |rows| ==> rows[i].vehicleId != rows[j].vehicleId
    decreases |rows|
  {
    if rows != [] {
      var x, rest := rows[0], rows[1..];
      assert rows == [x] + rest;
      var before, after := PositionOf(x, rest, sums);
      TakeOut(x, rest, before, after);
      var others := before + after;
      forall i, j | 0 <= i < j < |others|
        ensures others[i].vehicleId != others[j].vehicleId
      {
        var i', j' := if i < |before| then i else i + 1, if j < |before| then j else j + 1;
        assert others[i] == sums[i'] && others[j] == sums[j'];
      }
      DistinctInAnyOrder(rest, others);
      forall j | 0 <= j < |rest|
        ensures rest[j].vehicleId != x.vehicleId
      {
        assert rest[j] in multiset(rest);
        assert rest[j] in others;
        var k :| 0 <= k < |others| && others[k] == rest[j];
        assert sums[|before|] == x && sums[if k < |before| then k else k + 1] == rest[j];
      }
    }
  }

  /**
   In whatever order the joined rows arrive, none is skipped, every vehicle with trips has exactly one
   entry, and it carries that vehicle's two sums.
   */
  lemma RangeAccuracyMeaning(trips: seq<Trip>, p: Trip -> bool, d: seq<VehicleSum>, m: seq<VehicleSum>,
                             rows: seq<JoinRow>, i: nat)
    requires IsSums(trips, p, TripVehicle(), RangeKm(), d) && IsSums(trips, p, TripVehicle(), Km(), m)
    requires multiset(rows) == multiset(FullJoin(d, m)) && i < |rows|
    ensures |Accuracies(rows)| == |rows| == |d|
    ensures HasTwoSums(trips, p, rows[i]) && Accuracies(rows)[i] == AccuracyOf(rows[i])
  {
    FullJoinIsOneGrouping(trips, p, d, m);
    forall j | 0 <= j < |rows|
      ensures HasTwoSums(trips, p, rows[j])
    {
      assert rows[j] in multiset(rows);
      RowsHaveTwoSums(trips, p, Vehicles(d), rows[j]);
    }
    RowsHaveTwoSums(trips, p, Vehicles(d), rows[i]);
    assert |multiset(rows)| == |multiset(FullJoin(d, m))|;
    NothingSkipped(rows, i);
  }

  /** The range the dashboard lost, the distance driven, and their ratio, 0 when no range was lost. */
  predicate IsAccuracy(a: Accuracy, vehicle: Uuid, lost: int, driven: int) {
    && a.vehicleId == vehicle && a.dashboard == lost && a.actual == driven
    && (if lost > 0 then a.ratio * lost as real == driven as real else a.ratio == 0.0)
  }

  lemma AccuracyIs(row: JoinRow, vehicle: Uuid, lost: int, driven: int)
    requires row == JoinRow(Some(vehicle), lost, driven)
    ensures IsAccuracy(AccuracyOf(row), vehicle, lost, driven)
  {
  }

  /** The range accuracy answer for a request, entry by entry. */
  lemma AccuracyExactly(trips: seq<Trip>, v: string, w: Window, d: seq<VehicleSum>, m: seq<VehicleSum>,
                        rows: seq<JoinRow>, i: nat)
    requires IsSums(trips, TripsOf(v, w), TripVehicle(), RangeKm(), d)
    requires IsSums(trips, TripsOf(v, w), TripVehicle(), Km(), m)
    requires multiset(rows) == multiset(FullJoin(d, m)) && i < |rows|
    ensures |Accuracies(rows)| == |rows| && rows[i].vehicleId.Some?
    ensures var vehicle := rows[i].vehicleId.value;
            IsAccuracy(Accuracies(rows)[i], vehicle, RangeLost(trips, TripsBy(v, w, vehicle)),
                       Driven(trips, TripsBy(v, w, vehicle)))
  {
    FiltersExactly(v, w);
    RangeAccuracyMeaning(trips, TripsOf(v, w), d, m, rows, i);
    var vehicle := rows[i].vehicleId.value;
    TripTotals(trips, KeyIs(TripsOf(v, w), TripVehicle(), vehicle), TripsBy(v, w, vehicle));
    AccuracyIs(rows[i], vehicle, RangeLost(trips, TripsBy(v, w, vehicle)), Driven(trips, TripsBy(v, w, vehicle)));
  }

  /** The joined rows name the vehicles of the grouping, each exactly once. */
  lemma OneEntryPerVehicle(trips: seq<Trip>, p: Trip -> bool, d: seq<VehicleSum>, m: seq<VehicleSum>,
                           rows: seq<JoinRow>)
    requires IsSums(trips, p, TripVehicle(), RangeKm(), d) && IsSums(trips, p, TripVehicle(), Km(), m)
    requires multiset(rows) == multiset(FullJoin(d, m))
    ensures forall i, j :: 0 <= i < j < |rows| ==> rows[i].vehicleId != rows[j].vehicleId
    ensures forall v: Uuid ::
              Matches(trips, KeyIs(p, TripVehicle(), v))
              <==> exists i :: 0 <= i < |rows| && rows[i].vehicleId == Some(v)
  {
    var keys := Vehicles(d);
    var sums := TwoSums(trips, p, keys);
    FullJoinIsOneGrouping(trips, p, d, m);
    RowsHaveTwoSums(trips, p, keys, JoinRow(None, 0, 0));
    forall i | 0 <= i < |keys|
      ensures sums[i].vehicleId == Some(keys[i])
    {
      TwoSumsListKeys(trips, p, keys, i);
    }
    DistinctInAnyOrder(rows, sums);
    forall v: Uuid
      ensures Matches(trips, KeyIs(p, TripVehicle(), v))
         <==> exists i :: 0 <= i < |rows| && rows[i].vehicleId == Some(v)
    {
      VehicleHasRow(trips, p, keys, rows, v);
    }
  }

  lemma VehicleHasRow(trips: seq<Trip>, p: Trip -> bool, keys: seq<Uuid>, rows: seq<JoinRow>, v: Uuid)
    requires IsGrouping(trips, p, TripVehicle(), keys) && multiset(rows) == multiset(TwoSums(trips, p, keys))
    ensures Matches(trips, KeyIs(p, TripVehicle(), v)) <==> exists i :: 0 <= i < |rows| && rows[i].vehicleId == Some(v)
  {
    SameKeys(trips, p, TripVehicle(), keys, keys, v);
    if v in keys {
      var k :| 0 <= k < |keys| && keys[k] == v;
      TwoSumsListKeys(trips, p, keys, k);
      assert TwoSums(trips, p, keys)[k] in multiset(rows);
      assert TwoSums(trips, p, keys)[k] in rows;
    }
    if i :| 0 <= i < |rows| && rows[i].vehicleId == Some(v) {
      assert rows[i] in multiset(TwoSums(trips, p, keys));
      KeysOfTwoSums(trips, p, keys, rows[i]);
    }
  }
}
