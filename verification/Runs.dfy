/**
 What the list methods and the parser of timestamps make of the rows that calls have stored: the
 theorems of Lists and Timestamp over the databases that are reachable from empty tables.
 */
module Runs {
  import opened Wrappers
  import opened Lists
  import opened Paging
  import opened Rows
  import opened Sql
  import opened TextOrder
  import opened Timestamp
  import opened Tables

  // ---------------------------------------------------------------- stored times have four-digit years

  const LAST_SECOND := 253_402_300_799

  lemma MicrosWithinBounds(t: Stamp)
    requires IsTime(t)
    ensures -62_135_596_800_000_000 <= Micros(t) < 253_402_300_800_000_000
       <==> !(t.seconds == LAST_SECOND && t.nanos >= 999_999_500)
  {
  }

  /** A time is stored beyond the year 9999 in one case only: in the last second, rounded up. */
  lemma StoredInRangeExactly(t: Stamp)
    requires IsTime(t)
    ensures InRange(Micros(t)) <==> !(t.seconds == LAST_SECOND && t.nanos >= 999_999_500)
  {
    var micros := Micros(t);
    MicrosWithinBounds(t);
    InRangeExactly(micros);
  }

  /** A start lies before an end, so it never is. */
  lemma StoredStartInRange(start: Stamp, end: Stamp)
    requires IsTime(start) && IsTime(end) && start.seconds < end.seconds
    ensures InRange(Micros(start))
  {
    StoredInRangeExactly(start);
  }

  ghost predicate StartsFit(db: Db) {
    && (forall id :: id in db.charges ==> InRange(db.charges[id].startTime))
    && (forall id :: id in db.trips ==> InRange(db.trips[id].start))
  }

  lemma StatementStartsFit(db: Db, op: Op)
    requires StartsFit(db) && Validated(op) && Statement(db, op).Success?
    ensures StartsFit(Statement(db, op).value)
  {
    if op.CreateCharging? || op.UpdateCharging? {
      StoredStartInRange(op.charge.start, op.charge.end);
    } else if op.CreateConsumption? || op.UpdateConsumption? {
      StoredStartInRange(op.trip.start, op.trip.end);
    }
  }

  /** In every reachable database all starts lie in the years 1 to 9999. */
  lemma {:induction false} EveryStartFits(calls: seq<Call>, n: nat)
    requires n <= |calls|
    ensures StartsFit(After(calls, n))
  {
    if n > 0 {
      var db, c := After(calls, n - 1), calls[n - 1];
      EveryStartFits(calls, n - 1);
      AllOrNothing(db, c.op, c.env);
      if Writes(db, c.op, c.env) { StatementStartsFit(db, c.op); }
    }
  }

  // ---------------------------------------------------------------- lists of stored rows

  lemma ChargesFit(calls: seq<Call>, n: nat, ids: seq<Uuid>)
    requires n <= |calls| && IsScan(After(calls, n).charges, ids)
    ensures StartsInRange(Entries(After(calls, n).charges, ids), StartTime)
  {
    EveryStartFits(calls, n);
  }

  lemma TripsFit(calls: seq<Call>, n: nat, ids: seq<Uuid>)
    requires n <= |calls| && IsScan(After(calls, n).trips, ids)
    ensures StartsInRange(Entries(After(calls, n).trips, ids), Start)
  {
    EveryStartFits(calls, n);
  }

  /** In every reachable database ListChargings' query filters by its request and sorts by start. */
  lemma EveryRunListsChargings(l: Locale, calls: seq<Call>, n: nat, ids: seq<Uuid>, f: ChargingFilter, limit: nat,
                               offset: nat, result: seq<Entry<Charge>>)
    requires IsUtc(l) && n <= |calls| && IsScan(After(calls, n).charges, ids)
    ensures var table := Entries(After(calls, n).charges, ids);
            ListOutcome(l, CHARGING, ChargingCandidates(f), limit, offset, table, ChargingColumn, result)
            <==> Wanted(table, Matching(f), StartDesc(StartTime), limit, offset, result)
  {
    ChargesFit(calls, n, ids);
    var table := Entries(After(calls, n).charges, ids);
    ChargingMeans(l, f, table);
    MeansByStart(l, CHARGING, ChargingCandidates(f), limit, offset, table, ChargingColumn, Matching(f), StartTime,
                 result);
  }

  lemma EveryRunListsConsumptions(l: Locale, calls: seq<Call>, n: nat, ids: seq<Uuid>, f: ConsumptionFilter, limit: nat,
                                  offset: nat, result: seq<Entry<Trip>>)
    requires IsUtc(l) && n <= |calls| && IsScan(After(calls, n).trips, ids)
    ensures var table := Entries(After(calls, n).trips, ids);
            ListOutcome(l, CONSUMPTION, ConsumptionCandidates(f), limit, offset, table, ConsumptionColumn, result)
            <==> Wanted(table, MatchingConsumption(f), StartDesc(Start), limit, offset, result)
  {
    TripsFit(calls, n, ids);
    var table := Entries(After(calls, n).trips, ids);
    ConsumptionMeans(l, f, table);
    MeansByStart(l, CONSUMPTION, ConsumptionCandidates(f), limit, offset, table, ConsumptionColumn,
                 MatchingConsumption(f), Start, result);
  }

  // ---------------------------------------------------------------- a list that loses a row

  const NO_FILTER := ChargingFilter("", None, None, 0, "")
  const TWO_IDS: seq<Uuid> := ["1", "2"]

  /** Storing the same charging row twice, all calls succeeding. */
  function TwiceCharged(r: ChargeRequest): seq<Call>
    requires r.vehicleId != "" && r.sourceCategoryId != ""
  {
    OneCharge(r) + [Call(Op.CreateCharging("2", r), PLAIN)]
  }

  lemma TwoAreStored(r: ChargeRequest)
    requires r.vehicleId != "" && r.sourceCategoryId != "" && ValidateCharging(r) && Storable(r)
    ensures After(TwiceCharged(r), 4).charges == map["1" := Stored(r), "2" := Stored(r)]
  {
    var calls := TwiceCharged(r);
    assert After(calls, 0) == EMPTY;
    assert After(calls, 1) == EMPTY.(vehicles := map[r.vehicleId := Vehicle("plate", 0)]);
    assert After(calls, 2).categories == map[r.sourceCategoryId := "home"];
    assert ChargeRefers(After(calls, 2), r);
    assert After(calls, 3) == After(calls, 2).(charges := map["1" := Stored(r)]);
    assert ChargeRefers(After(calls, 3), r);
  }

  lemma {:induction false} NoFilterKeepsAll(rows: seq<Entry<Charge>>)
    ensures Filter(rows, Matching(NO_FILTER)) == rows
  {
    if rows != [] { NoFilterKeepsAll(rows[1..]); }
  }

  /**
   Two rows with one start time: whatever the session, there are answers that ORDER BY allows and page
   sizes for which a walk over the unfiltered list is not complete.
   */
  lemma IncompleteListIsReachable(l: Locale, r: ChargeRequest)
    requires TellsApart(l)
    requires r.vehicleId != "" && r.sourceCategoryId != "" && ValidateCharging(r) && Storable(r)
    ensures var charges := After(TwiceCharged(r), 4).charges;
            && IsScan(charges, TWO_IDS)
            && !EveryListComplete(l, CHARGING, ChargingCandidates(NO_FILTER), Entries(charges, TWO_IDS),
                                  ChargingColumn, Filter(Entries(charges, TWO_IDS), Matching(NO_FILTER)))
  {
    TwoAreStored(r);
    var charges := After(TwiceCharged(r), 4).charges;
    assert "1"[0] != "2"[0];
    var table := Entries(charges, TWO_IDS);
    NoFilterKeepsAll(table);
    assert StartTime(table[0]) == StartTime(table[1]);
    ChargingListExactly(l, charges, TWO_IDS, NO_FILTER);
  }

  // ---------------------------------------------------------------- what a client reads back

  /** The fraction is lost, and from half a microsecond before the next second on that second is shown. */
  function SecondsShown(t: Stamp): int { t.seconds + if t.nanos >= 999_999_500 then 1 else 0 }

  /** The second that the parser reads from the text of a stored time. */
  ghost function ReadBack(micros: int, getTime: GetTime): Option<int>
    requires ReadsStrictForm(getTime) && InRange(micros)
  {
    Parsed(TimeText(micros), getTime)
  }

  lemma MicrosShow(t: Stamp)
    ensures Micros(t) / 1_000_000 == SecondsShown(t)
  {
  }

  lemma ReadBackIs(micros: int, seconds: int, getTime: GetTime)
    requires ReadsStrictForm(getTime) && InRange(micros) && micros / 1_000_000 == seconds
    ensures ReadBack(micros, getTime) == Some(seconds)
  {
    RoundTrip(Instant(seconds, micros % 1_000_000), 0, getTime);
  }

  lemma TimeReadsBack(t: Stamp, getTime: GetTime)
    requires ReadsStrictForm(getTime) && InRange(Micros(t))
    ensures ReadBack(Micros(t), getTime) == Some(SecondsShown(t))
  {
    MicrosShow(t);
    ReadBackIs(Micros(t), SecondsShown(t), getTime);
  }

  /** A stored pair of times is shown as the seconds of this pair. */
  ghost predicate ShowsTimes(start: int, end: int, from: Stamp, to: Stamp, getTime: GetTime)
    requires ReadsStrictForm(getTime)
  {
    && InRange(start) && ReadBack(start, getTime) == Some(SecondsShown(from))
    && (InRange(end) ==> ReadBack(end, getTime) == Some(SecondsShown(to)))
  }

  lemma NearestShow(start: int, end: int, from: Stamp, to: Stamp, getTime: GetTime)
    requires ReadsStrictForm(getTime) && Nearest(start, from) && Nearest(end, to) && InRange(start)
    ensures ShowsTimes(start, end, from, to, getTime)
  {
    NearestIsMicros(start, from);
    NearestIsMicros(end, to);
    TimeReadsBack(from, getTime);
    if InRange(end) { TimeReadsBack(to, getTime); }
  }

  /** Call j was the last to write the charging row, and the row shows the seconds of its request. */
  ghost predicate ShowsCharge(calls: seq<Call>, n: nat, id: Uuid, j: nat, getTime: GetTime)
    requires n <= |calls| && id in After(calls, n).charges && ReadsStrictForm(getTime)
  {
    var c := After(calls, n).charges[id];
    && LastOn(calls, n, ChargeKey(id), j) && (calls[j].op.CreateCharging? || calls[j].op.UpdateCharging?)
    && ShowsTimes(c.startTime, c.endTime, calls[j].op.charge.start, calls[j].op.charge.end, getTime)
  }

  ghost predicate ShowsTrip(calls: seq<Call>, n: nat, id: Uuid, j: nat, getTime: GetTime)
    requires n <= |calls| && id in After(calls, n).trips && ReadsStrictForm(getTime)
  {
    var t := After(calls, n).trips[id];
    && LastOn(calls, n, TripKey(id), j) && (calls[j].op.CreateConsumption? || calls[j].op.UpdateConsumption?)
    && ShowsTimes(t.start, t.end, calls[j].op.trip.start, calls[j].op.trip.end, getTime)
  }

  lemma DescribedCharge(op: Op, c: Charge)
    requires Describes(op, Some(ChargeRow(c)))
    ensures (op.CreateCharging? || op.UpdateCharging?) && KeepsCharge(c, op.charge)
  {
  }

  lemma DescribedTrip(op: Op, t: Trip)
    requires Describes(op, Some(TripRow(t)))
    ensures (op.CreateConsumption? || op.UpdateConsumption?) && KeepsTrip(t, op.trip)
  {
  }

  /** After any run, the times read back from a charging row are the seconds of the last request on it. */
  lemma ChargesReadBack(calls: seq<Call>, n: nat, id: Uuid, getTime: GetTime)
    requires n <= |calls| && id in After(calls, n).charges && ReadsStrictForm(getTime)
    ensures exists j: nat :: ShowsCharge(calls, n, id, j, getTime)
  {
    var db := After(calls, n);
    TablesAreTheHistory(calls, n, ChargeKey(id));
    EveryStartFits(calls, n);
    assert Lookup(db, ChargeKey(id)) == Some(ChargeRow(db.charges[id]));
    var j: nat :| Wrote(calls, n, ChargeKey(id), j);
    var c, op := db.charges[id], calls[j].op;
    DescribedCharge(op, c);
    NearestShow(c.startTime, c.endTime, op.charge.start, op.charge.end, getTime);
    assert ShowsCharge(calls, n, id, j, getTime);
  }

  /** The same for a consumption row. */
  lemma TripsReadBack(calls: seq<Call>, n: nat, id: Uuid, getTime: GetTime)
    requires n <= |calls| && id in After(calls, n).trips && ReadsStrictForm(getTime)
    ensures exists j: nat :: ShowsTrip(calls, n, id, j, getTime)
  {
    var db := After(calls, n);
    TablesAreTheHistory(calls, n, TripKey(id));
    EveryStartFits(calls, n);
    assert Lookup(db, TripKey(id)) == Some(TripRow(db.trips[id]));
    var j: nat :| Wrote(calls, n, TripKey(id), j);
    var t, op := db.trips[id], calls[j].op;
    DescribedTrip(op, t);
    NearestShow(t.start, t.end, op.trip.start, op.trip.end, getTime);
    assert ShowsTrip(calls, n, id, j, getTime);
  }
}
