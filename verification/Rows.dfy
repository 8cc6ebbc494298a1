/**
 Rows of the charging and consumption tables. Instants are microseconds since 1970-01-01 UTC, money
 is in cents, energy in hundredths of a kWh, temperatures in tenths of a degree.
 */
module Rows {

  /** A UUID in its canonical text, which is never empty. */
  type Uuid = s: string | s != "" witness "0"

  /** `purchaseDate` is a day number. */
  datatype Vehicle = Vehicle(plate: string, purchaseDate: int)

  datatype Charger = Fast | Slow

  datatype Charge = Charge(
    vehicleId: Uuid, startTime: int, endTime: int, startPercent: int, endPercent: int,
    kwh: int, cost: int, chargerType: Charger, sourceCategoryId: Uuid)

  datatype Trip = Trip(
    vehicleId: Uuid, start: int, end: int, beginPercent: int, endPercent: int, beginMileage: int, endMileage: int,
    beginRange: int, endRange: int, highest: int, lowest: int, weatherId: Uuid)

  function Cost(): Charge -> int { (c: Charge) => c.cost }
  function Kwh(): Charge -> int { (c: Charge) => c.kwh }
  function Km(): Trip -> int { (t: Trip) => t.endMileage - t.beginMileage }
  function RangeKm(): Trip -> int { (t: Trip) => t.beginRange - t.endRange }

  function ChargeVehicle(): Charge -> Uuid { (c: Charge) => c.vehicleId }
  function TripVehicle(): Trip -> Uuid { (t: Trip) => t.vehicleId }

  /** A row with its primary key. */
  datatype Entry<+R> = Entry(id: Uuid, row: R)

  /** The keys of a table, each once, in some order. */
  predicate IsScan<R>(table: map<Uuid, R>, ids: seq<Uuid>) {
    && (forall i, j :: 0 <= i < j < |ids| ==> ids[i] != ids[j])
    && (forall i :: 0 <= i < |ids| ==> ids[i] in table)
    && (forall id :: id in table ==> id in ids)
  }

  /** The rows of a table in the order of a scan. */
  function Scan<R>(table: map<Uuid, R>, ids: seq<Uuid>): (rows: seq<R>)
    requires forall i :: 0 <= i < |ids| ==> ids[i] in table
    ensures |rows| == |ids| && forall i :: 0 <= i < |rows| ==> rows[i] == table[ids[i]]
  {
    if ids == [] then [] else [table[ids[0]]] + Scan(table, ids[1..])
  }

  /** The same rows with their keys. */
  function Entries<R>(table: map<Uuid, R>, ids: seq<Uuid>): (rows: seq<Entry<R>>)
    requires forall i :: 0 <= i < |ids| ==> ids[i] in table
    ensures |rows| == |ids| && forall i :: 0 <= i < |rows| ==> rows[i] == Entry(ids[i], table[ids[i]])
  {
    if ids == [] then [] else [Entry(ids[0], table[ids[0]])] + Entries(table, ids[1..])
  }
}
