/**
 The tables as state, the mutating handlers as transitions, and what every run from empty tables
 keeps. An exception of the database that no constraint modelled here explains, and the outcome of
 COMMIT, are part of each call's environment.
 */
module Tables {
  import opened Wrappers
  import opened Rows
  import Breakdowns

  // ---------------------------------------------------------------- storing numbers and times

  /** DECIMAL(p, s) rounds half away from zero; the result counts units of the last place. */
  function Rounded(x: real, units: real): int {
    if x >= 0.0 then (x * units + 0.5).Floor else -(-x * units + 0.5).Floor
  }

  predicate FitsMoney(cents: int) { -10_000_000_000 < cents < 10_000_000_000 }
  predicate FitsTemperature(tenths: int) { -10_000 < tenths < 10_000 }

  /** A protobuf timestamp. */
  type Nanos = n: nat | n < 1_000_000_000
  datatype Stamp = Stamp(seconds: int, nanos: Nanos)

  /** The bounds of google.protobuf.Timestamp; outside them no text for the database is written. */
  predicate IsTime(t: Stamp) { -62_135_596_800 <= t.seconds <= 253_402_300_799 }

  /** The fraction is rounded half to even on its way into TIMESTAMPTZ. */
  function RoundedMicros(nanos: Nanos): nat {
    var q, r := nanos / 1000, nanos % 1000;
    if r > 500 || (r == 500 && q % 2 == 1) then q + 1 else q
  }

  function Micros(t: Stamp): int { t.seconds * 1_000_000 + RoundedMicros(t.nanos) }

  /** Requests whose end second is later can still be stored with equal times, in exactly one way. */
  predicate Collapses(start: Stamp, end: Stamp) {
    end.seconds == start.seconds + 1 && start.nanos >= 999_999_500 && end.nanos <= 500
  }

  lemma StoredTimesIncreaseExactly(start: Stamp, end: Stamp)
    requires start.seconds < end.seconds
    ensures Micros(start) <= Micros(end)
    ensures Micros(start) < Micros(end) <==> !Collapses(start, end)
  {
  }

  lemma RoundedIsMonotone(x: real, y: real, units: real)
    requires x <= y && units > 0.0
    ensures Rounded(x, units) <= Rounded(y, units)
  {
  }

  /** A positive amount is stored as a positive amount exactly when it is at least half a unit. */
  lemma StoredPositiveExactly(x: real)
    requires x > 0.0
    ensures Rounded(x, 100.0) >= 0 && (Rounded(x, 100.0) > 0 <==> x >= 0.005)
  {
  }

  // ---------------------------------------------------------------- requests and stored rows

  datatype ChargeRequest = ChargeRequest(
    vehicleId: string, start: Stamp, end: Stamp, startPercent: int, endPercent: int,
    kwh: real, cost: real, chargerType: int, sourceCategoryId: string)

  datatype TripRequest = TripRequest(
    vehicleId: string, start: Stamp, end: Stamp, beginPercent: int, endPercent: int, beginMileage: int, endMileage: int,
    beginRange: int, endRange: int, highest: real, lowest: real, weatherId: string)

  predicate ValidateCharging(r: ChargeRequest) {
    && r.end.seconds > r.start.seconds
    && r.endPercent > r.startPercent
    && r.kwh > 0.0
    && r.cost > 0.0
    && r.chargerType != 0
  }

  predicate ValidateConsumption(r: TripRequest) {
    && r.end.seconds > r.start.seconds
    && r.endPercent < r.beginPercent
    && r.highest >= r.lowest
    && r.weatherId != ""
  }

  /** Times that can be written and numbers that fit their columns. */
  predicate Representable(r: ChargeRequest) {
    IsTime(r.start) && IsTime(r.end) && FitsMoney(Rounded(r.kwh, 100.0)) && FitsMoney(Rounded(r.cost, 100.0))
  }

  /** And a label that the enum knows; otherwise the statement is refused. */
  predicate Storable(r: ChargeRequest) { Representable(r) && (r.chargerType == 1 || r.chargerType == 2) }

  predicate StorableTrip(r: TripRequest) {
    && IsTime(r.start) && IsTime(r.end)
    && FitsTemperature(Rounded(r.highest, 10.0)) && FitsTemperature(Rounded(r.lowest, 10.0))
  }

  function Stored(r: ChargeRequest): Charge
    requires r.vehicleId != "" && r.sourceCategoryId != ""
  {
    Charge(r.vehicleId, Micros(r.start), Micros(r.end), r.startPercent, r.endPercent,
           Rounded(r.kwh, 100.0), Rounded(r.cost, 100.0), if r.chargerType == 1 then Fast else Slow, r.sourceCategoryId)
  }

  function StoredTrip(r: TripRequest): Trip
    requires r.vehicleId != "" && r.weatherId != ""
  {
    Trip(r.vehicleId, Micros(r.start), Micros(r.end), r.beginPercent, r.endPercent, r.beginMileage, r.endMileage,
         r.beginRange, r.endRange, Rounded(r.highest, 10.0), Rounded(r.lowest, 10.0), r.weatherId)
  }

  // ---------------------------------------------------------------- the database

  datatype Db = Db(vehicles: map<Uuid, Vehicle>, categories: map<Uuid, string>, weathers: map<Uuid, string>,
                   charges: map<Uuid, Charge>, trips: map<Uuid, Trip>)

  const EMPTY := Db(map[], map[], map[], map[], map[])

  predicate Referenced(db: Db, vehicle: string) {
    || (exists id :: id in db.charges && db.charges[id].vehicleId == vehicle)
    || (exists id :: id in db.trips && db.trips[id].vehicleId == vehicle)
  }

  /** Another vehicle already has the plate. */
  predicate PlateTaken(db: Db, id: string, plate: string) {
    exists other :: other in db.vehicles && other != id && db.vehicles[other].plate == plate
  }

  predicate ChargeRefers(db: Db, r: ChargeRequest) { r.vehicleId in db.vehicles && r.sourceCategoryId in db.categories }

  predicate TripRefers(db: Db, r: TripRequest) { r.vehicleId in db.vehicles && r.weatherId in db.weathers }

  /** The mutating calls; `id` of a creating call is the fresh UUID it draws. */
  datatype Op =
    | CreateVehicle(id: Uuid, vehicle: Vehicle)
    | UpdateVehicle(key: string, vehicle: Vehicle)
    | DeleteVehicle(key: string)
    | CreateCategory(id: Uuid, name: string)
    | CreateWeather(id: Uuid, name: string)
    | CreateCharging(id: Uuid, charge: ChargeRequest)
    | UpdateCharging(key: string, charge: ChargeRequest)
    | DeleteCharging(key: string)
    | CreateConsumption(id: Uuid, trip: TripRequest)
    | UpdateConsumption(key: string, trip: TripRequest)
    | DeleteConsumption(key: string)

  type Fault = s: Status | s != Ok witness Internal

  /** COMMIT succeeds, fails with nothing done, or fails to report that it was done. */
  datatype Commit = Committed | Undone | InDoubt

  /** Exceptions with causes outside this model, in the statement and in CreateVehicle's read-back. */
  datatype Env = Env(statement: Option<Fault>, commit: Commit, readBack: Option<Fault>)

  predicate Validated(op: Op) {
    match op
    case CreateCharging(_, r) => ValidateCharging(r)
    case UpdateCharging(_, r) => ValidateCharging(r)
    case CreateConsumption(_, r) => ValidateConsumption(r)
    case UpdateConsumption(_, r) => ValidateConsumption(r)
    case _ => true
  }

  /** INSERT with its key and the other constraints: what the table becomes, or which violation is raised. */
  function Statement(db: Db, op: Op): Result<Db>
    requires Validated(op)
  {
    match op
    case CreateVehicle(id, v) =>
      if id in db.vehicles || PlateTaken(db, id, v.plate) then Failure(AlreadyExists)
      else Success(db.(vehicles := db.vehicles[id := v]))
    case UpdateVehicle(key, v) =>
      if key !in db.vehicles then Failure(NotFound)
      else if PlateTaken(db, key, v.plate) then Failure(AlreadyExists)
      else Success(db.(vehicles := db.vehicles[key := v]))
    case DeleteVehicle(key) =>
      if key !in db.vehicles then Failure(NotFound)
      else if Referenced(db, key) then Failure(InvalidArgument)
      else Success(db.(vehicles := db.vehicles - {key}))
    case CreateCategory(id, name) =>
      if id in db.categories || name in db.categories.Values then Failure(AlreadyExists)
      else Success(db.(categories := db.categories[id := name]))
    case CreateWeather(id, name) =>
      if id in db.weathers || name in db.weathers.Values then Failure(AlreadyExists)
      else Success(db.(weathers := db.weathers[id := name]))
    case CreateCharging(id, r) =>
      if !Storable(r) then Failure(InvalidArgument)
      else if id in db.charges then Failure(AlreadyExists)
      else if !ChargeRefers(db, r) then Failure(InvalidArgument)
      else Success(db.(charges := db.charges[id := Stored(r)]))
    case UpdateCharging(key, r) =>
      if !Representable(r) then Failure(InvalidArgument)
      else if key !in db.charges then Failure(NotFound)
      else if !Storable(r) || !ChargeRefers(db, r) then Failure(InvalidArgument)
      else Success(db.(charges := db.charges[key := Stored(r)]))
    case DeleteCharging(key) =>
      if key !in db.charges then Failure(NotFound) else Success(db.(charges := db.charges - {key}))
    case CreateConsumption(id, r) =>
      if !StorableTrip(r) then Failure(InvalidArgument)
      else if id in db.trips then Failure(AlreadyExists)
      else if !TripRefers(db, r) then Failure(InvalidArgument)
      else Success(db.(trips := db.trips[id := StoredTrip(r)]))
    case UpdateConsumption(key, r) =>
      if !StorableTrip(r) then Failure(InvalidArgument)
      else if key !in db.trips then Failure(NotFound)
      else if !TripRefers(db, r) then Failure(InvalidArgument)
      else Success(db.(trips := db.trips[key := StoredTrip(r)]))
    case DeleteConsumption(key) =>
      if key !in db.trips then Failure(NotFound) else Success(db.(trips := db.trips - {key}))
  }

  /** Status and tables after a call. */
  function Apply(db: Db, op: Op, env: Env): (Status, Db) {
    if !Validated(op) then (InvalidArgument, db)
    else if env.statement.Some? then (env.statement.value, db)
    else
      match Statement(db, op)
      case Failure(error) => (error, db)
      case Success(next) =>
        match env.commit
        case Undone => (Internal, db)
        case InDoubt => (Internal, next)
        case Committed => (if op.CreateVehicle? && env.readBack.Some? then env.readBack.value else Ok, next)
  }

  // ---------------------------------------------------------------- the handlers

  class Server {
    var vehicles: map<Uuid, Vehicle>
    var categories: map<Uuid, string>
    var weathers: map<Uuid, string>
    var charges: map<Uuid, Charge>
    var trips: map<Uuid, Trip>

    function Contents(): Db
      reads this
    {
      Db(vehicles, categories, weathers, charges, trips)
    }

    constructor ()
      ensures Contents() == EMPTY
    {
      vehicles, categories, weathers, charges, trips := map[], map[], map[], map[], map[];
    }

    /** Makes a transaction's tables the database's, as far as COMMIT gets. */
    method Commit(next: Db, env: Env) returns (status: Status)
      modifies this
      ensures Contents() == if env.commit.Undone? then old(Contents()) else next
      ensures status == if env.commit.Committed? then Ok else Internal
    {
      if env.commit.Undone? { return Internal; }
      vehicles, categories, weathers := next.vehicles, next.categories, next.weathers;
      charges, trips := next.charges, next.trips;
      status := if env.commit.InDoubt? then Internal else Ok;
    }

    method CreateVehicle(v: Vehicle, id: Uuid, env: Env) returns (status: Status)
      modifies this
      ensures (status, Contents()) == Apply(old(Contents()), Op.CreateVehicle(id, v), env)
    {
      if env.statement.Some? { return env.statement.value; }
      var tx := Contents();
      if id in tx.vehicles || PlateTaken(tx, id, v.plate) { return AlreadyExists; }
      status := Commit(tx.(vehicles := tx.vehicles[id := v]), env);
      if status == Ok && env.readBack.Some? { return env.readBack.value; }
    }

    method UpdateVehicle(key: string, v: Vehicle, env: Env) returns (status: Status)
      modifies this
      ensures (status, Contents()) == Apply(old(Contents()), Op.UpdateVehicle(key, v), env)
    {
      if env.statement.Some? { return env.statement.value; }
      var tx := Contents();
      if key !in tx.vehicles { return NotFound; }
      if PlateTaken(tx, key, v.plate) { return AlreadyExists; }
      status := Commit(tx.(vehicles := tx.vehicles[key := v]), env);
    }

    method DeleteVehicle(key: string, env: Env) returns (status: Status)
      modifies this
      ensures (status, Contents()) == Apply(old(Contents()), Op.DeleteVehicle(key), env)
    {
      if env.statement.Some? { return env.statement.value; }
      var tx := Contents();
      if key in tx.vehicles && Referenced(tx, key) { return InvalidArgument; }
      var affected := if key in tx.vehicles then 1 else 0;
      tx := tx.(vehicles := tx.vehicles - {key});
      if affected == 0 { return NotFound; }
      status := Commit(tx, env);
    }

    method CreateSourceCategory(name: string, id: Uuid, env: Env) returns (status: Status)
      modifies this
      ensures (status, Contents()) == Apply(old(Contents()), Op.CreateCategory(id, name), env)
    {
      if env.statement.Some? { return env.statement.value; }
      var tx := Contents();
      if id in tx.categories || name in tx.categories.Values { return AlreadyExists; }
      status := Commit(tx.(categories := tx.categories[id := name]), env);
    }

    method CreateWeather(name: string, id: Uuid, env: Env) returns (status: Status)
      modifies this
      ensures (status, Contents()) == Apply(old(Contents()), Op.CreateWeather(id, name), env)
    {
      if env.statement.Some? { return env.statement.value; }
      var tx := Contents();
      if id in tx.weathers || name in tx.weathers.Values { return AlreadyExists; }
      status := Commit(tx.(weathers := tx.weathers[id := name]), env);
    }

    method CreateCharging(r: ChargeRequest, id: Uuid, env: Env) returns (status: Status)
      modifies this
      ensures (status, Contents()) == Apply(old(Contents()), Op.CreateCharging(id, r), env)
    {
      if !ValidateCharging(r) { return InvalidArgument; }
      if env.statement.Some? { return env.statement.value; }
      var tx := Contents();
      if !Storable(r) { return InvalidArgument; }
      if id in tx.charges { return AlreadyExists; }
      if !ChargeRefers(tx, r) { return InvalidArgument; }
      status := Commit(tx.(charges := tx.charges[id := Stored(r)]), env);
    }

    method UpdateCharging(key: string, r: ChargeRequest, env: Env) returns (status: Status)
      modifies this
      ensures (status, Contents()) == Apply(old(Contents()), Op.UpdateCharging(key, r), env)
    {
      if !ValidateCharging(r) { return InvalidArgument; }
      if env.statement.Some? { return env.statement.value; }
      var tx := Contents();
      if !Representable(r) { return InvalidArgument; }
      if key !in tx.charges { return NotFound; }
      if !Storable(r) || !ChargeRefers(tx, r) { return InvalidArgument; }
      status := Commit(tx.(charges := tx.charges[key := Stored(r)]), env);
    }

    method DeleteCharging(key: string, env: Env) returns (status: Status)
      modifies this
      ensures (status, Contents()) == Apply(old(Contents()), Op.DeleteCharging(key), env)
    {
      if env.statement.Some? { return env.statement.value; }
      var tx := Contents();
      var affected := if key in tx.charges then 1 else 0;
      tx := tx.(charges := tx.charges - {key});
      if affected == 0 { return NotFound; }
      status := Commit(tx, env);
    }

    method CreateConsumption(r: TripRequest, id: Uuid, env: Env) returns (status: Status)
      modifies this
      ensures (status, Contents()) == Apply(old(Contents()), Op.CreateConsumption(id, r), env)
    {
      if !ValidateConsumption(r) { return InvalidArgument; }
      if env.statement.Some? { return env.statement.value; }
      var tx := Contents();
      if !StorableTrip(r) { return InvalidArgument; }
      if id in tx.trips { return AlreadyExists; }
      if !TripRefers(tx, r) { return InvalidArgument; }
      status := Commit(tx.(trips := tx.trips[id := StoredTrip(r)]), env);
    }

    method UpdateConsumption(key: string, r: TripRequest, env: Env) returns (status: Status)
      modifies this
      ensures (status, Contents()) == Apply(old(Contents()), Op.UpdateConsumption(key, r), env)
    {
      if !ValidateConsumption(r) { return InvalidArgument; }
      if env.statement.Some? { return env.statement.value; }
      var tx := Contents();
      if !StorableTrip(r) { return InvalidArgument; }
      if key !in tx.trips { return NotFound; }
      if !TripRefers(tx, r) { return InvalidArgument; }
      status := Commit(tx.(trips := tx.trips[key := StoredTrip(r)]), env);
    }

    method DeleteConsumption(key: string, env: Env) returns (status: Status)
      modifies this
      ensures (status, Contents()) == Apply(old(Contents()), Op.DeleteConsumption(key), env)
    {
      if env.statement.Some? { return env.statement.value; }
      var tx := Contents();
      var affected := if key in tx.trips then 1 else 0;
      tx := tx.(trips := tx.trips - {key});
      if affected == 0 { return NotFound; }
      status := Commit(tx, env);
    }
  }

  // ---------------------------------------------------------------- atomicity

  /** The statement of this call goes through on these tables. */
  predicate Writes(db: Db, op: Op, env: Env) { Validated(op) && env.statement.None? && Statement(db, op).Success? }

  /**
   A call that does not return OK has changed nothing, except in exactly two cases: COMMIT was done
   without saying so, or CreateVehicle failed to read back what it had already committed. A call
   that returns OK has done its statement.
   */
  lemma AllOrNothing(db: Db, op: Op, env: Env)
    ensures var (status, after) := Apply(db, op, env);
            && (status == Ok ==> Writes(db, op, env) && after == Statement(db, op).value)
            && (status != Ok && after != db ==>
                  && Writes(db, op, env) && after == Statement(db, op).value
                  && (env.commit.InDoubt? || (env.commit.Committed? && op.CreateVehicle? && env.readBack.Some?)))
            && (op.CreateVehicle? && Writes(db, op, env) && env.commit.Committed? && env.readBack.Some? ==>
                  status != Ok && after != db)
  {
  }

  /** After a read-back failed, the same plate is refused: the vehicle the caller was told about as an error exists. */
  lemma RetryAfterReadBackFailure(db: Db, id: Uuid, again: Uuid, v: Vehicle, env: Env, fine: Env)
    requires Writes(db, Op.CreateVehicle(id, v), env) && env.commit.Committed? && env.readBack.Some?
    requires fine.statement.None? && again != id
    ensures Apply(Apply(db, Op.CreateVehicle(id, v), env).1, Op.CreateVehicle(again, v), fine)
         == (AlreadyExists, db.(vehicles := db.vehicles[id := v]))
  {
    var after := db.(vehicles := db.vehicles[id := v]);
    assert id in after.vehicles && after.vehicles[id].plate == v.plate;
    assert PlateTaken(after, again, v.plate);
  }

  // ---------------------------------------------------------------- which calls are accepted

  /** Nothing goes wrong outside the tables. */
  const PLAIN := Env(None, Committed, None)

  lemma FloorBelow(y: real, limit: int)
    ensures (y + 0.5).Floor < limit <==> y < limit as real - 0.5
  {
  }

  lemma RoundedFits(x: real, y: real, units: real, limit: int)
    requires limit > 0 && units > 0.0 && y == x * units
    ensures -limit < Rounded(x, units) < limit <==> -(limit as real - 0.5) < y < limit as real - 0.5
  {
    assert -x * units == -y;
    if x >= 0.0 {
      assert y >= 0.0;
      FloorBelow(y, limit);
    } else {
      assert y < 0.0;
      FloorBelow(-y, limit);
    }
  }

  /** DECIMAL(10,2) has eight digits before the point: less than 99,999,999.995. */
  lemma AmountFitsExactly(x: real)
    ensures FitsMoney(Rounded(x, 100.0)) <==> -99_999_999.995 < x < 99_999_999.995
  {
    RoundedFits(x, x * 100.0, 100.0, 10_000_000_000);
  }

  /** DECIMAL(4,1) has three digits before the point. */
  lemma TemperatureFitsExactly(x: real)
    ensures FitsTemperature(Rounded(x, 10.0)) <==> -999.95 < x < 999.95
  {
    RoundedFits(x, x * 10.0, 10.0, 10_000);
  }

  /** The times of a request: seconds in order, both within the years 1 to 9999. */
  predicate TimesAccepted(start: Stamp, end: Stamp) {
    -62_135_596_800 <= start.seconds < end.seconds <= 253_402_300_799
  }

  /** The values of a charging request that the handler and the columns take. */
  predicate ChargeAccepted(r: ChargeRequest) {
    && TimesAccepted(r.start, r.end) && r.endPercent > r.startPercent
    && 0.0 < r.kwh < 99_999_999.995 && 0.0 < r.cost < 99_999_999.995
    && (r.chargerType == 1 || r.chargerType == 2)
  }

  predicate TripAccepted(r: TripRequest) {
    && TimesAccepted(r.start, r.end) && r.endPercent < r.beginPercent
    && -999.95 < r.lowest <= r.highest < 999.95 && r.weatherId != ""
  }

  lemma ChargeAcceptedExactly(r: ChargeRequest)
    ensures ValidateCharging(r) && Storable(r) <==> ChargeAccepted(r)
  {
    AmountFitsExactly(r.kwh);
    AmountFitsExactly(r.cost);
  }

  lemma TripAcceptedExactly(r: TripRequest)
    ensures ValidateConsumption(r) && StorableTrip(r) <==> TripAccepted(r)
  {
    TemperatureFitsExactly(r.highest);
    TemperatureFitsExactly(r.lowest);
  }

  /** Times in order and an unknown charger label: the handler goes on, and an update reports a missing row first. */
  lemma UnknownLabelExactly(r: ChargeRequest)
    ensures ValidateCharging(r) && Representable(r) && !Storable(r)
       <==> ChargeAccepted(r.(chargerType := 1)) && r.chargerType !in {0, 1, 2}
  {
    AmountFitsExactly(r.kwh);
    AmountFitsExactly(r.cost);
  }

  /** Every other row. */
  function Without<R>(table: map<Uuid, R>, key: string): map<Uuid, R> {
    map id | id in table && id != key :: table[id]
  }

  lemma CreateVehicleAnswers(db: Db, id: Uuid, v: Vehicle)
    ensures Apply(db, Op.CreateVehicle(id, v), PLAIN)
         == if id !in db.vehicles && forall other :: other in db.vehicles ==> db.vehicles[other].plate != v.plate
            then (Ok, db.(vehicles := db.vehicles[id := v])) else (AlreadyExists, db)
  {
  }

  /** A vehicle keeps its own plate, but does not take another's. */
  lemma UpdateVehicleAnswers(db: Db, key: string, v: Vehicle)
    ensures Apply(db, Op.UpdateVehicle(key, v), PLAIN)
         == if key !in db.vehicles then (NotFound, db)
            else if exists other :: other in db.vehicles && other != key && db.vehicles[other].plate == v.plate
            then (AlreadyExists, db)
            else (Ok, db.(vehicles := db.vehicles[key := v]))
  {
  }

  /** Only a vehicle that no charging and no consumption row names can go. */
  lemma DeleteVehicleAnswers(db: Db, key: string)
    ensures Apply(db, Op.DeleteVehicle(key), PLAIN)
         == if key !in db.vehicles then (NotFound, db)
            else if (exists id :: id in db.charges && db.charges[id].vehicleId == key)
                 || (exists id :: id in db.trips && db.trips[id].vehicleId == key) then (InvalidArgument, db)
            else (Ok, db.(vehicles := Without(db.vehicles, key)))
  {
    assert db.vehicles - {key} == Without(db.vehicles, key);
  }

  lemma CreateCategoryAnswers(db: Db, id: Uuid, name: string)
    ensures Apply(db, Op.CreateCategory(id, name), PLAIN)
         == if id !in db.categories && forall other :: other in db.categories ==> db.categories[other] != name
            then (Ok, db.(categories := db.categories[id := name])) else (AlreadyExists, db)
  {
  }

  lemma CreateWeatherAnswers(db: Db, id: Uuid, name: string)
    ensures Apply(db, Op.CreateWeather(id, name), PLAIN)
         == if id !in db.weathers && forall other :: other in db.weathers ==> db.weathers[other] != name
            then (Ok, db.(weathers := db.weathers[id := name])) else (AlreadyExists, db)
  {
  }

  /** An accepted request under a fresh key, for a vehicle and a category that exist; refused otherwise. */
  lemma CreateChargingAnswers(db: Db, id: Uuid, r: ChargeRequest)
    ensures var refers := r.vehicleId in db.vehicles && r.sourceCategoryId in db.categories;
            Apply(db, Op.CreateCharging(id, r), PLAIN)
            == if !ChargeAccepted(r) then (InvalidArgument, db)
               else if id in db.charges then (AlreadyExists, db)
               else if !refers then (InvalidArgument, db)
               else (Ok, db.(charges := db.charges[id := Stored(r)]))
  {
    ChargeAcceptedExactly(r);
  }

  /** An update is for a row that is there: NotFound exactly when it is not and the request is otherwise in order. */
  lemma UpdateChargingAnswers(db: Db, key: string, r: ChargeRequest)
    ensures var refers := r.vehicleId in db.vehicles && r.sourceCategoryId in db.categories;
            var labelled := r.chargerType == 1 || r.chargerType == 2;
            Apply(db, Op.UpdateCharging(key, r), PLAIN)
            == if r.chargerType == 0 || !ChargeAccepted(r.(chargerType := 1)) then (InvalidArgument, db)
               else if key !in db.charges then (NotFound, db)
               else if !labelled || !refers then (InvalidArgument, db)
               else (Ok, db.(charges := db.charges[key := Stored(r)]))
  {
    ChargeAcceptedExactly(r);
    UnknownLabelExactly(r);
  }

  lemma DeleteChargingAnswers(db: Db, key: string)
    ensures Apply(db, Op.DeleteCharging(key), PLAIN)
         == if key in db.charges
            then (Ok, db.(charges := Without(db.charges, key))) else (NotFound, db)
  {
    assert db.charges - {key} == Without(db.charges, key);
  }

  lemma CreateConsumptionAnswers(db: Db, id: Uuid, r: TripRequest)
    ensures Apply(db, Op.CreateConsumption(id, r), PLAIN)
         == if !TripAccepted(r) then (InvalidArgument, db)
            else if id in db.trips then (AlreadyExists, db)
            else if r.vehicleId !in db.vehicles || r.weatherId !in db.weathers then (InvalidArgument, db)
            else (Ok, db.(trips := db.trips[id := StoredTrip(r)]))
  {
    TripAcceptedExactly(r);
  }

  lemma UpdateConsumptionAnswers(db: Db, key: string, r: TripRequest)
    ensures Apply(db, Op.UpdateConsumption(key, r), PLAIN)
         == if !TripAccepted(r) then (InvalidArgument, db)
            else if key !in db.trips then (NotFound, db)
            else if r.vehicleId !in db.vehicles || r.weatherId !in db.weathers then (InvalidArgument, db)
            else (Ok, db.(trips := db.trips[key := StoredTrip(r)]))
  {
    TripAcceptedExactly(r);
  }

  lemma DeleteConsumptionAnswers(db: Db, key: string)
    ensures Apply(db, Op.DeleteConsumption(key), PLAIN)
         == if key in db.trips
            then (Ok, db.(trips := Without(db.trips, key))) else (NotFound, db)
  {
    assert db.trips - {key} == Without(db.trips, key);
  }

  /** What goes wrong outside the tables, on top of the answer in plain circumstances. */
  lemma FaultsAnswer(db: Db, op: Op, env: Env)
    ensures var (status, next) := Apply(db, op, PLAIN);
            var wrong := env.statement.Some? && Validated(op);
            Apply(db, op, env)
            == if wrong then (env.statement.value, db)
               else if status != Ok then (status, db)
               else if env.commit == Undone then (Internal, db)
               else if env.commit == InDoubt then (Internal, next)
               else if op.CreateVehicle? && env.readBack.Some? then (env.readBack.value, next)
               else (Ok, next)
  {
  }

  // ---------------------------------------------------------------- what every run keeps

  ghost predicate ChargesSound(db: Db) {
    forall id :: id in db.charges ==>
      var c := db.charges[id];
      c.startTime <= c.endTime && c.startPercent < c.endPercent && c.kwh >= 0 && c.cost >= 0
  }

  ghost predicate TripsSound(db: Db) {
    forall id :: id in db.trips ==>
      var t := db.trips[id];
      t.start <= t.end && t.endPercent < t.beginPercent && t.highest >= t.lowest
  }

  /** The foreign keys of both tables. */
  ghost predicate ReferencesHold(db: Db) {
    && (forall id :: id in db.charges ==>
          db.charges[id].vehicleId in db.vehicles && db.charges[id].sourceCategoryId in db.categories)
    && (forall id :: id in db.trips ==> db.trips[id].vehicleId in db.vehicles && db.trips[id].weatherId in db.weathers)
  }

  ghost predicate PlatesUnique(db: Db) {
    forall id, other ::
      id in db.vehicles && other in db.vehicles && db.vehicles[id].plate == db.vehicles[other].plate ==> id == other
  }

  ghost predicate Sound(db: Db) { ChargesSound(db) && TripsSound(db) && ReferencesHold(db) && PlatesUnique(db) }

  lemma StoredChargeIsSound(r: ChargeRequest)
    requires ValidateCharging(r) && r.vehicleId != "" && r.sourceCategoryId != ""
    ensures var c := Stored(r); c.startTime <= c.endTime && c.startPercent < c.endPercent && c.kwh >= 0 && c.cost >= 0
  {
    StoredTimesIncreaseExactly(r.start, r.end);
    StoredPositiveExactly(r.kwh);
    StoredPositiveExactly(r.cost);
  }

  lemma StoredTripIsSound(r: TripRequest)
    requires ValidateConsumption(r) && r.vehicleId != ""
    ensures var t := StoredTrip(r); t.start <= t.end && t.endPercent < t.beginPercent && t.highest >= t.lowest
  {
    StoredTimesIncreaseExactly(r.start, r.end);
    RoundedIsMonotone(r.lowest, r.highest, 10.0);
  }

  lemma ChargeStatementKeeps(db: Db, op: Op)
    requires Sound(db) && Validated(op) && (op.CreateCharging? || op.UpdateCharging?) && Statement(db, op).Success?
    ensures Sound(Statement(db, op).value)
  {
    StoredChargeIsSound(op.charge);
  }

  lemma TripStatementKeeps(db: Db, op: Op)
    requires Sound(db) && Validated(op) && (op.CreateConsumption? || op.UpdateConsumption?)
    requires Statement(db, op).Success?
    ensures Sound(Statement(db, op).value)
  {
    StoredTripIsSound(op.trip);
  }

  lemma VehicleStatementKeeps(db: Db, op: Op)
    requires Sound(db) && (op.CreateVehicle? || op.UpdateVehicle? || op.DeleteVehicle?) && Statement(db, op).Success?
    ensures Sound(Statement(db, op).value)
  {
  }

  lemma StatementKeeps(db: Db, op: Op)
    requires Sound(db) && Validated(op) && Statement(db, op).Success?
    ensures Sound(Statement(db, op).value)
  {
    if op.CreateCharging? || op.UpdateCharging? {
      ChargeStatementKeeps(db, op);
    } else if op.CreateConsumption? || op.UpdateConsumption? {
      TripStatementKeeps(db, op);
    } else if op.CreateVehicle? || op.UpdateVehicle? || op.DeleteVehicle? {
      VehicleStatementKeeps(db, op);
    }
  }

  datatype Call = Call(op: Op, env: Env)

  /** The tables after the first `n` calls, from empty tables. */
  function After(calls: seq<Call>, n: nat): Db
    requires n <= |calls|
  {
    if n == 0 then EMPTY else Apply(After(calls, n - 1), calls[n - 1].op, calls[n - 1].env).1
  }

  /** Whatever calls are made and however they fail, every reachable database is sound. */
  lemma {:induction false} EveryRunIsSound(calls: seq<Call>, n: nat)
    requires n <= |calls|
    ensures Sound(After(calls, n))
  {
    if n > 0 {
      var db, c := After(calls, n - 1), calls[n - 1];
      EveryRunIsSound(calls, n - 1);
      AllOrNothing(db, c.op, c.env);
      if Writes(db, c.op, c.env) { StatementKeeps(db, c.op); }
    }
  }

  // ---------------------------------------------------------------- the tables are the history of the calls

  /** Where a call's row is, and what it puts there; None is a deletion. */
  datatype Key =
    | VehicleKey(id: string)
    | CategoryKey(id: string)
    | WeatherKey(id: string)
    | ChargeKey(id: string)
    | TripKey(id: string)

  datatype Row = VehicleRow(vehicle: Vehicle) | NameRow(name: string) | ChargeRow(charge: Charge) | TripRow(trip: Trip)

  function Target(op: Op): Key {
    match op
    case CreateVehicle(id, _) => VehicleKey(id)
    case UpdateVehicle(key, _) => VehicleKey(key)
    case DeleteVehicle(key) => VehicleKey(key)
    case CreateCategory(id, _) => CategoryKey(id)
    case CreateWeather(id, _) => WeatherKey(id)
    case CreateCharging(id, _) => ChargeKey(id)
    case UpdateCharging(key, _) => ChargeKey(key)
    case DeleteCharging(key) => ChargeKey(key)
    case CreateConsumption(id, _) => TripKey(id)
    case UpdateConsumption(key, _) => TripKey(key)
    case DeleteConsumption(key) => TripKey(key)
  }

  function Lookup(db: Db, key: Key): Option<Row> {
    match key
    case VehicleKey(id) => if id in db.vehicles then Some(VehicleRow(db.vehicles[id])) else None
    case CategoryKey(id) => if id in db.categories then Some(NameRow(db.categories[id])) else None
    case WeatherKey(id) => if id in db.weathers then Some(NameRow(db.weathers[id])) else None
    case ChargeKey(id) => if id in db.charges then Some(ChargeRow(db.charges[id])) else None
    case TripKey(id) => if id in db.trips then Some(TripRow(db.trips[id])) else None
  }

  /** The numbers of a stored charge are the nearest the columns can hold to those of the request. */
  ghost predicate KeepsCharge(c: Charge, r: ChargeRequest) {
    && c.vehicleId == r.vehicleId && c.sourceCategoryId == r.sourceCategoryId
    && c.startPercent == r.startPercent && c.endPercent == r.endPercent
    && (c.chargerType == Fast <==> r.chargerType == 1) && (c.chargerType == Slow <==> r.chargerType == 2)
    && Nearest(c.startTime, r.start) && Nearest(c.endTime, r.end)
    && NearestUnit(c.kwh, r.kwh * 100.0) && NearestUnit(c.cost, r.cost * 100.0)
  }

  ghost predicate KeepsTrip(t: Trip, r: TripRequest) {
    && t.vehicleId == r.vehicleId && t.weatherId == r.weatherId
    && t.beginPercent == r.beginPercent && t.endPercent == r.endPercent
    && t.beginMileage == r.beginMileage && t.endMileage == r.endMileage
    && t.beginRange == r.beginRange && t.endRange == r.endRange
    && Nearest(t.start, r.start) && Nearest(t.end, r.end)
    && NearestUnit(t.highest, r.highest * 10.0) && NearestUnit(t.lowest, r.lowest * 10.0)
  }

  /** The nearest whole unit, of two the one further from zero. */
  predicate NearestUnit(n: int, y: real) {
    var error := n as real - y;
    -0.5 <= error <= 0.5 && (error == 0.5 ==> y > 0.0) && (error == -0.5 ==> y < 0.0)
  }

  /** The nearest whole microsecond, the even one of two. */
  predicate Nearest(micros: int, t: Stamp) {
    var error := micros * 1000 - (t.seconds * 1_000_000_000 + t.nanos);
    -500 <= error <= 500 && (error == -500 || error == 500 ==> micros % 2 == 0)
  }

  /** The row a call leaves at its key is the one its request describes. */
  ghost predicate Describes(op: Op, row: Option<Row>) {
    match op
    case CreateVehicle(_, v) => row == Some(VehicleRow(v))
    case UpdateVehicle(_, v) => row == Some(VehicleRow(v))
    case CreateCategory(_, name) => row == Some(NameRow(name))
    case CreateWeather(_, name) => row == Some(NameRow(name))
    case CreateCharging(_, r) => row.Some? && row.value.ChargeRow? && KeepsCharge(row.value.charge, r)
    case UpdateCharging(_, r) => row.Some? && row.value.ChargeRow? && KeepsCharge(row.value.charge, r)
    case CreateConsumption(_, r) => row.Some? && row.value.TripRow? && KeepsTrip(row.value.trip, r)
    case UpdateConsumption(_, r) => row.Some? && row.value.TripRow? && KeepsTrip(row.value.trip, r)
    case _ => row.None?
  }

  lemma NearestUnitIsOne(n: int, m: int, y: real)
    requires NearestUnit(n, y) && NearestUnit(m, y)
    ensures n == m
  {
    assert (n - m) as real == n as real - m as real;
    assert -1 < n - m < 1;
  }

  /** So an amount is stored in one way only. */
  lemma RoundedIsNearest(x: real, y: real, units: real, n: int)
    requires units > 0.0 && y == x * units
    ensures NearestUnit(n, y) <==> n == Rounded(x, units)
  {
    assert -x * units == -y;
    if x >= 0.0 { assert y >= 0.0; } else { assert y < 0.0; }
    assert NearestUnit(Rounded(x, units), y);
    if NearestUnit(n, y) { NearestUnitIsOne(n, Rounded(x, units), y); }
  }

  predicate NearestFraction(micros: int, nanos: Nanos) {
    var error := micros * 1000 - nanos;
    -500 <= error <= 500 && (error == -500 || error == 500 ==> micros % 2 == 0)
  }

  lemma NearestFractionIsRounded(micros: int, nanos: Nanos)
    ensures NearestFraction(micros, nanos) <==> micros == RoundedMicros(nanos)
  {
    var q, r := nanos / 1000, nanos % 1000;
    var d := micros - q;
    assert micros * 1000 - nanos == d * 1000 - r;
  }

  lemma EvenShift(n: int, k: int)
    ensures (n - 2 * k) % 2 == n % 2
  {
  }

  /** So an instant is stored in one way only. */
  lemma NearestIsMicros(micros: int, t: Stamp)
    ensures Nearest(micros, t) <==> micros == Micros(t)
  {
    var fraction := micros - t.seconds * 1_000_000;
    EvenShift(micros, t.seconds * 500_000);
    NearestFractionIsRounded(fraction, t.nanos);
  }

  lemma StoredKeeps(op: Op)
    ensures op.CreateCharging? || op.UpdateCharging? ==>
              op.charge.vehicleId != "" && op.charge.sourceCategoryId != "" && Storable(op.charge)
              ==> KeepsCharge(Stored(op.charge), op.charge)
    ensures op.CreateConsumption? || op.UpdateConsumption? ==>
              op.trip.vehicleId != "" && op.trip.weatherId != "" ==> KeepsTrip(StoredTrip(op.trip), op.trip)
  {
    if op.CreateCharging? || op.UpdateCharging? {
      NearestIsMicros(Micros(op.charge.start), op.charge.start);
      NearestIsMicros(Micros(op.charge.end), op.charge.end);
      RoundedIsNearest(op.charge.kwh, op.charge.kwh * 100.0, 100.0, Rounded(op.charge.kwh, 100.0));
      RoundedIsNearest(op.charge.cost, op.charge.cost * 100.0, 100.0, Rounded(op.charge.cost, 100.0));
    }
    if op.CreateConsumption? || op.UpdateConsumption? {
      NearestIsMicros(Micros(op.trip.start), op.trip.start);
      NearestIsMicros(Micros(op.trip.end), op.trip.end);
      RoundedIsNearest(op.trip.highest, op.trip.highest * 10.0, 10.0, Rounded(op.trip.highest, 10.0));
      RoundedIsNearest(op.trip.lowest, op.trip.lowest * 10.0, 10.0, Rounded(op.trip.lowest, 10.0));
    }
  }

  /** What a statement does to the row of a key: its own becomes what the request describes, others stay. */
  ghost predicate Touches(db: Db, op: Op, key: Key)
    requires Validated(op) && Statement(db, op).Success?
  {
    if key == Target(op) then Describes(op, Lookup(Statement(db, op).value, key))
    else Lookup(Statement(db, op).value, key) == Lookup(db, key)
  }

  lemma ChargeStatementTouches(db: Db, op: Op, key: Key)
    requires Validated(op) && Statement(db, op).Success? && Target(op).ChargeKey?
    ensures Touches(db, op, key)
  {
    StoredKeeps(op);
  }

  lemma TripStatementTouches(db: Db, op: Op, key: Key)
    requires Validated(op) && Statement(db, op).Success? && Target(op).TripKey?
    ensures Touches(db, op, key)
  {
    StoredKeeps(op);
  }

  lemma OtherStatementTouches(db: Db, op: Op, key: Key)
    requires Validated(op) && Statement(db, op).Success? && !Target(op).ChargeKey? && !Target(op).TripKey?
    ensures Touches(db, op, key)
  {
  }

  /** A statement changes its own key only, to what the request describes. */
  lemma StatementTouchesItsKey(db: Db, op: Op, key: Key)
    requires Validated(op) && Statement(db, op).Success?
    ensures Touches(db, op, key)
  {
    match Target(op)
    case ChargeKey(_) => ChargeStatementTouches(db, op, key);
    case TripKey(_) => TripStatementTouches(db, op, key);
    case _ => OtherStatementTouches(db, op, key);
  }

  /** The statement of call `i` took effect. */
  predicate Effective(calls: seq<Call>, i: nat)
    requires i < |calls|
  {
    Writes(After(calls, i), calls[i].op, calls[i].env) && !calls[i].env.commit.Undone?
  }

  /** Call `j` is the last of the first `n` that took effect on this key. */
  ghost predicate LastOn(calls: seq<Call>, n: nat, key: Key, j: nat)
    requires n <= |calls|
  {
    && j < n && Effective(calls, j) && Target(calls[j].op) == key
    && forall k: nat :: j < k < n && Target(calls[k].op) == key ==> !Effective(calls, k)
  }

  ghost predicate NeverOn(calls: seq<Call>, n: nat, key: Key)
    requires n <= |calls|
  {
    forall k: nat :: k < n && Target(calls[k].op) == key ==> !Effective(calls, k)
  }

  lemma CallTouchesItsKey(calls: seq<Call>, i: nat, key: Key)
    requires i < |calls|
    ensures if Effective(calls, i) && Target(calls[i].op) == key
            then Describes(calls[i].op, Lookup(After(calls, i + 1), key))
            else Lookup(After(calls, i + 1), key) == Lookup(After(calls, i), key)
  {
    var db, c := After(calls, i), calls[i];
    assert After(calls, i + 1) == Apply(db, c.op, c.env).1;
    if Writes(db, c.op, c.env) { StatementTouchesItsKey(db, c.op, key); }
  }

  /** Nothing took effect on the key, and it is empty. */
  ghost predicate Untouched(calls: seq<Call>, n: nat, key: Key)
    requires n <= |calls|
  {
    NeverOn(calls, n, key) && Lookup(After(calls, n), key) == None
  }

  /** Call `j` was the last to take effect on the key, and its row is there. */
  ghost predicate Wrote(calls: seq<Call>, n: nat, key: Key, j: nat)
    requires n <= |calls|
  {
    LastOn(calls, n, key, j) && Describes(calls[j].op, Lookup(After(calls, n), key))
  }

  lemma OtherCallsKeep(calls: seq<Call>, n: nat, key: Key, j: nat)
    requires n < |calls| && !(Effective(calls, n) && Target(calls[n].op) == key)
    requires Wrote(calls, n, key, j)
    ensures Wrote(calls, n + 1, key, j)
  {
    CallTouchesItsKey(calls, n, key);
  }

  lemma OtherCallsLeaveEmpty(calls: seq<Call>, n: nat, key: Key)
    requires n < |calls| && !(Effective(calls, n) && Target(calls[n].op) == key)
    requires Untouched(calls, n, key)
    ensures Untouched(calls, n + 1, key)
  {
    CallTouchesItsKey(calls, n, key);
  }

  lemma OwnCallWrites(calls: seq<Call>, n: nat, key: Key)
    requires n < |calls| && Effective(calls, n) && Target(calls[n].op) == key
    ensures Wrote(calls, n + 1, key, n)
  {
    CallTouchesItsKey(calls, n, key);
  }

  ghost predicate Explained(calls: seq<Call>, n: nat, key: Key)
    requires n <= |calls|
  {
    Untouched(calls, n, key) || exists j: nat :: Wrote(calls, n, key, j)
  }

  lemma HistoryStep(calls: seq<Call>, n: nat, key: Key)
    requires n < |calls| && Explained(calls, n, key)
    ensures Explained(calls, n + 1, key)
  {
    if Effective(calls, n) && Target(calls[n].op) == key {
      OwnCallWrites(calls, n, key);
    } else if Untouched(calls, n, key) {
      OtherCallsLeaveEmpty(calls, n, key);
    } else {
      var j: nat :| Wrote(calls, n, key, j);
      OtherCallsKeep(calls, n, key, j);
    }
  }

  lemma EmptyIsUntouched(calls: seq<Call>, key: Key)
    ensures Untouched(calls, 0, key)
  {
  }

  /**
   After any run, what is stored under a key is what the last call that took effect on it described:
   its row, or nothing after a deletion; and nothing if no call took effect on it.
   */
  lemma {:induction false} TablesAreTheHistory(calls: seq<Call>, n: nat, key: Key)
    requires n <= |calls|
    ensures Explained(calls, n, key)
  {
    if n == 0 {
      EmptyIsUntouched(calls, key);
    } else {
      TablesAreTheHistory(calls, n - 1, key);
      HistoryStep(calls, n - 1, key);
    }
  }

  // ---------------------------------------------------------------- where the stored rows are weaker than the checks

  /** What the checks of the handlers promise of stored rows: increasing times and positive amounts. */
  ghost predicate StrictDb(db: Db) {
    && (forall id :: id in db.charges ==> StrictCharge(db.charges[id]))
    && (forall id :: id in db.trips ==> StrictTrip(db.trips[id]))
  }

  predicate StrictCharge(c: Charge) { c.startTime < c.endTime && c.kwh > 0 && c.cost > 0 }

  predicate StrictTrip(t: Trip) { t.start < t.end }

  /** Of a call: its times do not collapse, and its amounts reach half of the last place stored. */
  predicate StrictRequest(op: Op) {
    match op
    case CreateCharging(_, r) => StrictChargeRequest(r)
    case UpdateCharging(_, r) => StrictChargeRequest(r)
    case CreateConsumption(_, r) => !Collapses(r.start, r.end)
    case UpdateConsumption(_, r) => !Collapses(r.start, r.end)
    case _ => true
  }

  predicate StrictChargeRequest(r: ChargeRequest) { !Collapses(r.start, r.end) && r.kwh >= 0.005 && r.cost >= 0.005 }

  lemma StoredChargeIsStrictExactly(r: ChargeRequest)
    requires ValidateCharging(r) && r.vehicleId != "" && r.sourceCategoryId != ""
    ensures StrictCharge(Stored(r)) <==> StrictChargeRequest(r)
  {
    StoredTimesIncreaseExactly(r.start, r.end);
    StoredPositiveExactly(r.kwh);
    StoredPositiveExactly(r.cost);
  }

  lemma StoredTripIsStrictExactly(r: TripRequest)
    requires ValidateConsumption(r) && r.vehicleId != ""
    ensures StrictTrip(StoredTrip(r)) <==> !Collapses(r.start, r.end)
  {
    StoredTimesIncreaseExactly(r.start, r.end);
  }

  lemma ChargeStatementIsStrictExactly(db: Db, op: Op)
    requires StrictDb(db) && Validated(op) && (op.CreateCharging? || op.UpdateCharging?) && Statement(db, op).Success?
    ensures StrictDb(Statement(db, op).value) <==> StrictRequest(op)
  {
    StoredChargeIsStrictExactly(op.charge);
    var id := Target(op).id;
    assert id in Statement(db, op).value.charges && Statement(db, op).value.charges[id] == Stored(op.charge);
  }

  lemma TripStatementIsStrictExactly(db: Db, op: Op)
    requires StrictDb(db) && Validated(op) && (op.CreateConsumption? || op.UpdateConsumption?)
    requires Statement(db, op).Success?
    ensures StrictDb(Statement(db, op).value) <==> StrictRequest(op)
  {
    StoredTripIsStrictExactly(op.trip);
    var id := Target(op).id;
    assert id in Statement(db, op).value.trips && Statement(db, op).value.trips[id] == StoredTrip(op.trip);
  }

  /** On strict tables, a statement leaves strict tables exactly when its request is strict. */
  lemma StatementIsStrictExactly(db: Db, op: Op)
    requires StrictDb(db) && Validated(op) && Statement(db, op).Success?
    ensures StrictDb(Statement(db, op).value) <==> StrictRequest(op)
  {
    if op.CreateCharging? || op.UpdateCharging? {
      ChargeStatementIsStrictExactly(db, op);
    } else if op.CreateConsumption? || op.UpdateConsumption? {
      TripStatementIsStrictExactly(db, op);
    }
  }

  lemma CallIsStrictExactly(calls: seq<Call>, i: nat)
    requires i < |calls| && StrictDb(After(calls, i))
    ensures StrictDb(After(calls, i + 1)) <==> (Effective(calls, i) ==> StrictRequest(calls[i].op))
  {
    var db, c := After(calls, i), calls[i];
    assert After(calls, i + 1) == Apply(db, c.op, c.env).1;
    if Writes(db, c.op, c.env) { StatementIsStrictExactly(db, c.op); }
  }

  /** The tables were strict all along. */
  ghost predicate StrictUpTo(calls: seq<Call>, n: nat)
    requires n <= |calls|
  {
    forall k: nat :: k <= n ==> StrictDb(After(calls, k))
  }

  /** Every call that took effect had a strict request. */
  ghost predicate StrictCalls(calls: seq<Call>, n: nat)
    requires n <= |calls|
  {
    forall i: nat :: i < n && Effective(calls, i) ==> StrictRequest(calls[i].op)
  }

  lemma StrictUpToStep(calls: seq<Call>, n: nat)
    requires n < |calls|
    ensures StrictUpTo(calls, n + 1) <==> StrictUpTo(calls, n) && StrictDb(After(calls, n + 1))
  {
    forall k: nat | k <= n + 1
      ensures StrictUpTo(calls, n) && StrictDb(After(calls, n + 1)) ==> StrictDb(After(calls, k))
    {
    }
  }

  lemma StrictCallsStep(calls: seq<Call>, n: nat)
    requires n < |calls|
    ensures StrictCalls(calls, n + 1) <==> StrictCalls(calls, n) && (Effective(calls, n) ==> StrictRequest(calls[n].op))
  {
  }

  lemma EmptyIsStrict(calls: seq<Call>)
    ensures StrictUpTo(calls, 0) && StrictCalls(calls, 0)
  {
  }

  ghost predicate StrictExactly(calls: seq<Call>, n: nat)
    requires n <= |calls|
  {
    StrictUpTo(calls, n) <==> StrictCalls(calls, n)
  }

  lemma StrictStep(calls: seq<Call>, n: nat)
    requires n < |calls|
    ensures StrictExactly(calls, n) ==> StrictExactly(calls, n + 1)
  {
    StrictUpToStep(calls, n);
    StrictCallsStep(calls, n);
    if StrictUpTo(calls, n) {
      assert StrictDb(After(calls, n));
      CallIsStrictExactly(calls, n);
    }
  }

  lemma {:induction false} StrictByInduction(calls: seq<Call>, n: nat)
    requires n <= |calls|
    ensures StrictExactly(calls, n)
  {
    if n == 0 {
      EmptyIsStrict(calls);
    } else {
      StrictByInduction(calls, n - 1);
      StrictStep(calls, n - 1);
    }
  }

  /**
   The exact condition over runs: every stored row of every table of the run has increasing times and
   positive amounts if and only if every call that took effect had a request whose times do not
   collapse and whose amounts reach half of the last place.
   */
  lemma EveryRunIsStrictExactly(calls: seq<Call>, n: nat)
    requires n <= |calls|
    ensures StrictUpTo(calls, n) <==> StrictCalls(calls, n)
  {
    StrictByInduction(calls, n);
  }

  /** Storing one charging row from empty tables, all calls succeeding. */
  function OneCharge(r: ChargeRequest): seq<Call>
    requires r.vehicleId != "" && r.sourceCategoryId != ""
  {
    [Call(Op.CreateVehicle(r.vehicleId, Vehicle("plate", 0)), PLAIN),
     Call(Op.CreateCategory(r.sourceCategoryId, "home"), PLAIN),
     Call(Op.CreateCharging("1", r), PLAIN)]
  }

  /** Every accepted request can be the first row of a table. */
  lemma OneChargeIsStored(r: ChargeRequest)
    requires r.vehicleId != "" && r.sourceCategoryId != "" && ValidateCharging(r) && Storable(r)
    ensures "1" in After(OneCharge(r), 3).charges && After(OneCharge(r), 3).charges["1"] == Stored(r)
  {
    var calls := OneCharge(r);
    assert After(calls, 0) == EMPTY;
    assert After(calls, 1) == EMPTY.(vehicles := map[r.vehicleId := Vehicle("plate", 0)]);
    assert After(calls, 2).categories == map[r.sourceCategoryId := "home"];
    assert ChargeRefers(After(calls, 2), r);
  }

  /**
   For a request the handler accepts, the stored row has increasing times, positive energy and
   positive cost exactly when the times do not collapse and both amounts are at least 0.005; else a
   reachable table holds a row that breaks the rule the handler checked.
   */
  lemma StoredRowIsStrictExactly(r: ChargeRequest)
    requires r.vehicleId != "" && r.sourceCategoryId != "" && ValidateCharging(r) && Storable(r)
    ensures "1" in After(OneCharge(r), 3).charges
    ensures var c := After(OneCharge(r), 3).charges["1"];
            && (c.startTime < c.endTime <==> !Collapses(r.start, r.end))
            && (c.kwh > 0 <==> r.kwh >= 0.005)
            && (c.cost > 0 <==> r.cost >= 0.005)
  {
    OneChargeIsStored(r);
    StoredTimesIncreaseExactly(r.start, r.end);
    StoredPositiveExactly(r.kwh);
    StoredPositiveExactly(r.cost);
  }

  /** Storing one consumption row from empty tables, all calls succeeding. */
  function OneTrip(r: TripRequest): seq<Call>
    requires r.vehicleId != "" && r.weatherId != ""
  {
    [Call(Op.CreateVehicle(r.vehicleId, Vehicle("plate", 0)), PLAIN),
     Call(Op.CreateWeather(r.weatherId, "sunny"), PLAIN),
     Call(Op.CreateConsumption("1", r), PLAIN)]
  }

  lemma OneTripIsStored(r: TripRequest)
    requires r.vehicleId != "" && ValidateConsumption(r) && StorableTrip(r)
    ensures "1" in After(OneTrip(r), 3).trips && After(OneTrip(r), 3).trips["1"] == StoredTrip(r)
  {
    var calls := OneTrip(r);
    assert After(calls, 0) == EMPTY;
    assert After(calls, 1) == EMPTY.(vehicles := map[r.vehicleId := Vehicle("plate", 0)]);
    assert After(calls, 2).weathers == map[r.weatherId := "sunny"];
    assert TripRefers(After(calls, 2), r);
  }

  /** A charging row with equal times, no energy and no cost is reachable. */
  lemma WeakChargeIsStored()
    ensures exists r: ChargeRequest ::
              && r.vehicleId != "" && r.sourceCategoryId != "" && ValidateCharging(r) && Storable(r)
              && "1" in After(OneCharge(r), 3).charges
              && var c := After(OneCharge(r), 3).charges["1"];
                 c.startTime == c.endTime && c.kwh == 0 && c.cost == 0
  {
    var r := ChargeRequest("0", Stamp(0, 999_999_999), Stamp(1, 0), 1, 2, 0.001, 0.001, 1, "0");
    assert Rounded(0.001, 100.0) == 0;
    assert ValidateCharging(r) && Storable(r);
    OneChargeIsStored(r);
  }

  /** A consumption row with equal times is reachable. */
  lemma WeakTripIsStored()
    ensures exists r: TripRequest ::
              && r.vehicleId != "" && ValidateConsumption(r) && StorableTrip(r)
              && "1" in After(OneTrip(r), 3).trips
              && After(OneTrip(r), 3).trips["1"].start == After(OneTrip(r), 3).trips["1"].end
  {
    var r := TripRequest("0", Stamp(0, 999_999_999), Stamp(1, 0), 2, 1, 0, 1, 1, 0, 0.0, 0.0, "0");
    assert Rounded(0.0, 10.0) == 0;
    assert ValidateConsumption(r) && StorableTrip(r);
    OneTripIsStored(r);
  }

  // ---------------------------------------------------------------- the reports over a reachable database

  /** In every reachable database the two cost breakdowns and the vehicle summary have equal totals. */
  lemma ThreeAnswersAgreeInEveryRun(calls: seq<Call>, n: nat, ids: seq<Uuid>, trips: seq<Trip>, v: string,
                                    w: Breakdowns.Window,
                                    chargers: seq<Breakdowns.GroupRow<Charger>>,
                                    byCategory: seq<Breakdowns.GroupRow<(Uuid, string)>>)
    requires n <= |calls| && IsScan(After(calls, n).charges, ids)
    requires Breakdowns.IsChargerAnswer(Scan(After(calls, n).charges, ids), v, w, chargers)
    requires Breakdowns.IsCategoryAnswer(Scan(After(calls, n).charges, ids), After(calls, n).categories, v, w,
                                         byCategory)
    ensures Breakdowns.TotalCost(chargers) == Breakdowns.TotalCost(byCategory)
    ensures Breakdowns.TotalKwh(chargers) == Breakdowns.TotalKwh(byCategory)
    ensures var summary := Breakdowns.CostSummary(Scan(After(calls, n).charges, ids), trips, v, w);
            && (summary.Success? <==> v != "" && chargers != [])
            && (summary.Success? ==> summary.value.cost == Breakdowns.TotalCost(byCategory))
            && (summary.Success? ==> summary.value.kwh == Breakdowns.TotalKwh(byCategory))
  {
    EveryRunIsSound(calls, n);
    var rows := Scan(After(calls, n).charges, ids);
    Breakdowns.ChargersAgreeWithSummary(rows, trips, v, w, chargers);
    Breakdowns.ThreeAnswersAgree(rows, trips, After(calls, n).categories, v, w, chargers, byCategory);
  }
}
