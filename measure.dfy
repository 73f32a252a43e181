/**
 * The measurement process (src/cli/src/process/measure.rs): stored devices are paired with the
 * configuration of their kind, each device's stream reads its id registers followed by its
 * measurement registers, and a reading is stored only when the id it shows is the device's.
 * Stream creation and the process loop are not modelled; `make_id`, JSON building and the clock are
 * parameters.
 */
module Measure {
  import opened Bits
  import opened Utf8
  import opened Wrappers
  import Net
  import Register
  import opened ModbusConnection
  import Db
  import ServiceDb
  import Discover

  /** A configured device kind with parsed registers. */
  datatype ParsedDevice = ParsedDevice(
    kind: Text,
    id: seq<Register.IdRegister<Register.RegisterKind>>,
    measurement: seq<Register.MeasurementRegister<Register.RegisterKind>>)

  /** A stored device ready to be measured. */
  datatype Device = Device(
    id: Text,
    kind: Text,
    destination: Destination,
    idRegisters: seq<Register.IdRegister<Register.RegisterKind>>,
    measurementRegisters: seq<Register.MeasurementRegister<Register.RegisterKind>>)

  /** The index of the first configuration of `kind`, if any. */
  function FirstOfKind(configs: seq<ParsedDevice>, kind: Text): (i: Option<nat>)
    ensures i.None? <==> forall j :: 0 <= j < |configs| ==> configs[j].kind != kind
    ensures i.Some? ==>
      (i.value < |configs| && configs[i.value].kind == kind
       && forall j :: 0 <= j < i.value ==> configs[j].kind != kind)
  {
    if |configs| == 0 then None
    else if configs[0].kind == kind then Some(0)
    else
      match FirstOfKind(configs[1..], kind)
      case None => None
      case Some(i) => Some(i + 1)
  }

  /** A stored device measured with `config`'s registers, at its address on the Modbus port. */
  function ToDevice(row: ServiceDb.Device, config: ParsedDevice): (d: Device)
    ensures d.id == row.id && d.kind == row.kind
    ensures d.destination.address.ip == row.address && d.destination.address.port == Net.ModbusPort
    ensures d.destination.slave == row.slave
    ensures d.idRegisters == config.id && d.measurementRegisters == config.measurement
  {
    Device(row.id, row.kind, Destination(Net.ToSocket(row.address), row.slave), config.id, config.measurement)
  }

  /**
   * `get_devices_from_db`: a stored device is kept exactly when some configuration has its kind, and
   * is measured with the first such configuration's registers.
   */
  function DevicesFromDb(rows: seq<ServiceDb.Device>, configs: seq<ParsedDevice>): (ds: seq<Device>)
    ensures |ds| <= |rows|
    ensures forall d :: d in ds <==>
      exists i :: 0 <= i < |rows| && FirstOfKind(configs, rows[i].kind).Some?
        && d == ToDevice(rows[i], configs[FirstOfKind(configs, rows[i].kind).value])
  {
    if |rows| == 0 then []
    else
      var init := rows[..|rows| - 1];
      var last := rows[|rows| - 1];
      assert forall i :: 0 <= i < |init| ==> rows[i] == init[i];
      DevicesFromDb(init, configs)
        + match FirstOfKind(configs, last.kind)
          case None => []
          case Some(i) => [ToDevice(last, configs[i])]
  }

  /** The left values of a list, in order. */
  function Lefts<L, R>(xs: seq<Either<L, R>>): seq<L>
  {
    if |xs| == 0 then []
    else Lefts(xs[..|xs| - 1]) + match xs[|xs| - 1] case Left(l) => [l] case Right(_) => []
  }

  /** The right values of a list, in order. */
  function Rights<L, R>(xs: seq<Either<L, R>>): seq<R>
  {
    if |xs| == 0 then []
    else Rights(xs[..|xs| - 1]) + match xs[|xs| - 1] case Left(_) => [] case Right(r) => [r]
  }

  function AllLeft<L, R>(ls: seq<L>): (xs: seq<Either<L, R>>)
    ensures |xs| == |ls| && forall i :: 0 <= i < |ls| ==> xs[i] == Left(ls[i])
  {
    seq(|ls|, (i: int) requires 0 <= i < |ls| => Left(ls[i]))
  }

  function AllRight<L, R>(rs: seq<R>): (xs: seq<Either<L, R>>)
    ensures |xs| == |rs| && forall j :: 0 <= j < |rs| ==> xs[j] == Right(rs[j])
  {
    seq(|rs|, (j: int) requires 0 <= j < |rs| => Right(rs[j]))
  }

  /** `make_stream`'s register list: all id registers, then all measurement registers, each in order. */
  function StreamRegisters<L, R>(ids: seq<L>, measurements: seq<R>): (xs: seq<Either<L, R>>)
    ensures |xs| == |ids| + |measurements|
    ensures forall i :: 0 <= i < |ids| ==> xs[i] == Left(ids[i])
    ensures forall j :: 0 <= j < |measurements| ==> xs[|ids| + j] == Right(measurements[j])
  {
    AllLeft<L, R>(ids) + AllRight<L, R>(measurements)
  }

  lemma {:induction false} SplitAppend<L, R>(a: seq<Either<L, R>>, b: seq<Either<L, R>>)
    ensures Lefts(a + b) == Lefts(a) + Lefts(b) && Rights(a + b) == Rights(a) + Rights(b)
  {
    if |b| == 0 {
      assert a + b == a;
    } else {
      var init := b[..|b| - 1];
      SplitAppend(a, init);
      assert (a + b)[..|a + b| - 1] == a + init;
    }
  }

  lemma {:induction false} SplitLefts<L, R>(ls: seq<L>)
    ensures Lefts(AllLeft<L, R>(ls)) == ls && Rights(AllLeft<L, R>(ls)) == []
  {
    if |ls| > 0 {
      var init := ls[..|ls| - 1];
      SplitLefts<L, R>(init);
      var xs := AllLeft<L, R>(ls);
      assert xs[..|xs| - 1] == AllLeft<L, R>(init);
      assert ls == init + [ls[|ls| - 1]];
    }
  }

  lemma {:induction false} SplitRights<L, R>(rs: seq<R>)
    ensures Lefts(AllRight<L, R>(rs)) == [] && Rights(AllRight<L, R>(rs)) == rs
  {
    if |rs| > 0 {
      var init := rs[..|rs| - 1];
      SplitRights<L, R>(init);
      var xs := AllRight<L, R>(rs);
      assert xs[..|xs| - 1] == AllRight<L, R>(init);
      assert rs == init + [rs[|rs| - 1]];
    }
  }

  /**
   * Splitting a stream's register list gives back what it was made of: the id registers on the left
   * and the measurement registers on the right.
   */
  lemma StreamSplits<L, R>(ids: seq<L>, measurements: seq<R>)
    ensures Lefts(StreamRegisters(ids, measurements)) == ids
    ensures Rights(StreamRegisters(ids, measurements)) == measurements
  {
    SplitLefts<L, R>(ids);
    SplitRights<L, R>(measurements);
    SplitAppend(AllLeft<L, R>(ids), AllRight<L, R>(measurements));
  }

  datatype ConsolidateError = IdMismatch(expected: Text, got: Text) | DbError

  type StreamValues = seq<Either<Register.IdRegister<Register.RegisterValue>,
                                 Register.MeasurementRegister<Register.RegisterValue>>>

  /**
   * `consolidate`: a reading whose id registers give another id than the device's is refused and
   * nothing is stored; otherwise one measurement from that id, of the measurement registers only, is
   * stored, unless the insert fails.
   */
  method Consolidate(store: ServiceDb.Store, kind: Text, expected: Text, registers: StreamValues, now: int,
                     makeId: Discover.MakeId,
                     serialize: seq<Register.MeasurementRegister<Register.RegisterValue>> -> Text, insertFails: bool)
    returns (r: Result<(), ConsolidateError>)
    requires store.Valid()
    modifies store
    ensures store.Valid()
    ensures var got := makeId(kind, Lefts(registers));
      (got != expected ==> r == Err(IdMismatch(expected, got)) && store.measurements == old(store.measurements))
      && (got == expected && insertFails ==> r == Err(DbError) && store.measurements == old(store.measurements))
      && (got == expected && !insertFails ==>
            r == Ok(()) && store.measurements
              == old(store.measurements) + [Db.Row(old(store.nextMeasurementId), got, now, serialize(Rights(registers)))])
    ensures store.health == old(store.health) && store.logs == old(store.logs) && store.devices == old(store.devices)
  {
    var got := makeId(kind, Lefts(registers));
    if got != expected {
      return Err(IdMismatch(expected, got));
    }
    if insertFails {
      return Err(DbError);
    }
    store.InsertMeasurement(Db.Row(0, got, now, serialize(Rights(registers))));
    return Ok(());
  }
}
