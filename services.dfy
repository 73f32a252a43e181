/**
 * The service layer (src/cli/src/services.rs): the conversion of the configured devices into the
 * Modbus client's device table, and the pull and push steps over the database of src/cli/src/db.rs.
 * The Modbus read, the clock, JSON building and the cloud request are parameters.
 */
module Services {
  import opened Bits
  import opened Utf8
  import opened Wrappers
  import Register
  import ConfigFile
  import Cloud
  import Db

  datatype ServiceError = ConfigManager | NetworkScanner | ModbusClient | DbClient | CloudClient

  /** `DeviceDetect` and `DeviceId` of the configuration: one register or a list of them. */
  datatype OneOrMany<T> = One(register: T) | Many(registers: seq<T>)

  function Listed<T>(x: OneOrMany<T>): seq<T>
  {
    match x
    case One(register) => [register]
    case Many(registers) => registers
  }

  datatype ConfigDevice = ConfigDevice(
    detect: OneOrMany<ConfigFile.DetectRegister>,
    id: OneOrMany<ConfigFile.IdRegister>,
    registers: seq<ConfigFile.MeasurementRegister>)

  datatype RegisterConfig = RegisterConfig(name: Text, address: u16, kind: Register.RegisterKind)

  /** The Modbus client's view of one device kind. */
  datatype DeviceConfig = DeviceConfig(
    kind: Text,
    detect: seq<Register.DetectRegister<Register.RegisterKind>>,
    id: seq<Register.IdRegister<Register.RegisterKind>>,
    registers: seq<RegisterConfig>)

  /**
   * One configured device kind as the Modbus client sees it: a single register becomes a list of one,
   * a list keeps every register in order, and each keeps its address, name and kind. A detect pattern
   * becomes a regex exactly when it compiles, and otherwise stays the literal text.
   */
  function ToDeviceConfig(kind: Text, device: ConfigDevice, compile: Text -> Option<Register.Regex>)
    : (c: DeviceConfig)
    ensures c.kind == kind
    ensures device.detect.One? ==> |c.detect| == 1 && c.detect[0].address == device.detect.register.address
    ensures device.id.One? ==> |c.id| == 1 && c.id[0].address == device.id.register.address
    ensures |c.detect| == |Listed(device.detect)| && |c.id| == |Listed(device.id)|
    ensures |c.registers| == |device.registers|
    ensures forall i :: 0 <= i < |c.detect| ==>
      c.detect[i].address == Listed(device.detect)[i].address
      && ConfigFile.FromModbusRegisterKind(c.detect[i].storage) == Listed(device.detect)[i].kind
    ensures forall i :: 0 <= i < |c.id| ==>
      c.id[i].address == Listed(device.id)[i].address
      && ConfigFile.FromModbusRegisterKind(c.id[i].storage) == Listed(device.id)[i].kind
    ensures forall i :: 0 <= i < |c.registers| ==>
      c.registers[i].name == device.registers[i].name && c.registers[i].address == device.registers[i].address
      && ConfigFile.FromModbusRegisterKind(c.registers[i].kind) == device.registers[i].kind
    ensures forall i :: 0 <= i < |c.detect| ==>
      (c.detect[i].pattern.Right? <==> compile(Listed(device.detect)[i].pattern).Some?)
      && (c.detect[i].pattern.Right? ==> c.detect[i].pattern.right == compile(Listed(device.detect)[i].pattern).value)
      && (c.detect[i].pattern.Left? ==> c.detect[i].pattern.left == Listed(device.detect)[i].pattern)
    ensures forall i :: 0 <= i < |c.detect| ==>
      c.detect[i] == ConfigFile.ToModbusDetectRegister(Listed(device.detect)[i], compile)
    ensures forall i :: 0 <= i < |c.id| ==> c.id[i] == ConfigFile.ToModbusIdRegister(Listed(device.id)[i])
    ensures forall i :: 0 <= i < |c.registers| ==> c.registers[i] == ToRegisterConfig(device.registers[i])
  {
    var detect := Listed(device.detect);
    var id := Listed(device.id);
    DeviceConfig(
      kind,
      seq(|detect|, (i: int) requires 0 <= i < |detect| => ConfigFile.ToModbusDetectRegister(detect[i], compile)),
      seq(|id|, (i: int) requires 0 <= i < |id| => ConfigFile.ToModbusIdRegister(id[i])),
      seq(|device.registers|, (i: int) requires 0 <= i < |device.registers| =>
        ToRegisterConfig(device.registers[i])))
  }

  function ToRegisterConfig(register: ConfigFile.MeasurementRegister): (r: RegisterConfig)
    ensures r.name == register.name && r.address == register.address
    ensures ConfigFile.FromModbusRegisterKind(r.kind) == register.kind
  {
    ConfigFile.RegisterKindRoundTrip(register.kind);
    RegisterConfig(register.name, register.address, ConfigFile.ToModbusRegisterKind(register.kind))
  }

  /** The whole device table, one entry per configured kind. */
  function ToDeviceConfigs(devices: seq<(Text, ConfigDevice)>, compile: Text -> Option<Register.Regex>)
    : (cs: seq<DeviceConfig>)
    ensures |cs| == |devices|
    ensures forall i :: 0 <= i < |devices| ==> cs[i] == ToDeviceConfig(devices[i].0, devices[i].1, compile)
  {
    seq(|devices|, (i: int) requires 0 <= i < |devices| => ToDeviceConfig(devices[i].0, devices[i].1, compile))
  }

  /** What the Modbus client returns for one device: its id and the registers it read. */
  datatype DeviceData = DeviceData(id: Text, registers: seq<Register.MeasurementRegister<Register.RegisterValue>>)

  /**
   * The rows `on_pull` stores: one per device datum, from that device, at the time the clock gave for
   * it (`clock(i)` is the i-th reading of `Utc::now`), with the JSON text of its registers.
   */
  function PulledRows(data: seq<DeviceData>, clock: nat -> int,
                      toJson: seq<Register.MeasurementRegister<Register.RegisterValue>> -> Text)
    : (rows: seq<Db.Row>)
    ensures |rows| == |data|
    ensures forall i :: 0 <= i < |data| ==>
      rows[i].source == data[i].id && rows[i].timestamp == clock(i) && rows[i].data == toJson(data[i].registers)
  {
    seq(|data|, (i: int) requires 0 <= i < |data| => Db.Row(0, data[i].id, clock(i), toJson(data[i].registers)))
  }

  /** `on_pull`: a failed read is reported and stores nothing; otherwise every datum is stored, none when there are none. */
  method OnPull(store: Db.Store, read: Result<seq<DeviceData>, ServiceError>, clock: nat -> int,
                toJson: seq<Register.MeasurementRegister<Register.RegisterValue>> -> Text)
    returns (r: Result<(), ServiceError>)
    requires store.Valid()
    modifies store
    ensures store.Valid()
    ensures r.Err? <==> read.Err?
    ensures read.Err? ==> r.error == read.error
    ensures store.measurements == old(store.measurements)
      + (if read.Ok? then Db.Stamped(PulledRows(read.value, clock, toJson), old(store.nextMeasurementId)) else [])
    ensures store.logs == old(store.logs) && store.nextLogId == old(store.nextLogId)
  {
    if read.Err? {
      return Err(read.error);
    }
    var measurements := PulledRows(read.value, clock, toJson);
    if |measurements| == 0 {
      assert Db.Stamped(measurements, store.nextMeasurementId) == [];
      return Ok(());
    }
    store.InsertMeasurements(measurements);
    return Ok(());
  }

  /** The most measurements one push sends. */
  const PushLimit: nat := 1000

  /**
   * The push cursor: the last measurement of the latest successful push, or 0 before the first one.
   */
  function Cursor(logs: seq<Db.Log>): (c: int)
    ensures (forall l :: l in logs ==> !l.kind.Success?) ==> c == 0
    ensures (exists l :: l in logs && l.kind.Success?) ==>
      exists l :: l in logs && l.kind.Success? && c == l.lastMeasurement
        && forall k :: k in logs && k.kind.Success? ==> k.timestamp <= l.timestamp
  {
    match Db.LastSuccessfulLog(logs)
    case None => 0
    case Some(log) => log.lastMeasurement
  }

  /** The log of a push of `batch` at `now`: its largest id, and the outcome of the request. */
  function PushLog(batch: seq<Db.Row>, result: Result<Cloud.Response, Cloud.HttpError>, now: int): (log: Db.Log)
    requires |batch| > 0
    ensures log.timestamp == now
    ensures (exists r :: r in batch && r.id == log.lastMeasurement)
      && forall r :: r in batch ==> r.id <= log.lastMeasurement
    ensures log.kind.Success? <==> result.Ok? && result.value.success
    ensures log.response == Cloud.LogOutcome(result).1
  {
    var (success, text) := Cloud.LogOutcome(result);
    Db.Log(0, now, Db.MaxRow(batch).id, if success then Db.Success else Db.Failure, text)
  }

  /**
   * `on_push`: the measurements after the cursor, at most `PushLimit` of them, are sent, and the
   * outcome is logged under the largest id sent; with nothing to send, nothing is logged.
   */
  method OnPush(store: Db.Store, now: int, push: seq<Cloud.Measurement> -> Result<Cloud.Response, Cloud.HttpError>)
    returns (r: Result<(), ServiceError>)
    requires store.Valid()
    modifies store
    ensures store.Valid() && r.Ok?
    ensures var batch := Db.GetMeasurements(old(store.measurements), Cursor(old(store.logs)), PushLimit);
      store.logs == old(store.logs)
        + (if |batch| == 0 then [] else [PushLog(batch, push(Cloud.ToCloud(batch)), now).(id := old(store.nextLogId))])
    ensures store.measurements == old(store.measurements) && store.nextMeasurementId == old(store.nextMeasurementId)
  {
    var batch := Db.GetMeasurements(store.measurements, Cursor(store.logs), PushLimit);
    if |batch| == 0 {
      return Ok(());
    }
    var result := push(Cloud.ToCloud(batch));
    store.InsertLog(PushLog(batch, result, now));
    return Ok(());
  }

  /** A log at least as recent as all others moves the cursor exactly when it records a success. */
  lemma CursorAfterLog(logs: seq<Db.Log>, log: Db.Log)
    requires forall l :: l in logs ==> l.timestamp <= log.timestamp
    ensures Cursor(logs + [log]) == if log.kind.Success? then log.lastMeasurement else Cursor(logs)
  {
    Db.LatestAppend(logs, log, Db.IsSuccess, Db.LogTime);
  }

  /**
   * A successful push moves the cursor past everything it sent and past nothing it did not send: each
   * stored measurement between the old and the new cursor was in the batch.
   */
  lemma PushSkipsNothing(rows: seq<Db.Row>, logs: seq<Db.Log>, result: Result<Cloud.Response, Cloud.HttpError>,
                         now: int, id: int)
    requires Db.IncreasingIds(rows)
    requires forall l :: l in logs ==> l.timestamp <= now
    requires |Db.GetMeasurements(rows, Cursor(logs), PushLimit)| > 0
    requires result.Ok? && result.value.success
    ensures var batch := Db.GetMeasurements(rows, Cursor(logs), PushLimit);
      var after := Cursor(logs + [PushLog(batch, result, now).(id := id)]);
      after > Cursor(logs)
      && forall r :: r in rows && Cursor(logs) < r.id <= after ==> r in batch
  {
    var batch := Db.GetMeasurements(rows, Cursor(logs), PushLimit);
    var log := PushLog(batch, result, now).(id := id);
    CursorAfterLog(logs, log);
    Db.FetchSkipsNothing(rows, Cursor(logs), PushLimit);
    assert batch[0] in batch;
  }
}
