/**
 * The database the processes of src/cli/src/process/ call: measurement and health rows, a log with
 * a status and a kind per entry, and the device table keyed by device id. Its queries are inferred
 * from those calls and from src/cli/src/db.rs; src/cli/src/service/db.rs is not part of this model.
 */
module ServiceDb {
  import opened Bits
  import opened Utf8
  import opened Wrappers
  import Net
  import Db
  import Cloud

  datatype LogStatus = Success | Failure

  datatype LogKind = Push | Update

  datatype Log = Log(id: int, timestamp: int, last: int, status: LogStatus, kind: LogKind, response: Text)

  datatype DeviceStatus = Healthy | Unreachable | Inactive

  /** A device row; `seen` and `pinged` are absent in rows written without them. */
  datatype Device = Device(id: Text, kind: Text, status: DeviceStatus, seen: Option<int>, pinged: Option<int>,
                           address: Net.IpAddr, slave: Option<byte>)

  /** `get_last_successful_push_log` or `get_last_successful_update_log`. */
  function LastSuccessful(logs: seq<Log>, kind: LogKind): Option<Log>
  {
    Db.Latest(logs, (l: Log) => l.status.Success? && l.kind == kind, (l: Log) => l.timestamp)
  }

  /** The cursor of `kind`: the `last` of its latest successful log, or 0 before the first one. */
  function Cursor(logs: seq<Log>, kind: LogKind): (c: int)
    ensures (forall l :: l in logs ==> !(l.status.Success? && l.kind == kind)) ==> c == 0
    ensures (exists l :: l in logs && l.status.Success? && l.kind == kind) ==>
      exists l :: l in logs && l.status.Success? && l.kind == kind && c == l.last
        && forall k :: k in logs && k.status.Success? && k.kind == kind ==> k.timestamp <= l.timestamp
  {
    match LastSuccessful(logs, kind)
    case None => 0
    case Some(log) => log.last
  }

  /** A newest log moves the cursor of its own kind when it is a success, and never that of the other kind. */
  lemma CursorAfterLog(logs: seq<Log>, log: Log, kind: LogKind)
    requires forall l :: l in logs ==> l.timestamp <= log.timestamp
    ensures Cursor(logs + [log], kind)
      == if log.status.Success? && log.kind == kind then log.last else Cursor(logs, kind)
  {
    Db.LatestAppend(logs, log, (l: Log) => l.status.Success? && l.kind == kind, (l: Log) => l.timestamp);
  }

  /** The most rows one push or update sends. */
  const BatchLimit: nat := 1000

  /** The log of one batch sent at `now`: its largest id, `kind`, and the outcome of the request. */
  function BatchLog(batch: seq<Db.Row>, result: Result<Cloud.Response, Cloud.HttpError>, now: int, kind: LogKind)
    : (log: Log)
    requires |batch| > 0
    ensures log.timestamp == now && log.kind == kind
    ensures (exists r :: r in batch && r.id == log.last) && forall r :: r in batch ==> r.id <= log.last
    ensures log.status.Success? <==> result.Ok? && result.value.success
    ensures log.response == Cloud.LogOutcome(result).1
  {
    var (success, text) := Cloud.LogOutcome(result);
    Log(0, now, Db.MaxRow(batch).id, if success then Success else Failure, kind, text)
  }

  class Store {
    var measurements: seq<Db.Row>
    var health: seq<Db.Row>
    var logs: seq<Log>
    var devices: map<Text, Device>
    var nextMeasurementId: int
    var nextLogId: int

    /** Row ids grow in insertion order; every device is stored under its own id. */
    predicate Valid()
      reads this
    {
      Db.IncreasingIds(measurements) && (forall r :: r in measurements ==> r.id < nextMeasurementId)
      && Db.IncreasingIds(health)
      && (forall l :: l in logs ==> l.id < nextLogId)
      && (forall id :: id in devices ==> devices[id].id == id)
    }

    constructor ()
      ensures Valid()
      ensures measurements == [] && health == [] && logs == [] && devices == map[]
      ensures nextMeasurementId == 1 && nextLogId == 1
    {
      measurements := [];
      health := [];
      logs := [];
      devices := map[];
      nextMeasurementId := 1;
      nextLogId := 1;
    }

    /** `insert_log`: the log is added under a fresh id. */
    method InsertLog(log: Log)
      requires Valid()
      modifies this
      ensures Valid()
      ensures logs == old(logs) + [log.(id := old(nextLogId))] && nextLogId == old(nextLogId) + 1
      ensures measurements == old(measurements) && health == old(health) && devices == old(devices)
      ensures nextMeasurementId == old(nextMeasurementId)
    {
      logs := logs + [log.(id := nextLogId)];
      nextLogId := nextLogId + 1;
    }

    /** `insert_measurement`: the row is added under a fresh id. */
    method InsertMeasurement(row: Db.Row)
      requires Valid()
      modifies this
      ensures Valid()
      ensures measurements == old(measurements) + [row.(id := old(nextMeasurementId))]
      ensures nextMeasurementId == old(nextMeasurementId) + 1
      ensures health == old(health) && logs == old(logs) && devices == old(devices) && nextLogId == old(nextLogId)
    {
      measurements := measurements + [row.(id := nextMeasurementId)];
      nextMeasurementId := nextMeasurementId + 1;
    }

    /** `get_device`. */
    function GetDevice(id: Text): (d: Option<Device>)
      reads this
      ensures d.Some? <==> id in devices
      ensures d.Some? ==> d.value == devices[id]
    {
      if id in devices then Some(devices[id]) else None
    }

    /** `insert_device`: a new id is added; an id already present is a key conflict and changes nothing. */
    method InsertDevice(device: Device) returns (ok: bool)
      requires Valid()
      modifies this
      ensures Valid()
      ensures ok <==> device.id !in old(devices)
      ensures devices == if ok then old(devices)[device.id := device] else old(devices)
      ensures measurements == old(measurements) && health == old(health) && logs == old(logs)
      ensures nextMeasurementId == old(nextMeasurementId) && nextLogId == old(nextLogId)
    {
      if device.id in devices {
        return false;
      }
      devices := devices[device.id := device];
      return true;
    }

    /** `update_device_destination`: the device's address, slave and times change; no row is an empty update. */
    method UpdateDeviceDestination(id: Text, address: Net.IpAddr, slave: Option<byte>, seen: int, pinged: int)
      requires Valid()
      modifies this
      ensures Valid()
      ensures devices == if id in old(devices)
        then old(devices)[id := old(devices)[id].(address := address, slave := slave, seen := Some(seen), pinged := Some(pinged))]
        else old(devices)
      ensures measurements == old(measurements) && health == old(health) && logs == old(logs)
      ensures nextMeasurementId == old(nextMeasurementId) && nextLogId == old(nextLogId)
    {
      if id in devices {
        devices := devices[id := devices[id].(address := address, slave := slave, seen := Some(seen), pinged := Some(pinged))];
      }
    }
  }
}
