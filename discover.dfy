/**
 * Device discovery with consolidation (src/cli/src/process/discover.rs): like the older discovery, but
 * a device is named by `make_id`, a stored device has its destination and times refreshed, a new
 * one is stored as healthy, and the number of matches whose consolidation failed is reported.
 * `make_id`, the register reads, the clock and database failures are parameters; the matches are
 * handled one after another.
 */
module Discover {
  import opened Bits
  import opened Utf8
  import opened Wrappers
  import Net
  import Register
  import opened ModbusConnection
  import ServiceDb
  import opened Discovery

  /** `make_id`, which is not part of this model. */
  type MakeId = (Text, seq<Register.IdRegister<Register.RegisterValue>>) -> Text

  /** `match_device`: the device, exactly when its detect registers were read and all match. */
  function MatchDevice(device: ConfigDevice, destination: Destination, detect: DetectRead,
                       isMatch: (Register.Regex, Text) -> bool)
    : (r: Option<ConfigDevice>)
    requires DetectDisplayable(detect)
    ensures r.Some? <==>
      detect(destination, device.detect).Ok? && AllMatch(detect(destination, device.detect).value, isMatch)
    ensures r.Some? ==> r.value == device
  {
    match detect(destination, device.detect)
    case Err(_) => None
    case Ok(registers) => if AllMatch(registers, isMatch) then Some(device) else None
  }

  /** `match_id`: nothing when the id registers cannot be read, else the kind, the destination and the made id. */
  function MatchId(device: ConfigDevice, destination: Destination, id: IdRead, makeId: MakeId)
    : (r: Option<DeviceMatch>)
    ensures r.None? <==> id(destination, device.id).Err?
    ensures r.Some? ==>
      (r.value.kind == device.kind && r.value.destination == destination
       && r.value.id == makeId(device.kind, id(destination, device.id).value))
  {
    match id(destination, device.id)
    case Err(_) => None
    case Ok(ids) => Some(DeviceMatch(makeId(device.kind, ids), device.kind, destination))
  }

  /** `match_destination`: the matches of the configured kinds at one destination, in configuration order. */
  function MatchDestination(devices: seq<ConfigDevice>, destination: Destination, detect: DetectRead, id: IdRead,
                            isMatch: (Register.Regex, Text) -> bool, makeId: MakeId)
    : (ms: seq<DeviceMatch>)
    requires DetectDisplayable(detect)
    ensures |ms| <= |devices|
    ensures forall m :: m in ms <==>
      exists i :: 0 <= i < |devices| && MatchDevice(devices[i], destination, detect, isMatch).Some?
        && MatchId(devices[i], destination, id, makeId) == Some(m)
  {
    if |devices| == 0 then []
    else
      var init := devices[..|devices| - 1];
      var last := devices[|devices| - 1];
      var rest := MatchDestination(init, destination, detect, id, isMatch, makeId);
      assert forall i :: 0 <= i < |init| ==> devices[i] == init[i];
      match MatchDevice(last, destination, detect, isMatch)
      case None => rest
      case Some(device) =>
        match MatchId(device, destination, id, makeId)
        case None => rest
        case Some(m) => rest + [m]
  }

  /** The matches at every destination of the scanned addresses. */
  function Matches(addresses: seq<Net.SocketAddr>, devices: seq<ConfigDevice>, detect: DetectRead, id: IdRead,
                   isMatch: (Register.Regex, Text) -> bool, makeId: MakeId)
    : seq<DeviceMatch>
    requires DetectDisplayable(detect)
  {
    var destinations := Destinations(addresses);
    Flatten(seq(|destinations|, (k: int) requires 0 <= k < |destinations| =>
      MatchDestination(devices, destinations[k], detect, id, isMatch, makeId)))
  }

  /** A match is found exactly when it is found at some destination of a scanned address. */
  lemma MatchesMembers(addresses: seq<Net.SocketAddr>, devices: seq<ConfigDevice>, detect: DetectRead, id: IdRead,
                       isMatch: (Register.Regex, Text) -> bool, makeId: MakeId, m: DeviceMatch)
    requires DetectDisplayable(detect)
    ensures m in Matches(addresses, devices, detect, id, isMatch, makeId) <==>
      exists d :: d in Destinations(addresses) && m in MatchDestination(devices, d, detect, id, isMatch, makeId)
  {
    var destinations := Destinations(addresses);
    var xss := seq(|destinations|, (k: int) requires 0 <= k < |destinations| =>
      MatchDestination(devices, destinations[k], detect, id, isMatch, makeId));
    FlattenMembers(xss, m);
    assert forall k :: 0 <= k < |destinations| ==>
      xss[k] == MatchDestination(devices, destinations[k], detect, id, isMatch, makeId);
  }

  /** A device seen for the first time at `now`. */
  function Discovered(m: DeviceMatch, now: int): ServiceDb.Device
  {
    ServiceDb.Device(m.id, m.kind, ServiceDb.Healthy, Some(now), Some(now), Net.ToIp(m.destination.address),
      m.destination.slave)
  }

  /**
   * `consolidate` on the device table: a failed lookup or write changes nothing and gives nothing;
   * otherwise the match comes back unchanged, and its device, stored or new, is at the match's
   * address and slave, seen and pinged at `now`. A stored device keeps its kind and status, a new one
   * is healthy, and no other device changes.
   */
  function Consolidation(table: map<Text, ServiceDb.Device>, m: DeviceMatch, now: int, lookupFails: bool,
                         writeFails: bool)
    : (r: (map<Text, ServiceDb.Device>, Option<DeviceMatch>))
    ensures r.1.None? <==> lookupFails || writeFails
    ensures r.1.None? ==> r.0 == table
    ensures r.1.Some? ==>
      (r.1.value == m && m.id in r.0
       && r.0[m.id].address == m.destination.address.ip && r.0[m.id].slave == m.destination.slave
       && r.0[m.id].seen == Some(now) && r.0[m.id].pinged == Some(now)
       && (m.id in table ==> r.0[m.id].kind == table[m.id].kind && r.0[m.id].status == table[m.id].status)
       && (m.id !in table ==> r.0[m.id].kind == m.kind && r.0[m.id].status == ServiceDb.Healthy)
       && r.0.Keys == table.Keys + {m.id})
    ensures forall i :: i in table && i != m.id ==> i in r.0 && r.0[i] == table[i]
  {
    if lookupFails || writeFails then (table, None)
    else if m.id in table then
      (table[m.id := table[m.id].(address := Net.ToIp(m.destination.address), slave := m.destination.slave,
                                   seen := Some(now), pinged := Some(now))], Some(m))
    else (table[m.id := Discovered(m, now)], Some(m))
  }

  /** `consolidate` on the store. */
  method Consolidate(store: ServiceDb.Store, m: DeviceMatch, now: int, lookupFails: bool, writeFails: bool)
    returns (r: Option<DeviceMatch>)
    requires store.Valid()
    modifies store
    ensures store.Valid()
    ensures (store.devices, r) == Consolidation(old(store.devices), m, now, lookupFails, writeFails)
    ensures store.measurements == old(store.measurements) && store.health == old(store.health)
    ensures store.logs == old(store.logs)
  {
    if lookupFails {
      return None;
    }
    var existing := store.GetDevice(m.id);
    if writeFails {
      return None;
    }
    if existing.Some? {
      store.UpdateDeviceDestination(m.id, Net.ToIp(m.destination.address), m.destination.slave, now, now);
    } else {
      var _ := store.InsertDevice(Discovered(m, now));
    }
    return Some(m);
  }

  /** The device table and the results after consolidating the matches in order. */
  function Consolidations(table: map<Text, ServiceDb.Device>, ms: seq<DeviceMatch>, clock: nat -> int,
                          lookupFails: nat -> bool, writeFails: nat -> bool)
    : (r: (map<Text, ServiceDb.Device>, seq<Option<DeviceMatch>>))
    ensures |r.1| == |ms|
  {
    if |ms| == 0 then (table, [])
    else
      var k := |ms| - 1;
      var (before, results) := Consolidations(table, ms[..k], clock, lookupFails, writeFails);
      var (after, result) := Consolidation(before, ms[k], clock(k), lookupFails(k), writeFails(k));
      (after, results + [result])
  }

  /** The number of failed consolidations among the results. */
  function Failures(results: seq<Option<DeviceMatch>>): nat
  {
    if |results| == 0 then 0
    else Failures(results[..|results| - 1]) + if results[|results| - 1].None? then 1 else 0
  }

  /** The number of the first `n` matches whose lookup or write failed. */
  function Failing(n: nat, lookupFails: nat -> bool, writeFails: nat -> bool): nat
  {
    if n == 0 then 0 else Failing(n - 1, lookupFails, writeFails) + if lookupFails(n - 1) || writeFails(n - 1) then 1 else 0
  }

  /**
   * Each match comes back exactly when neither its lookup nor its write failed, so the logged failure
   * count is the number of matches that met a database failure.
   */
  lemma {:induction false} ConsolidationsResults(table: map<Text, ServiceDb.Device>, ms: seq<DeviceMatch>,
                                                 clock: nat -> int, lookupFails: nat -> bool, writeFails: nat -> bool)
    ensures var results := Consolidations(table, ms, clock, lookupFails, writeFails).1;
      (forall k :: 0 <= k < |ms| ==>
         results[k] == if lookupFails(k) || writeFails(k) then None else Some(ms[k]))
      && Failures(results) == Failing(|ms|, lookupFails, writeFails)
  {
    if |ms| > 0 {
      var k := |ms| - 1;
      ConsolidationsResults(table, ms[..k], clock, lookupFails, writeFails);
      var results := Consolidations(table, ms, clock, lookupFails, writeFails).1;
      assert results[..k] == Consolidations(table, ms[..k], clock, lookupFails, writeFails).1;
    }
  }

  /**
   * `Process::execute`: consolidate every match; the counts returned are those logged, the number of
   * matches and the number of failed consolidations.
   */
  method Execute(store: ServiceDb.Store, addresses: seq<Net.SocketAddr>, devices: seq<ConfigDevice>,
                 detect: DetectRead, id: IdRead, isMatch: (Register.Regex, Text) -> bool, makeId: MakeId,
                 clock: nat -> int, lookupFails: nat -> bool, writeFails: nat -> bool)
    returns (discovered: nat, failures: nat)
    requires store.Valid() && DetectDisplayable(detect)
    modifies store
    ensures store.Valid()
    ensures var ms := Matches(addresses, devices, detect, id, isMatch, makeId);
      var (table, results) := Consolidations(old(store.devices), ms, clock, lookupFails, writeFails);
      store.devices == table && discovered == |ms| && failures == Failures(results)
    ensures store.measurements == old(store.measurements) && store.health == old(store.health)
    ensures store.logs == old(store.logs)
  {
    var ms := Matches(addresses, devices, detect, id, isMatch, makeId);
    ghost var results: seq<Option<DeviceMatch>> := [];
    failures := 0;
    for k := 0 to |ms|
      invariant store.Valid()
      invariant (store.devices, results) == Consolidations(old(store.devices), ms[..k], clock, lookupFails, writeFails)
      invariant failures == Failures(results)
      invariant store.measurements == old(store.measurements) && store.health == old(store.health)
      invariant store.logs == old(store.logs)
    {
      assert ms[..k + 1][..k] == ms[..k];
      var r := Consolidate(store, ms[k], clock(k), lookupFails(k), writeFails(k));
      assert (results + [r])[..|results|] == results;
      results := results + [r];
      if r.None? {
        failures := failures + 1;
      }
    }
    assert ms[..|ms|] == ms;
    discovered := |ms|;
  }
}
