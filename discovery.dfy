/**
 * Device discovery (src/cli/src/process/discovery.rs): every scanned address is expanded into its
 * destinations, each configured device kind is probed there through its detect registers, a match
 * is named by its id registers, and a device not yet stored is added. Register reads are oracles
 * from a destination and a register list to the read result; the scan and the concurrency of the
 * probes are not modelled, the matches being handled one after another.
 */
module Discovery {
  import opened Bits
  import opened Utf8
  import opened Wrappers
  import Net
  import Register
  import opened ModbusConnection
  import ServiceDb

  /** A configured device kind: its name, the registers that recognise it and those that name it. */
  datatype ConfigDevice = ConfigDevice(
    kind: Text,
    detect: seq<Register.DetectRegister<Register.RegisterKind>>,
    id: seq<Register.IdRegister<Register.RegisterKind>>)

  datatype DeviceMatch = DeviceMatch(id: Text, kind: Text, destination: Destination)

  datatype ServerReadError = ServerReadError

  /** `read_from_destination` for detect registers and for id registers. */
  type DetectRead = (Destination, seq<Register.DetectRegister<Register.RegisterKind>>)
    -> Result<seq<Register.DetectRegister<Register.RegisterValue>>, ServerReadError>
  type IdRead = (Destination, seq<Register.IdRegister<Register.RegisterKind>>)
    -> Result<seq<Register.IdRegister<Register.RegisterValue>>, ServerReadError>

  /** The reads yield values the model can display (floating-point values are not modelled). */
  ghost predicate DetectDisplayable(detect: DetectRead)
  {
    forall d, rs :: detect(d, rs).Ok? ==>
      forall k :: 0 <= k < |detect(d, rs).value| ==> detect(d, rs).value[k].storage.Displayable()
  }

  ghost predicate IdDisplayable(id: IdRead)
  {
    forall d, rs :: id(d, rs).Ok? ==>
      forall k :: 0 <= k < |id(d, rs).value| ==> id(d, rs).value[k].storage.Displayable()
  }

  /** The destinations of the scanned addresses, address by address. */
  function Destinations(addresses: seq<Net.SocketAddr>): (ds: seq<Destination>)
    ensures forall d :: d in ds <==> exists a :: a in addresses && d in For(a)
  {
    if |addresses| == 0 then []
    else
      var init := addresses[..|addresses| - 1];
      var last := addresses[|addresses| - 1];
      assert forall a :: a in addresses <==> a in init || a == last;
      Destinations(init) + For(last)
  }

  predicate AllMatch(registers: seq<Register.DetectRegister<Register.RegisterValue>>,
                     isMatch: (Register.Regex, Text) -> bool)
    requires forall k :: 0 <= k < |registers| ==> registers[k].storage.Displayable()
  {
    forall k :: 0 <= k < |registers| ==> Register.Matches(registers[k], isMatch)
  }

  /** The id fold: the display texts of the id registers, concatenated in order. */
  function JoinIds(ids: seq<Register.IdRegister<Register.RegisterValue>>): Text
    requires forall k :: 0 <= k < |ids| ==> ids[k].storage.Displayable()
  {
    if |ids| == 0 then [] else JoinIds(ids[..|ids| - 1]) + Register.Id(ids[|ids| - 1])
  }

  /** Folding a concatenation of register lists concatenates their ids. */
  lemma {:induction false} JoinIdsAppend(a: seq<Register.IdRegister<Register.RegisterValue>>,
                                         b: seq<Register.IdRegister<Register.RegisterValue>>)
    requires forall k :: 0 <= k < |a| ==> a[k].storage.Displayable()
    requires forall k :: 0 <= k < |b| ==> b[k].storage.Displayable()
    ensures forall k :: 0 <= k < |a + b| ==> (a + b)[k].storage.Displayable()
    ensures JoinIds(a + b) == JoinIds(a) + JoinIds(b)
  {
    if |b| > 0 {
      var init := b[..|b| - 1];
      JoinIdsAppend(a, init);
      assert (a + b)[..|a + b| - 1] == a + init;
    } else {
      assert a + b == a;
    }
  }

  /**
   * What probing one device kind at a destination gives: a match exactly when its detect registers
   * were read and all match and its id registers were read, named by the id fold.
   */
  function Matched(device: ConfigDevice, destination: Destination, detect: DetectRead, id: IdRead,
                   isMatch: (Register.Regex, Text) -> bool)
    : (m: Option<DeviceMatch>)
    requires DetectDisplayable(detect) && IdDisplayable(id)
    ensures m.Some? <==>
      (detect(destination, device.detect).Ok? && AllMatch(detect(destination, device.detect).value, isMatch)
       && id(destination, device.id).Ok?)
    ensures m.Some? ==>
      m.value == DeviceMatch(JoinIds(id(destination, device.id).value), device.kind, destination)
  {
    match detect(destination, device.detect)
    case Err(_) => None
    case Ok(registers) =>
      if !AllMatch(registers, isMatch) then None
      else
        match id(destination, device.id)
        case Err(_) => None
        case Ok(ids) => Some(DeviceMatch(JoinIds(ids), device.kind, destination))
  }

  /** `r#match`: the matches of the configured kinds at one destination, in configuration order. */
  function Match(devices: seq<ConfigDevice>, destination: Destination, detect: DetectRead, id: IdRead,
                 isMatch: (Register.Regex, Text) -> bool)
    : (ms: seq<DeviceMatch>)
    requires DetectDisplayable(detect) && IdDisplayable(id)
    ensures |ms| <= |devices|
    ensures forall m :: m in ms <==>
      exists i :: 0 <= i < |devices| && Matched(devices[i], destination, detect, id, isMatch) == Some(m)
  {
    if |devices| == 0 then []
    else
      var init := devices[..|devices| - 1];
      var last := devices[|devices| - 1];
      var rest := Match(init, destination, detect, id, isMatch);
      assert forall i :: 0 <= i < |init| ==> devices[i] == init[i];
      match Matched(last, destination, detect, id, isMatch)
      case None => rest
      case Some(m) => rest + [m]
  }

  /** The lists, concatenated in order. */
  function Flatten<T>(xss: seq<seq<T>>): seq<T>
  {
    if |xss| == 0 then [] else Flatten(xss[..|xss| - 1]) + xss[|xss| - 1]
  }

  lemma {:induction false} FlattenMembers<T>(xss: seq<seq<T>>, x: T)
    ensures x in Flatten(xss) <==> exists k :: 0 <= k < |xss| && x in xss[k]
  {
    if |xss| > 0 {
      var n := |xss| - 1;
      FlattenMembers(xss[..n], x);
      assert forall k :: 0 <= k < n ==> xss[..n][k] == xss[k];
      if x in xss[n] {
        assert 0 <= n < |xss|;
      }
    }
  }

  /** The matches at all destinations, destination by destination. */
  function AllMatches(destinations: seq<Destination>, devices: seq<ConfigDevice>, detect: DetectRead, id: IdRead,
                      isMatch: (Register.Regex, Text) -> bool)
    : seq<DeviceMatch>
    requires DetectDisplayable(detect) && IdDisplayable(id)
  {
    Flatten(seq(|destinations|, (k: int) requires 0 <= k < |destinations| =>
      Match(devices, destinations[k], detect, id, isMatch)))
  }

  /** A match is found at all destinations exactly when it is found at one of them. */
  lemma AllMatchesMembers(destinations: seq<Destination>, devices: seq<ConfigDevice>,
                          detect: DetectRead, id: IdRead, isMatch: (Register.Regex, Text) -> bool, m: DeviceMatch)
    requires DetectDisplayable(detect) && IdDisplayable(id)
    ensures m in AllMatches(destinations, devices, detect, id, isMatch) <==>
      exists k :: 0 <= k < |destinations| && m in Match(devices, destinations[k], detect, id, isMatch)
  {
    var xss := seq(|destinations|, (k: int) requires 0 <= k < |destinations| =>
      Match(devices, destinations[k], detect, id, isMatch));
    FlattenMembers(xss, m);
    assert forall k :: 0 <= k < |destinations| ==> xss[k] == Match(devices, destinations[k], detect, id, isMatch);
  }

  /** The row a match becomes: healthy, at the match's address and slave. */
  function NewDevice(m: DeviceMatch): (d: ServiceDb.Device)
    ensures d.id == m.id && d.kind == m.kind && d.status == ServiceDb.Healthy
    ensures d.address == m.destination.address.ip && d.slave == m.destination.slave
  {
    ServiceDb.Device(m.id, m.kind, ServiceDb.Healthy, None, None, Net.ToIp(m.destination.address), m.destination.slave)
  }

  /** The device table after the matches are handled in order; `fails(k)` says the k-th lookup or insert failed. */
  function Registered(table: map<Text, ServiceDb.Device>, ms: seq<DeviceMatch>, fails: nat -> bool)
    : map<Text, ServiceDb.Device>
  {
    if |ms| == 0 then table
    else
      var k := |ms| - 1;
      var before := Registered(table, ms[..k], fails);
      if fails(k) || ms[k].id in before then before else before[ms[k].id := NewDevice(ms[k])]
  }

  /** Handling match k after the first k. */
  lemma RegisteredStep(table: map<Text, ServiceDb.Device>, ms: seq<DeviceMatch>, k: nat, fails: nat -> bool)
    requires k < |ms|
    ensures var before := Registered(table, ms[..k], fails);
      Registered(table, ms[..k + 1], fails)
      == if fails(k) || ms[k].id in before then before else before[ms[k].id := NewDevice(ms[k])]
  {
    assert ms[..k + 1][..k] == ms[..k];
  }

  /**
   * A stored device is never changed, every new entry comes from a match that did not fail, and every
   * match that did not fail is stored.
   */
  lemma {:induction false} RegisteredFate(table: map<Text, ServiceDb.Device>, ms: seq<DeviceMatch>, fails: nat -> bool)
    ensures var t := Registered(table, ms, fails);
      (forall i :: i in table ==> i in t && t[i] == table[i])
      && (forall i :: i in t ==>
            i in table || exists k :: 0 <= k < |ms| && !fails(k) && ms[k].id == i && t[i] == NewDevice(ms[k]))
      && (forall k :: 0 <= k < |ms| && !fails(k) ==> ms[k].id in t)
  {
    if |ms| > 0 {
      var k := |ms| - 1;
      RegisteredFate(table, ms[..k], fails);
      assert forall j :: 0 <= j < k ==> ms[..k][j] == ms[j];
    }
  }

  /** `Process::execute`: probe every destination of the scanned addresses and store the new devices. */
  method Execute(store: ServiceDb.Store, addresses: seq<Net.SocketAddr>, devices: seq<ConfigDevice>,
                 detect: DetectRead, id: IdRead, isMatch: (Register.Regex, Text) -> bool, fails: nat -> bool)
    requires store.Valid() && DetectDisplayable(detect) && IdDisplayable(id)
    modifies store
    ensures store.Valid()
    ensures store.devices
      == Registered(old(store.devices), AllMatches(Destinations(addresses), devices, detect, id, isMatch), fails)
    ensures store.measurements == old(store.measurements) && store.health == old(store.health)
    ensures store.logs == old(store.logs)
  {
    var matches := AllMatches(Destinations(addresses), devices, detect, id, isMatch);
    ghost var table := store.devices;
    for k := 0 to |matches|
      invariant store.Valid()
      invariant store.devices == Registered(table, matches[..k], fails)
      invariant store.measurements == old(store.measurements) && store.health == old(store.health)
      invariant store.logs == old(store.logs)
    {
      RegisteredStep(table, matches, k, fails);
      HandleMatch(store, matches[k], fails(k));
    }
    assert matches[..|matches|] == matches;
  }

  /** The body of the loop of `execute`: store the device of one match unless it is known or the lookup failed. */
  method HandleMatch(store: ServiceDb.Store, m: DeviceMatch, failed: bool)
    requires store.Valid()
    modifies store
    ensures store.Valid()
    ensures store.devices
      == if failed || m.id in old(store.devices) then old(store.devices) else old(store.devices)[m.id := NewDevice(m)]
    ensures store.measurements == old(store.measurements) && store.health == old(store.health)
    ensures store.logs == old(store.logs)
  {
    if !failed {
      var existing := store.GetDevice(m.id);
      if existing.None? {
        var _ := store.InsertDevice(NewDevice(m));
      }
    }
  }
}
