/**
 * Worker-side Modbus connections (src/cli/src/service/modbus/connection.rs): which destinations a
 * scanned address expands into, the slave-range check, the conversions between the configured
 * `chrono` durations and the runtime durations, and the bounded retry loop of a read.
 */
module ModbusConnection {
  import opened Bits
  import opened Wrappers
  import opened Net

  /** `SimpleSpan`: a register block to read. */
  datatype SimpleSpan = SimpleSpan(address: u16, quantity: u16)

  datatype Destination = Destination(address: SocketAddr, slave: Option<byte>)

  /** `Slave::min_device()` and `Slave::max_device()`: the Modbus unit ids of addressable devices. */
  const MinDevice: byte := 1
  const MaxDevice: byte := 247

  /** The word values a read returns. */
  type Response = seq<u16>

  /** An I/O error, known only by an opaque code. */
  datatype IoError = IoError(code: int)

  datatype ConnectError = Connect(io: IoError) | Slave

  /** The part of a connection the model keeps: the destination it was opened for. */
  datatype Connection = Connection(destination: Destination)
  {
    function Socket(): SocketAddr { destination.address }
    function SlaveId(): Option<byte> { destination.slave }
  }

  function SlavesFrom(address: SocketAddr, first: nat, bound: nat): (ds: seq<Destination>)
    requires first <= bound <= 256
    ensures |ds| == bound - first
    ensures forall i :: 0 <= i < |ds| ==> ds[i] == Destination(address, Some(first + i))
    decreases bound - first
  {
    if first == bound then [] else [Destination(address, Some(first))] + SlavesFrom(address, first + 1, bound)
  }

  /**
   * `Destination::r#for`: one destination per slave from `min_device` up to but excluding
   * `max_device`, then the standalone destination.
   */
  function For(address: SocketAddr): (ds: seq<Destination>)
    ensures |ds| == MaxDevice as int - MinDevice as int + 1
    ensures forall i :: 0 <= i < |ds| - 1 ==> ds[i] == Destination(address, Some(MinDevice as int + i))
    ensures ds[|ds| - 1] == Destination(address, None)
  {
    SlavesFrom(address, MinDevice as int, MaxDevice as int) + [Destination(address, None)]
  }

  /** The destinations of an address are exactly its slaves 1..246 and its standalone destination. */
  lemma ForMembers(address: SocketAddr, d: Destination)
    ensures d in For(address) <==>
      d.address == address && (d.slave.None? || MinDevice <= d.slave.value < MaxDevice)
  {
    var ds := For(address);
    if d.address == address && d.slave.Some? && MinDevice <= d.slave.value < MaxDevice {
      assert ds[d.slave.value - MinDevice as int] == d;
    }
    if d.address == address && d.slave.None? {
      assert ds[|ds| - 1] == d;
    }
  }

  /** `Connection::connect_standalone`; `tcpFailure` is the outcome of `TcpStream::connect`. */
  function ConnectStandalone(socket: SocketAddr, tcpFailure: Option<IoError>): Result<Connection, ConnectError>
  {
    match tcpFailure
    case Some(error) => Err(ConnectError.Connect(error))
    case None => Ok(Connection.Connection(Destination(socket, None)))
  }

  /** `Connection::connect_slave`: the slave must be an addressable device before any connect. */
  function ConnectSlave(socket: SocketAddr, slave: byte, tcpFailure: Option<IoError>): Result<Connection, ConnectError>
  {
    if slave < MinDevice || slave > MaxDevice then Err(Slave)
    else match tcpFailure
      case Some(error) => Err(ConnectError.Connect(error))
      case None => Ok(Connection.Connection(Destination(socket, Some(slave))))
  }

  /** `Connection::connect`. */
  function ConnectDestination(destination: Destination, tcpFailure: Option<IoError>): Result<Connection, ConnectError>
  {
    match destination.slave
    case Some(slave) => ConnectSlave(destination.address, slave, tcpFailure)
    case None => ConnectStandalone(destination.address, tcpFailure)
  }

  /** The slave check rejects exactly the ids outside 1..247, whatever the network would do. */
  lemma ConnectSlaveRange(socket: SocketAddr, slave: byte, tcpFailure: Option<IoError>)
    ensures ConnectSlave(socket, slave, tcpFailure) == Err(Slave) <==> !(MinDevice <= slave <= MaxDevice)
    ensures MinDevice <= slave <= MaxDevice && tcpFailure.None? ==> ConnectSlave(socket, slave, tcpFailure).Ok?
  {
  }

  /**
   * A connection is to the destination it was asked for, and fails only on the slave check or a
   * failed TCP connect.
   */
  lemma ConnectRecordsDestination(destination: Destination, tcpFailure: Option<IoError>)
    ensures ConnectDestination(destination, tcpFailure).Ok? ==>
      (ConnectDestination(destination, tcpFailure).value.destination == destination
       && ConnectDestination(destination, tcpFailure).value.Socket() == destination.address
       && ConnectDestination(destination, tcpFailure).value.SlaveId() == destination.slave)
    ensures ConnectDestination(destination, tcpFailure).Ok? <==>
      (tcpFailure.None? && (destination.slave.Some? ==> MinDevice <= destination.slave.value <= MaxDevice))
  {
  }

  /** The slave 247 is accepted by `connect_slave` but is never among the enumerated destinations. */
  lemma LastSlaveNeverEnumerated(address: SocketAddr)
    ensures ConnectSlave(address, MaxDevice, None).Ok?
    ensures Destination(address, Some(MaxDevice)) !in For(address)
  {
    ForMembers(address, Destination(address, Some(MaxDevice)));
  }

  // Durations.

  const I64Max: int := 0x7FFF_FFFF_FFFF_FFFF
  const U64Modulus: int := 0x1_0000_0000_0000_0000
  const NanosPerMilli: int := 1_000_000

  /** `chrono::Duration` as a signed count of nanoseconds; valid ones span at most `i64::MAX` milliseconds. */
  datatype ChronoDuration = ChronoDuration(nanos: int)
  {
    predicate Valid() { -I64Max * NanosPerMilli <= nanos <= I64Max * NanosPerMilli }
    predicate WholeMilliseconds() { nanos % NanosPerMilli == 0 }
  }

  /** `std::time::Duration` (also `tokio` and `futures_time` durations) as a count of nanoseconds. */
  datatype StdDuration = StdDuration(nanos: nat)

  /** `chrono::Duration::milliseconds`, which panics for `i64::MIN`. */
  function ChronoMilliseconds(ms: int): (d: ChronoDuration)
    requires -I64Max <= ms <= I64Max
    ensures d.Valid() && d.WholeMilliseconds()
    ensures d.nanos == ms * NanosPerMilli
  {
    DivModUnique(ms * NanosPerMilli, NanosPerMilli, ms, 0);
    ChronoDuration(ms * NanosPerMilli)
  }

  /** `num_milliseconds`: whole milliseconds, truncated toward zero. */
  function NumMilliseconds(d: ChronoDuration): (ms: int)
    requires d.Valid()
    ensures -I64Max <= ms <= I64Max
    ensures ms >= 0 <==> d.nanos >= 0 || d.nanos > -NanosPerMilli
    ensures d.nanos >= 0 ==> ms * NanosPerMilli <= d.nanos < (ms + 1) * NanosPerMilli
    ensures d.nanos < 0 ==> (ms - 1) * NanosPerMilli < d.nanos <= ms * NanosPerMilli
  {
    if d.nanos >= 0 then d.nanos / NanosPerMilli else -((-d.nanos) / NanosPerMilli)
  }

  /** `i as u64` for an `i64`: two's-complement reinterpretation. */
  function AsU64(i: int): (u: nat)
    ensures u < U64Modulus
    ensures (u - i) % U64Modulus == 0
    ensures 0 <= i < U64Modulus ==> u == i
    ensures -U64Modulus <= i < 0 ==> u == i + U64Modulus
  {
    var u := i % U64Modulus;
    DivModUnique(u - i, U64Modulus, -(i / U64Modulus), 0);
    if 0 <= i < U64Modulus then DivModUnique(i, U64Modulus, 0, i); u
    else if -U64Modulus <= i < 0 then DivModUnique(i, U64Modulus, -1, i + U64Modulus); u
    else u
  }

  /** `u as i64` for an unsigned value: the low 64 bits read as two's complement. */
  function AsI64(u: nat): (i: int)
    ensures -U64Modulus / 2 <= i < U64Modulus / 2
    ensures i % U64Modulus == u % U64Modulus
  {
    var low := u % U64Modulus;
    if low >= U64Modulus / 2 then
      DivModUnique(low - U64Modulus, U64Modulus, -1, low);
      low - U64Modulus
    else
      DivModUnique(low, U64Modulus, 0, low);
      low
  }

  function FromMillis(ms: nat): StdDuration { StdDuration(ms * NanosPerMilli) }
  function AsMillis(d: StdDuration): nat { d.nanos / NanosPerMilli }

  /** `timeout_from_chrono` and `backoff_from_chrono`: `from_millis(num_milliseconds() as u64)`. */
  function FromChrono(d: ChronoDuration): StdDuration
    requires d.Valid()
  {
    FromMillis(AsU64(NumMilliseconds(d)))
  }

  /**
   * `timeout_to_chrono` and `backoff_to_chrono`: `milliseconds(as_millis() as i64)`, which panics when
   * that cast yields `i64::MIN`.
   */
  function ToChrono(d: StdDuration): ChronoDuration
    requires AsI64(AsMillis(d)) != -U64Modulus / 2
  {
    ChronoMilliseconds(AsI64(AsMillis(d)))
  }

  datatype Params = Params(timeout: StdDuration, backoff: StdDuration, retries: nat)

  /** `Params::new`. */
  function NewParams(timeout: ChronoDuration, backoff: ChronoDuration, retries: nat): Params
    requires timeout.Valid() && backoff.Valid() && retries < 0x1_0000_0000
  {
    Params(FromChrono(timeout), FromChrono(backoff), retries)
  }

  lemma {:induction false} MillisRoundTrip(ms: int)
    requires -I64Max <= ms <= I64Max
    ensures AsMillis(FromMillis(AsU64(ms))) == AsU64(ms)
    ensures AsI64(AsMillis(FromMillis(AsU64(ms)))) == ms
  {
    var u := AsU64(ms);
    DivModUnique(u * NanosPerMilli, NanosPerMilli, u, 0);
    if ms >= 0 {
      DivModUnique(ms, U64Modulus, 0, ms);
    } else {
      DivModUnique(ms, U64Modulus, -1, ms + U64Modulus);
    }
    DivModUnique(u, U64Modulus, 0, u);
  }

  /** Converting there and back keeps the whole milliseconds, truncated toward zero. */
  lemma ChronoRoundTrip(d: ChronoDuration)
    requires d.Valid()
    ensures AsI64(AsMillis(FromChrono(d))) != -U64Modulus / 2
    ensures ToChrono(FromChrono(d)) == ChronoMilliseconds(NumMilliseconds(d))
    ensures d.WholeMilliseconds() ==> ToChrono(FromChrono(d)) == d
  {
    var ms := NumMilliseconds(d);
    MillisRoundTrip(ms);
    if d.WholeMilliseconds() {
      if d.nanos >= 0 {
        DivModUnique(d.nanos, NanosPerMilli, d.nanos / NanosPerMilli, 0);
      } else {
        DivModUnique(-d.nanos, NanosPerMilli, (-d.nanos) / NanosPerMilli, 0);
        assert (-d.nanos) % NanosPerMilli == 0 by {
          DivModUnique(d.nanos, NanosPerMilli, -((-d.nanos) / NanosPerMilli), 0);
        }
      }
    }
  }

  /** `Params::new(t, b, r)` returns `t`, `b` and `r` from its accessors for whole milliseconds. */
  lemma ParamsRoundTrip(timeout: ChronoDuration, backoff: ChronoDuration, retries: nat)
    requires timeout.Valid() && backoff.Valid() && retries < 0x1_0000_0000
    requires timeout.WholeMilliseconds() && backoff.WholeMilliseconds()
    ensures AsI64(AsMillis(NewParams(timeout, backoff, retries).timeout)) != -U64Modulus / 2
    ensures AsI64(AsMillis(NewParams(timeout, backoff, retries).backoff)) != -U64Modulus / 2
    ensures ToChrono(NewParams(timeout, backoff, retries).timeout) == timeout
    ensures ToChrono(NewParams(timeout, backoff, retries).backoff) == backoff
    ensures NewParams(timeout, backoff, retries).retries == retries
  {
    ChronoRoundTrip(timeout);
    ChronoRoundTrip(backoff);
  }

  // Reads.

  datatype ReadError = Connection(io: IoError) | Timeout(io: IoError)

  /**
   * The outcome of one `read_holding_registers(..).timeout(..)`: the outer error is the elapsed
   * timeout, the inner one the I/O error of the read itself.
   */
  datatype TimedRead = Elapsed(elapsed: IoError) | Completed(read: Result<Response, IoError>)

  /** `simple_read_impl` as written: an elapsed timeout becomes `Connection`, an I/O error `Timeout`. */
  function SimpleReadAsWritten(outcome: TimedRead): Result<Response, ReadError>
  {
    match outcome
    case Completed(Ok(response)) => Ok(response)
    case Completed(Err(error)) => Err(ReadError.Timeout(error))
    case Elapsed(error) => Err(ReadError.Connection(error))
  }

  /** `simple_read_impl` with the error names the variants describe. */
  function SimpleRead(outcome: TimedRead): (r: Result<Response, ReadError>)
    ensures r.Err? && r.error.Timeout? <==> outcome.Elapsed?
    ensures r.Err? && r.error.Connection? <==> outcome.Completed? && outcome.read.Err?
    ensures r.Ok? ==> outcome == Completed(Ok(r.value))
  {
    match outcome
    case Completed(Ok(response)) => Ok(response)
    case Completed(Err(error)) => Err(ReadError.Connection(error))
    case Elapsed(error) => Err(ReadError.Timeout(error))
  }

  /** A read that times out is reported as a connection failure, and a failed read as a timeout. */
  lemma SimpleReadSwapsErrors(error: IoError)
    ensures SimpleReadAsWritten(Elapsed(error)) == Err(ReadError.Connection(error))
    ensures SimpleReadAsWritten(Completed(Err(error))) == Err(ReadError.Timeout(error))
    ensures SimpleRead(Elapsed(error)) == Err(ReadError.Timeout(error))
  {
  }

  /**
   * The state of `parameterized_read` after n rounds of its loop, attempt k having outcome
   * `attempt(k)`: the first response, or every error so far in order.
   */
  function Attempts(attempt: nat -> TimedRead, n: nat): Result<Response, seq<ReadError>>
  {
    if n == 0 then Err([])
    else match Attempts(attempt, n - 1)
      case Ok(response) => Ok(response)
      case Err(errors) =>
        match SimpleRead(attempt(n - 1))
        case Ok(response) => Ok(response)
        case Err(error) => Err(errors + [error])
  }

  /** `parameterized_read`: at most `retries` attempts, stopping at the first response. */
  method ParameterizedRead(params: Params, attempt: nat -> TimedRead) returns (r: Result<Response, seq<ReadError>>)
    ensures r == Attempts(attempt, params.retries)
  {
    var retries := params.retries;
    var errors: seq<ReadError> := [];
    var retried := 0;
    var response: Option<Response> := None;
    while response.None? && retried != retries
      invariant retried <= retries
      invariant Attempts(attempt, retried) == (if response.Some? then Ok(response.value) else Err(errors))
      invariant response.Some? ==> Attempts(attempt, retries) == Ok(response.value)
      decreases retries - retried
    {
      match SimpleRead(attempt(retried)) {
        case Ok(data) =>
          response := Some(data);
          OkIsFinal(attempt, retried + 1, retries);
        case Err(error) =>
          errors := errors + [error];
      }
      retried := retried + 1;
    }
    r := if response.Some? then Ok(response.value) else Err(errors);
  }

  /** Once a response is in, later rounds keep it. */
  lemma {:induction false} OkIsFinal(attempt: nat -> TimedRead, m: nat, n: nat)
    requires m <= n && Attempts(attempt, m).Ok?
    ensures Attempts(attempt, n) == Attempts(attempt, m)
    decreases n - m
  {
    if m < n {
      OkIsFinal(attempt, m, n - 1);
    }
  }

  /** The read fails only when every attempt failed, with exactly one error per attempt, in order. */
  lemma {:induction false} AttemptsErrors(attempt: nat -> TimedRead, n: nat)
    ensures Attempts(attempt, n).Err? ==>
      |Attempts(attempt, n).error| == n
      && forall k :: 0 <= k < n ==>
        SimpleRead(attempt(k)).Err? && Attempts(attempt, n).error[k] == SimpleRead(attempt(k)).error
    ensures Attempts(attempt, n).Ok? <==> exists k :: 0 <= k < n && SimpleRead(attempt(k)).Ok?
  {
    if n > 0 {
      AttemptsErrors(attempt, n - 1);
      if Attempts(attempt, n - 1).Ok? {
        var k :| 0 <= k < n - 1 && SimpleRead(attempt(k)).Ok?;
        assert 0 <= k < n;
      }
    }
  }

  /** A successful read returns the response of the first attempt that succeeded. */
  lemma {:induction false} AttemptsFirstResponse(attempt: nat -> TimedRead, n: nat, k: nat)
    requires k < n && SimpleRead(attempt(k)).Ok?
    requires forall j :: 0 <= j < k ==> SimpleRead(attempt(j)).Err?
    ensures Attempts(attempt, n) == Ok(SimpleRead(attempt(k)).value)
  {
    AttemptsErrors(attempt, k);
    assert Attempts(attempt, k).Err?;
    OkIsFinal(attempt, k + 1, n);
  }

  /**
   * No attempt is made past the `retries`-th or after the first response: outcomes there do not
   * change the result.
   */
  lemma {:induction false} AttemptsOnlyUseMade(attempt: nat -> TimedRead, other: nat -> TimedRead, n: nat)
    requires forall k :: 0 <= k < n && (forall j :: 0 <= j < k ==> SimpleRead(attempt(j)).Err?) ==>
      attempt(k) == other(k)
    ensures Attempts(attempt, n) == Attempts(other, n)
  {
    if n > 0 {
      AttemptsOnlyUseMade(attempt, other, n - 1);
      if Attempts(attempt, n - 1).Err? {
        EveryAttemptFailed(attempt, n - 1);
        assert attempt(n - 1) == other(n - 1);
      }
    }
  }

  lemma {:induction false} EveryAttemptFailed(attempt: nat -> TimedRead, n: nat)
    requires Attempts(attempt, n).Err?
    ensures forall j :: 0 <= j < n ==> SimpleRead(attempt(j)).Err?
  {
    if n > 0 {
      EveryAttemptFailed(attempt, n - 1);
    }
  }
}
