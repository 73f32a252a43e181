/**
 * The Modbus worker task (src/cli/src/service/modbus/worker.rs): requests queued as `Storage`
 * records, their partial responses filled span by span over cached per-destination connections,
 * completed, reset or dropped, and a terminate flag that empties the streams.
 *
 * The pure functions on `TaskState` say what one step does; the `Task` class performs the steps on
 * its fields and is proved to agree with them. Channels are replaced by the `sent` log of messages
 * that were delivered, and the network by an `Outcomes` value.
 */
module Worker {
  import opened Wrappers
  import opened Bits
  import opened ModbusConnection

  datatype RequestKind = Oneshot | Stream

  /** A response channel, known by a token. */
  type Sender = nat

  datatype Carrier = Carrier(destination: Destination, spans: seq<SimpleSpan>, kind: RequestKind, sender: Sender)

  datatype TaskRequest = Submit(carrier: Carrier) | Terminate

  type Partial = seq<Option<Response>>

  /** What a completed request is answered with: one word vector per span. */
  type Answer = seq<Response>

  datatype Storage = Storage(id: nat, sender: Sender, destination: Destination, spans: seq<SimpleSpan>,
                             partial: Partial)

  datatype Message = Answered(answer: Answer) | FailedToConnect(error: ConnectError)

  datatype Sent = Sent(to: Sender, message: Message)

  /**
   * The environment of one pass, per storage id: the outcome of a TCP connect if one is attempted,
   * the outcome of every read attempt of every slot, and whether a message to it is delivered.
   */
  datatype Outcomes = Outcomes(tcpFailure: nat -> Option<IoError>, attempts: nat -> nat -> nat -> TimedRead,
                               delivered: nat -> bool)

  datatype TaskState = TaskState(connections: map<Destination, Connection>, oneshots: seq<Storage>,
                                 streams: seq<Storage>, params: Params, terminate: bool, nextId: nat,
                                 sent: seq<Sent>)

  // Carrier::new

  function SimpleSpans<T>(spans: seq<T>, address: T -> u16, quantity: T -> u16): (simple: seq<SimpleSpan>)
    ensures |simple| == |spans|
    ensures forall i :: 0 <= i < |spans| ==> simple[i] == SimpleSpan(address(spans[i]), quantity(spans[i]))
  {
    if |spans| == 0 then []
    else [SimpleSpan(address(spans[0]), quantity(spans[0]))] + SimpleSpans(spans[1..], address, quantity)
  }

  /** `Carrier::new`: the spans become `SimpleSpan`s with the same address and quantity, in order. */
  function NewCarrier<T>(destination: Destination, spans: seq<T>, address: T -> u16, quantity: T -> u16,
                         kind: RequestKind, sender: Sender): (c: Carrier)
    ensures c.destination == destination && c.kind == kind && c.sender == sender
    ensures |c.spans| == |spans|
    ensures forall i :: 0 <= i < |spans| ==>
      c.spans[i].address == address(spans[i]) && c.spans[i].quantity == quantity(spans[i])
  {
    Carrier(destination, SimpleSpans(spans, address, quantity), kind, sender)
  }

  // Invariants

  predicate UniqueIds(items: seq<Storage>)
  {
    forall i, j :: 0 <= i < j < |items| ==> items[i].id != items[j].id
  }

  function Ids(items: seq<Storage>): set<nat>
  {
    set st | st in items :: st.id
  }

  predicate WellFormed(st: Storage) { |st.partial| == |st.spans| }

  /** Every cached connection is to the destination it is cached under. */
  predicate Keyed(connections: map<Destination, Connection>)
  {
    forall d :: d in connections ==> connections[d].destination == d
  }

  /**
   * Ids are unique across both queues and below the next fresh id; each partial has one slot per
   * span; the connection cache is keyed by destination.
   */
  predicate StateValid(s: TaskState)
  {
    Keyed(s.connections) && UniqueIds(s.oneshots) && UniqueIds(s.streams) && Ids(s.oneshots) !! Ids(s.streams)
    && (forall st :: st in s.oneshots ==> st.id < s.nextId && WellFormed(st))
    && (forall st :: st in s.streams ==> st.id < s.nextId && WellFormed(st))
  }

  function Empty(n: nat): (p: Partial)
    ensures |p| == n && forall i :: 0 <= i < n ==> p[i].None?
  {
    seq(n, _ => None)
  }

  // add_new_request and the request handler

  /** A fresh storage for a carrier: the next id and one empty slot per span. */
  function NewStorage(s: TaskState, carrier: Carrier): Storage
  {
    Storage(s.nextId, carrier.sender, carrier.destination, carrier.spans, Empty(|carrier.spans|))
  }

  /** `add_new_request` as written: both kinds are queued as oneshots. */
  function AddNewRequestAsWritten(s: TaskState, carrier: Carrier): TaskState
  {
    s.(oneshots := s.oneshots + [NewStorage(s, carrier)], nextId := s.nextId + 1)
  }

  /** `add_new_request` with a stream queued as a stream. */
  function AddNewRequest(s: TaskState, carrier: Carrier): TaskState
  {
    var storage := NewStorage(s, carrier);
    match carrier.kind
    case Oneshot => s.(oneshots := s.oneshots + [storage], nextId := s.nextId + 1)
    case Stream => s.(streams := s.streams + [storage], nextId := s.nextId + 1)
  }

  /** The body of `try_recv_new_request` and `recv_async_new_request` for one received request. */
  function HandleRequest(s: TaskState, request: TaskRequest): TaskState
  {
    match request
    case Submit(carrier) => AddNewRequest(s, carrier)
    case Terminate => s.(terminate := true)
  }

  lemma IdsAppend(items: seq<Storage>, st: Storage)
    ensures Ids(items + [st]) == Ids(items) + {st.id}
  {
    assert forall x :: x in items + [st] <==> x in items || x == st;
  }

  /**
   * A new request is appended to the queue of its kind, with a fresh id and a partial response of one
   * empty slot per span; nothing else changes and the invariant is kept.
   */
  lemma AddNewRequestAppends(s: TaskState, carrier: Carrier)
    requires StateValid(s)
    ensures var t := AddNewRequest(s, carrier);
      StateValid(t) && t.nextId == s.nextId + 1
      && t.connections == s.connections && t.terminate == s.terminate && t.sent == s.sent
      && (carrier.kind.Oneshot? ==> t.oneshots == s.oneshots + [NewStorage(s, carrier)] && t.streams == s.streams)
      && (carrier.kind.Stream? ==> t.streams == s.streams + [NewStorage(s, carrier)] && t.oneshots == s.oneshots)
    ensures var st := NewStorage(s, carrier);
      st.id !in Ids(s.oneshots) + Ids(s.streams) && |st.partial| == |carrier.spans|
      && forall i :: 0 <= i < |st.partial| ==> st.partial[i].None?
  {
    var t := AddNewRequest(s, carrier);
    var st := NewStorage(s, carrier);
    IdsAppend(s.oneshots, st);
    IdsAppend(s.streams, st);
  }

  /** As written, no request ever reaches the stream queue: streams only shrink. */
  lemma AsWrittenNeverQueuesStreams(s: TaskState, carrier: Carrier)
    requires carrier.kind.Stream?
    ensures AddNewRequestAsWritten(s, carrier).streams == s.streams
    ensures AddNewRequestAsWritten(s, carrier).oneshots == s.oneshots + [NewStorage(s, carrier)]
    ensures AddNewRequest(s, carrier).streams == s.streams + [NewStorage(s, carrier)]
  {
  }

  lemma TerminateSetsFlag(s: TaskState)
    ensures HandleRequest(s, Terminate).terminate
    ensures HandleRequest(s, Terminate) == s.(terminate := true)
  {
  }

  // read

  /** Slot i after a read: kept when already filled, else the outcome of `parameterized_read`. */
  function Slot(partial: Partial, i: nat, retries: nat, attempts: nat -> nat -> TimedRead): Option<Response>
    requires i < |partial|
  {
    if partial[i].Some? then partial[i]
    else match Attempts(attempts(i), retries)
      case Ok(response) => Some(response)
      case Err(_) => None
  }

  /** The first n slots after a read. */
  function Filled(partial: Partial, n: nat, retries: nat, attempts: nat -> nat -> TimedRead): (filled: Partial)
    requires n <= |partial|
    ensures |filled| == n
  {
    if n == 0 then [] else Filled(partial, n - 1, retries, attempts) + [Slot(partial, n - 1, retries, attempts)]
  }

  /** Slots zipped with the spans: as many as the shorter of the two. */
  function SlotCount(storage: Storage): nat
  {
    if |storage.spans| <= |storage.partial| then |storage.spans| else |storage.partial|
  }

  predicate AllSome(p: Partial) { forall i :: 0 <= i < |p| ==> p[i].Some? }

  function Values(p: Partial): (values: Answer)
    requires AllSome(p)
    ensures |values| == |p| && forall i :: 0 <= i < |p| ==> values[i] == p[i].value
  {
    if |p| == 0 then [] else [p[0].value] + Values(p[1..])
  }

  /** `read`'s result: the complete answer when every slot is filled, else the new partial response. */
  function ReadResult(storage: Storage, retries: nat, attempts: nat -> nat -> TimedRead): Either<Partial, Answer>
  {
    var filled := Filled(storage.partial, SlotCount(storage), retries, attempts);
    if AllSome(filled) then Right(Values(filled)) else Left(filled)
  }

  lemma {:induction false} FilledSlots(partial: Partial, n: nat, retries: nat, attempts: nat -> nat -> TimedRead)
    requires n <= |partial|
    ensures forall i :: 0 <= i < n ==> Filled(partial, n, retries, attempts)[i] == Slot(partial, i, retries, attempts)
  {
    if n > 0 {
      FilledSlots(partial, n - 1, retries, attempts);
    }
  }

  /**
   * A read keeps every filled slot and reads only the empty ones; it has one slot per span, and it
   * completes exactly when every slot is filled, with the slot values in span order.
   */
  lemma ReadKeepsAndCompletes(storage: Storage, retries: nat, attempts: nat -> nat -> TimedRead)
    requires WellFormed(storage)
    ensures var r := ReadResult(storage, retries, attempts);
      var filled := Filled(storage.partial, |storage.spans|, retries, attempts);
      (r.Left? ==> |r.left| == |storage.spans|)
      && (r.Right? ==> |r.right| == |storage.spans|)
      && (forall i :: 0 <= i < |storage.spans| && storage.partial[i].Some? ==> filled[i] == storage.partial[i])
      && (forall i :: 0 <= i < |storage.spans| && storage.partial[i].None? ==>
            (filled[i].Some? <==> Attempts(attempts(i), retries).Ok?))
      && (r.Right? <==> forall i :: 0 <= i < |storage.spans| ==> filled[i].Some?)
      && (r.Right? ==> forall i :: 0 <= i < |storage.spans| ==> r.right[i] == filled[i].value)
      && (r.Left? ==> r.left == filled)
  {
    FilledSlots(storage.partial, |storage.spans|, retries, attempts);
  }

  /** `read`: fill the slots in span order, then complete or return the partial response. */
  method Read(storage: Storage, params: Params, attempts: nat -> nat -> TimedRead)
    returns (r: Either<Partial, Answer>)
    ensures r == ReadResult(storage, params.retries, attempts)
  {
    var count := SlotCount(storage);
    var data: Partial := [];
    for i := 0 to count
      invariant data == Filled(storage.partial, i, params.retries, attempts)
    {
      var read: Option<Response>;
      if storage.partial[i].Some? {
        read := storage.partial[i];
      } else {
        var result := ParameterizedRead(params, attempts(i));
        read := if result.Ok? then Some(result.value) else None;
      }
      data := data + [read];
    }
    if AllSome(data) {
      r := Right(Values(data));
    } else {
      r := Left(data);
    }
  }

  // attempt_connection

  datatype ConnectionAttempt = Existing(cached: Connection) | Opened(connection: Connection) | Fail(error: ConnectError)

  /** `attempt_connection`: a cached connection for the destination, else a fresh connect. */
  function AttemptConnection(connections: map<Destination, Connection>, storage: Storage,
                             tcpFailure: Option<IoError>): ConnectionAttempt
  {
    if storage.destination in connections then Existing(connections[storage.destination])
    else match ConnectDestination(storage.destination, tcpFailure)
      case Ok(connection) => Opened(connection)
      case Err(error) => Fail(error)
  }

  /** `entry(destination).or_insert(connection)`. */
  function OrInsert(connections: map<Destination, Connection>, destination: Destination, connection: Connection)
    : map<Destination, Connection>
  {
    if destination in connections then connections else connections[destination := connection]
  }

  /** Delivered messages are appended to the log; undelivered ones are dropped. */
  function Deliver(sent: seq<Sent>, storage: Storage, message: Message, env: Outcomes): seq<Sent>
  {
    if env.delivered(storage.id) then sent + [Sent(storage.sender, message)] else sent
  }

  // One pass over a queue

  /** Which loop of `execute` a pass is: the stream loop as written files failed connections wrongly. */
  datatype Queue = Oneshots | Streams | StreamsAsWritten

  /** The loop state of a pass: the connections, the queue as updated in place, and the ids to remove. */
  datatype PassState = PassState(connections: map<Destination, Connection>, items: seq<Storage>,
                                 remove: seq<nat>, sent: seq<Sent>)

  /** The connection map after an attempt: a new connection is cached under its destination. */
  function Cache(connections: map<Destination, Connection>, storage: Storage, attempt: ConnectionAttempt)
    : map<Destination, Connection>
  {
    if attempt.Opened? then OrInsert(connections, storage.destination, attempt.connection) else connections
  }

  /**
   * What becomes of an entry in one round: None when its id is listed for removal, else the entry as
   * updated in place. `read` is the outcome of `read`, and is used only when a connection was had.
   */
  function Outcome(storage: Storage, attempt: ConnectionAttempt, read: Either<Partial, Answer>, env: Outcomes,
                   queue: Queue): Option<Storage>
  {
    if attempt.Fail? then (if queue == StreamsAsWritten then Some(storage) else None)
    else match read
      case Left(partial) => Some(storage.(partial := partial))
      case Right(_) =>
        if queue != Oneshots && env.delivered(storage.id) then Some(storage.(partial := Empty(|storage.spans|)))
        else None
  }

  /** The messages a round sends: a connection failure, or the complete answer. */
  function Reply(sent: seq<Sent>, storage: Storage, attempt: ConnectionAttempt, read: Either<Partial, Answer>,
                 env: Outcomes): seq<Sent>
  {
    if attempt.Fail? then Deliver(sent, storage, FailedToConnect(attempt.error), env)
    else if read.Right? then Deliver(sent, storage, Answered(read.right), env)
    else sent
  }

  /** One round of a pass loop for the entry at `index`. */
  function Step(l: PassState, index: nat, retries: nat, env: Outcomes, queue: Queue): (next: PassState)
    requires index < |l.items|
    ensures |next.items| == |l.items|
  {
    var storage := l.items[index];
    var attempt := AttemptConnection(l.connections, storage, env.tcpFailure(storage.id));
    var read := if attempt.Fail? then Left(storage.partial) else ReadResult(storage, retries, env.attempts(storage.id));
    var outcome := Outcome(storage, attempt, read, env, queue);
    PassState(Cache(l.connections, storage, attempt),
              if outcome.Some? then l.items[index := outcome.value] else l.items,
              if outcome.None? then l.remove + [storage.id] else l.remove,
              Reply(l.sent, storage, attempt, read, env))
  }

  /** A pass loop after its first n rounds. */
  function Loop(start: PassState, retries: nat, env: Outcomes, queue: Queue, n: nat): (l: PassState)
    requires n <= |start.items|
    ensures |l.items| == |start.items|
  {
    if n == 0 then start else Step(Loop(start, retries, env, queue, n - 1), n - 1, retries, env, queue)
  }

  /** A round whose connection attempt fails: the entry is listed for removal and told so. */
  lemma StepFailed(l: PassState, index: nat, retries: nat, env: Outcomes, queue: Queue, attempt: ConnectionAttempt)
    requires index < |l.items| && queue != StreamsAsWritten
    requires attempt == AttemptConnection(l.connections, l.items[index], env.tcpFailure(l.items[index].id))
    requires attempt.Fail?
    ensures Step(l, index, retries, env, queue)
         == PassState(l.connections, l.items, l.remove + [l.items[index].id],
                      Deliver(l.sent, l.items[index], FailedToConnect(attempt.error), env))
  {
  }

  /** A round whose read is still incomplete: the entry keeps the partial result in place. */
  lemma StepPending(l: PassState, index: nat, retries: nat, env: Outcomes, queue: Queue,
                    attempt: ConnectionAttempt, partial: Partial)
    requires index < |l.items|
    requires attempt == AttemptConnection(l.connections, l.items[index], env.tcpFailure(l.items[index].id))
    requires !attempt.Fail?
    requires ReadResult(l.items[index], retries, env.attempts(l.items[index].id)) == Left(partial)
    ensures Step(l, index, retries, env, queue)
         == PassState(Cache(l.connections, l.items[index], attempt), l.items[index := l.items[index].(partial := partial)],
                      l.remove, l.sent)
  {
  }

  /** A round whose read completes: the answer is sent, and the entry is restarted or listed for removal. */
  lemma StepAnswered(l: PassState, index: nat, retries: nat, env: Outcomes, queue: Queue,
                     attempt: ConnectionAttempt, answer: Answer)
    requires index < |l.items|
    requires attempt == AttemptConnection(l.connections, l.items[index], env.tcpFailure(l.items[index].id))
    requires !attempt.Fail?
    requires ReadResult(l.items[index], retries, env.attempts(l.items[index].id)) == Right(answer)
    ensures var storage := l.items[index];
            var restart := queue != Oneshots && env.delivered(storage.id);
            Step(l, index, retries, env, queue)
            == PassState(Cache(l.connections, storage, attempt),
                         if restart then l.items[index := storage.(partial := Empty(|storage.spans|))] else l.items,
                         if restart then l.remove else l.remove + [storage.id],
                         Deliver(l.sent, storage, Answered(answer), env))
  {
  }

  /** `retain` keeping the entries whose id is not listed. */
  function Retain(items: seq<Storage>, remove: seq<nat>): (kept: seq<Storage>)
    ensures |kept| <= |items|
  {
    if |items| == 0 then []
    else (if items[0].id in remove then [] else [items[0]]) + Retain(items[1..], remove)
  }

  function Start(s: TaskState, items: seq<Storage>): PassState
  {
    PassState(s.connections, items, [], s.sent)
  }

  /** The oneshot pass of one `execute` iteration. */
  function OneshotPass(s: TaskState, env: Outcomes): TaskState
  {
    var l := Loop(Start(s, s.oneshots), s.params.retries, env, Oneshots, |s.oneshots|);
    s.(connections := l.connections, oneshots := Retain(l.items, l.remove), sent := l.sent)
  }

  /** The stream pass; on terminate the streams are dropped without a round. */
  function StreamPassOf(s: TaskState, env: Outcomes, queue: Queue): TaskState
  {
    if s.terminate then s.(streams := [])
    else
      var l := Loop(Start(s, s.streams), s.params.retries, env, queue, |s.streams|);
      s.(connections := l.connections, streams := Retain(l.items, l.remove), sent := l.sent)
  }

  /** The stream pass as written: a stream whose connection fails is never removed. */
  function StreamPassAsWritten(s: TaskState, env: Outcomes): TaskState { StreamPassOf(s, env, StreamsAsWritten) }

  /** The stream pass with a failed connection removing the stream, as it does a oneshot. */
  function StreamPass(s: TaskState, env: Outcomes): TaskState { StreamPassOf(s, env, Streams) }

  /** One iteration of `execute`: take the received requests in order, then both passes. */
  function Iteration(s: TaskState, requests: seq<TaskRequest>, env: Outcomes): TaskState
  {
    StreamPass(OneshotPass(HandleAll(s, requests), env), env)
  }

  /** The requests received in one iteration, handled in the order they arrive. */
  function HandleAll(s: TaskState, requests: seq<TaskRequest>): TaskState
  {
    if |requests| == 0 then s else HandleRequest(HandleAll(s, requests[..|requests| - 1]), requests[|requests| - 1])
  }
}
