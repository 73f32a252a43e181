/**
 * The worker task object: `Task` holds the connection cache, the oneshot and stream queues, the
 * read parameters and the terminate flag as fields, and each method changes them as the task does,
 * proved equal to the corresponding step function of module Worker.
 */
module WorkerTask {
  import opened Wrappers
  import opened ModbusConnection
  import opened Worker
  import opened WorkerPasses

  class Task {
    var connections: map<Destination, Connection>
    var oneshots: seq<Storage>
    var streams: seq<Storage>
    const params: Params
    var terminate: bool
    /** The next fresh request id, standing in for a random UUID. */
    var nextId: nat
    /** The messages delivered to response channels, oldest first. */
    var sent: seq<Sent>

    function State(): TaskState
      reads this
    {
      TaskState(connections, oneshots, streams, params, terminate, nextId, sent)
    }

    predicate Valid()
      reads this
    {
      StateValid(State())
    }

    /** `Task::new`: no connections, no requests, not terminating. */
    constructor (params: Params)
      ensures State() == TaskState(map[], [], [], params, false, 0, [])
      ensures Valid()
    {
      connections := map[];
      oneshots := [];
      streams := [];
      this.params := params;
      terminate := false;
      nextId := 0;
      sent := [];
    }

    /** `add_new_request`, with a stream request queued as a stream. */
    method AddNewRequest(carrier: Carrier)
      requires Valid()
      modifies this
      ensures State() == Worker.AddNewRequest(old(State()), carrier)
      ensures Valid()
    {
      ghost var before := State();
      var storage := Storage(nextId, carrier.sender, carrier.destination, carrier.spans, Empty(|carrier.spans|));
      nextId := nextId + 1;
      match carrier.kind {
        case Oneshot => oneshots := oneshots + [storage];
        case Stream => streams := streams + [storage];
      }
      AddNewRequestAppends(before, carrier);
    }

    /** `try_recv_new_request` once a request has been received. */
    method HandleRequest(request: TaskRequest)
      requires Valid()
      modifies this
      ensures State() == Worker.HandleRequest(old(State()), request)
      ensures Valid()
    {
      match request {
        case Submit(carrier) => AddNewRequest(carrier);
        case Terminate => terminate := true;
      }
    }

    /** The oneshot loop of `execute`, then the `retain` of the oneshots left unanswered. */
    method OneshotPass(env: Outcomes)
      requires Valid()
      modifies this
      ensures State() == Worker.OneshotPass(old(State()), env)
      ensures Valid()
    {
      ghost var before := State();
      ghost var start := Start(before, oneshots);
      var toRemove: seq<nat> := [];
      for index := 0 to |oneshots|
        invariant PassState(connections, oneshots, toRemove, sent) == Loop(start, params.retries, env, Oneshots, index)
        invariant streams == before.streams && terminate == before.terminate && nextId == before.nextId
      {
        toRemove := OneshotRound(index, toRemove, env);
      }
      oneshots := Retain(oneshots, toRemove);
      OneshotPassValid(before, env);
    }

    /** The body of the oneshot loop for the oneshot at `index`. */
    method OneshotRound(index: nat, toRemove: seq<nat>, env: Outcomes) returns (remove: seq<nat>)
      requires index < |oneshots|
      modifies this
      ensures PassState(connections, oneshots, remove, sent)
              == Step(PassState(old(connections), old(oneshots), toRemove, old(sent)), index, params.retries, env, Oneshots)
      ensures streams == old(streams) && terminate == old(terminate) && nextId == old(nextId)
    {
      ghost var round := PassState(connections, oneshots, toRemove, sent);
      remove := toRemove;
      var oneshot := oneshots[index];
      var attempt := AttemptConnection(connections, oneshot, env.tcpFailure(oneshot.id));
      if attempt.Fail? {
        StepFailed(round, index, params.retries, env, Oneshots, attempt);
        if env.delivered(oneshot.id) {
          sent := sent + [Sent(oneshot.sender, FailedToConnect(attempt.error))];
        }
        remove := remove + [oneshot.id];
      } else {
        if attempt.Opened? {
          connections := OrInsert(connections, oneshot.destination, attempt.connection);
        }
        var read := Read(oneshot, params, env.attempts(oneshot.id));
        match read {
          case Left(partial) =>
            StepPending(round, index, params.retries, env, Oneshots, attempt, partial);
            oneshots := oneshots[index := oneshot.(partial := partial)];
          case Right(answer) =>
            StepAnswered(round, index, params.retries, env, Oneshots, attempt, answer);
            if env.delivered(oneshot.id) {
              sent := sent + [Sent(oneshot.sender, Answered(answer))];
            }
            remove := remove + [oneshot.id];
        }
      }
    }

    /** The stream part of `execute`: drop every stream on terminate, else the stream loop and `retain`. */
    method StreamPass(env: Outcomes)
      requires Valid()
      modifies this
      ensures State() == Worker.StreamPass(old(State()), env)
      ensures Valid()
    {
      ghost var before := State();
      if terminate {
        if |streams| != 0 {
          streams := [];
        }
      } else {
        ghost var start := Start(before, streams);
        var toRemove: seq<nat> := [];
        for index := 0 to |streams|
          invariant PassState(connections, streams, toRemove, sent) == Loop(start, params.retries, env, Streams, index)
          invariant oneshots == before.oneshots && terminate == before.terminate && nextId == before.nextId
        {
          toRemove := StreamRound(index, toRemove, env);
        }
        streams := Retain(streams, toRemove);
      }
      StreamPassValid(before, env, Streams);
    }

    /** The body of the stream loop for the stream at `index`. */
    method StreamRound(index: nat, toRemove: seq<nat>, env: Outcomes) returns (remove: seq<nat>)
      requires index < |streams|
      modifies this
      ensures PassState(connections, streams, remove, sent)
              == Step(PassState(old(connections), old(streams), toRemove, old(sent)), index, params.retries, env, Streams)
      ensures oneshots == old(oneshots) && terminate == old(terminate) && nextId == old(nextId)
    {
      ghost var round := PassState(connections, streams, toRemove, sent);
      remove := toRemove;
      var stream := streams[index];
      var attempt := AttemptConnection(connections, stream, env.tcpFailure(stream.id));
      if attempt.Fail? {
        StepFailed(round, index, params.retries, env, Streams, attempt);
        if env.delivered(stream.id) {
          sent := sent + [Sent(stream.sender, FailedToConnect(attempt.error))];
        }
        remove := remove + [stream.id];
      } else {
        if attempt.Opened? {
          connections := OrInsert(connections, stream.destination, attempt.connection);
        }
        var read := Read(stream, params, env.attempts(stream.id));
        match read {
          case Left(partial) =>
            StepPending(round, index, params.retries, env, Streams, attempt, partial);
            streams := streams[index := stream.(partial := partial)];
          case Right(answer) =>
            StepAnswered(round, index, params.retries, env, Streams, attempt, answer);
            if env.delivered(stream.id) {
              sent := sent + [Sent(stream.sender, Answered(answer))];
              streams := streams[index := stream.(partial := Empty(|stream.spans|))];
            } else {
              remove := remove + [stream.id];
            }
        }
      }
    }

    /** One iteration of the `execute` loop: the received requests in order, then both passes. */
    method Iterate(requests: seq<TaskRequest>, env: Outcomes)
      requires Valid()
      modifies this
      ensures State() == Iteration(old(State()), requests, env)
      ensures Valid()
    {
      ghost var before := State();
      for i := 0 to |requests|
        invariant Valid()
        invariant State() == HandleAll(before, requests[..i])
      {
        assert requests[..i + 1][..i] == requests[..i];
        HandleRequest(requests[i]);
      }
      assert requests[..|requests|] == requests;
      OneshotPass(env);
      StreamPass(env);
    }
  }
}
