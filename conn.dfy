/**
 * Reading register spans over an established connection (src/cli/src/modbus/conn.rs): a read is
 * retried up to `retries` more times, its words are parsed, and a list of spans is read in order.
 */
module ModbusConn {
  import opened Wrappers
  import opened ModbusConnection

  datatype ConnectionReadError = Connection(io: IoError) | Parse

  /** `flatten_result`: the timeout error and the read error are both I/O errors. */
  function Flatten(outcome: TimedRead): (r: Result<Response, IoError>)
    ensures r.Ok? <==> outcome.Completed? && outcome.read.Ok?
  {
    match outcome
    case Elapsed(error) => Err(error)
    case Completed(read) => read
  }

  /** `result` after the first read and n retries of `read_span`'s loop. */
  function Retried(attempt: nat -> TimedRead, n: nat): Result<Response, IoError>
  {
    if n == 0 then Flatten(attempt(0))
    else if Retried(attempt, n - 1).Ok? then Retried(attempt, n - 1)
    else Flatten(attempt(n))
  }

  /** The reads after the first one. */
  function Later(attempt: nat -> TimedRead): nat -> TimedRead
  {
    (k: nat) => attempt(k + 1)
  }

  /** How many reads `read_span` makes: up to the first success, at most `retries + 1`. */
  function AttemptsMade(attempt: nat -> TimedRead, retries: nat): (made: nat)
    ensures 1 <= made <= retries + 1
  {
    if retries == 0 || Flatten(attempt(0)).Ok? then 1
    else 1 + AttemptsMade(Later(attempt), retries - 1)
  }

  /** `read_span` for a span whose words `parse` decodes. */
  function ReadSpanResult<P>(retries: nat, attempt: nat -> TimedRead, parse: Response -> Option<P>)
    : (r: Result<P, ConnectionReadError>)
    ensures r.Err? && r.error.Parse? <==> Retried(attempt, retries).Ok? && parse(Retried(attempt, retries).value).None?
    ensures r.Err? && r.error.Connection? <==> Retried(attempt, retries).Err?
    ensures r.Err? && r.error.Connection? ==> r.error.io == Retried(attempt, retries).error
    ensures r.Ok? ==> Some(r.value) == parse(Retried(attempt, retries).value)
  {
    match Retried(attempt, retries)
    case Err(error) => Err(ConnectionReadError.Connection(error))
    case Ok(data) =>
      match parse(data)
      case None => Err(Parse)
      case Some(parsed) => Ok(parsed)
  }

  lemma {:induction false} RetriedOkIsFinal(attempt: nat -> TimedRead, m: nat, n: nat)
    requires m <= n && Retried(attempt, m).Ok?
    ensures Retried(attempt, n) == Retried(attempt, m)
    decreases n - m
  {
    if m < n {
      RetriedOkIsFinal(attempt, m, n - 1);
    }
  }

  /** `read_span`: read once, retry while the read fails and retries remain, then parse. */
  method ReadSpan<P>(retries: nat, attempt: nat -> TimedRead, parse: Response -> Option<P>)
    returns (r: Result<P, ConnectionReadError>)
    ensures r == ReadSpanResult(retries, attempt, parse)
  {
    var retried := 0;
    var result := Flatten(attempt(0));
    while result.Err? && retried != retries
      invariant retried <= retries
      invariant result == Retried(attempt, retried)
      decreases retries - retried
    {
      result := Flatten(attempt(retried + 1));
      retried := retried + 1;
    }
    if result.Ok? {
      RetriedOkIsFinal(attempt, retried, retries);
    }
    match result {
      case Err(error) =>
        r := Err(ConnectionReadError.Connection(error));
      case Ok(data) =>
        var parsed := parse(data);
        r := if parsed.Some? then Ok(parsed.value) else Err(Parse);
    }
  }

  /**
   * All reads failed exactly when the result is an error, and then the error is the last read's:
   * `retries + 1` reads were made.
   */
  lemma {:induction false} RetriedFailure(attempt: nat -> TimedRead, n: nat)
    ensures Retried(attempt, n).Err? <==> forall k :: 0 <= k <= n ==> Flatten(attempt(k)).Err?
    ensures Retried(attempt, n).Err? ==> Retried(attempt, n) == Flatten(attempt(n))
  {
    if n > 0 {
      RetriedFailure(attempt, n - 1);
    }
  }

  /** A successful read returns the words of the first read that succeeded. */
  lemma {:induction false} RetriedFirstSuccess(attempt: nat -> TimedRead, n: nat, k: nat)
    requires k <= n && Flatten(attempt(k)).Ok?
    requires forall j :: 0 <= j < k ==> Flatten(attempt(j)).Err?
    ensures Retried(attempt, n) == Flatten(attempt(k))
  {
    if k > 0 {
      RetriedFailure(attempt, k - 1);
    }
    RetriedOkIsFinal(attempt, k, n);
  }

  /**
   * Only the first `AttemptsMade` reads are made: reads after the first success, or past
   * `retries + 1`, do not change the result.
   */
  lemma {:induction false} RetriedOnlyUsesMade(attempt: nat -> TimedRead, other: nat -> TimedRead, retries: nat)
    requires forall k :: 0 <= k < AttemptsMade(attempt, retries) ==> attempt(k) == other(k)
    ensures Retried(attempt, retries) == Retried(other, retries)
    ensures AttemptsMade(other, retries) == AttemptsMade(attempt, retries)
  {
    assert attempt(0) == other(0);
    if retries > 0 && Flatten(attempt(0)).Err? {
      var next := Later(attempt);
      var otherNext := Later(other);
      forall k | 0 <= k < AttemptsMade(next, retries - 1)
        ensures next(k) == otherNext(k)
      {
        assert attempt(k + 1) == other(k + 1);
      }
      RetriedOnlyUsesMade(next, otherNext, retries - 1);
      RetriedShift(attempt, retries - 1);
      RetriedShift(other, retries - 1);
    } else if Flatten(attempt(0)).Ok? {
      RetriedOkIsFinal(attempt, 0, retries);
      RetriedOkIsFinal(other, 0, retries);
    }
  }

  /** After a failed first read, the rest of the loop is the loop over the later reads. */
  lemma {:induction false} RetriedShift(attempt: nat -> TimedRead, n: nat)
    requires Flatten(attempt(0)).Err?
    ensures Retried(attempt, n + 1) == Retried(Later(attempt), n)
  {
    var next := Later(attempt);
    if n > 0 {
      RetriedShift(attempt, n - 1);
    } else {
      assert Retried(attempt, 1) == Flatten(attempt(1));
      assert next(0) == attempt(1);
    }
  }

  /** `read_spans`: one `read_span` per span, in span order. */
  method ReadSpans<U, P>(spans: seq<U>, retries: nat, attempt: nat -> nat -> TimedRead,
                         parse: U -> Response -> Option<P>)
    returns (results: seq<Result<P, ConnectionReadError>>)
    ensures |results| == |spans|
    ensures forall i :: 0 <= i < |spans| ==> results[i] == ReadSpanResult(retries, attempt(i), parse(spans[i]))
  {
    results := [];
    for i := 0 to |spans|
      invariant |results| == i
      invariant forall j :: 0 <= j < i ==> results[j] == ReadSpanResult(retries, attempt(j), parse(spans[j]))
    {
      var parsed := ReadSpan(retries, attempt(i), parse(spans[i]));
      results := results + [parsed];
    }
  }
}
