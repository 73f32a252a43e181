/**
 * The database (src/cli/src/db.rs) as tables held in memory: measurements with ids assigned in
 * insertion order, and the push log. The queries the push protocol relies on are functions on the
 * tables; SQL, the connection pool and database errors are not modelled.
 */
module Db {
  import opened Bits
  import opened Utf8
  import opened Wrappers
  import Net

  datatype DeviceStatus = Healthy | Unreachable | Inactive

  datatype Device = Device(id: Text, status: DeviceStatus, address: Net.IpAddr, slave: Option<byte>)

  /** A measurement or health row; `data` is the text of its JSON value and `timestamp` a point in time. */
  datatype Row = Row(id: int, source: Text, timestamp: int, data: Text)

  datatype LogKind = Success | Failure

  datatype Log = Log(id: int, timestamp: int, lastMeasurement: int, kind: LogKind, response: Text)

  /** Ids grow in table order, as a `bigserial` key assigns them. */
  predicate IncreasingIds(rows: seq<Row>)
  {
    forall i, j :: 0 <= i < j < |rows| ==> rows[i].id < rows[j].id
  }

  /** The rows `where id > from`, in table order. */
  function Above(rows: seq<Row>, from: int): (above: seq<Row>)
    ensures |above| <= |rows|
  {
    if |rows| == 0 then []
    else Above(rows[..|rows| - 1], from) + (if rows[|rows| - 1].id > from then [rows[|rows| - 1]] else [])
  }

  /** A row is selected exactly when it is in the table with an id above the cursor. */
  lemma {:induction false} AboveMembers(rows: seq<Row>, from: int)
    ensures forall r :: r in Above(rows, from) <==> r in rows && r.id > from
  {
    if |rows| > 0 {
      var init := rows[..|rows| - 1];
      AboveMembers(init, from);
      assert rows == init + [rows[|rows| - 1]];
    }
  }

  function Min(a: nat, b: nat): nat { if a <= b then a else b }

  /**
   * `get_measurements` as written has no `order by`: any `limit` of the rows above the cursor (all
   * of them when there are fewer), in any order, is a possible answer.
   */
  predicate AsWrittenBatch(rows: seq<Row>, from: int, limit: nat, batch: seq<Row>)
  {
    |batch| == Min(limit, |Above(rows, from)|)
    && (forall r :: r in batch ==> r in Above(rows, from))
    && (forall i, j :: 0 <= i < j < |batch| ==> batch[i].id != batch[j].id)
  }

  /** `get_measurements` with `order by id`: the first `limit` rows above the cursor. */
  function GetMeasurements(rows: seq<Row>, from: int, limit: nat): (batch: seq<Row>)
  {
    var above := Above(rows, from);
    if |above| <= limit then above else above[..limit]
  }

  /** `max_by` on ids: the last row with the largest id. */
  function MaxRow(batch: seq<Row>): (m: Row)
    requires |batch| > 0
    ensures m in batch && forall r :: r in batch ==> r.id <= m.id
  {
    if |batch| == 1 then batch[0]
    else
      var rest := MaxRow(batch[1..]);
      assert forall r :: r in batch ==> r == batch[0] || r in batch[1..];
      if batch[0].id > rest.id then batch[0] else rest
  }

  lemma {:induction false} AboveIncreasing(rows: seq<Row>, from: int)
    requires IncreasingIds(rows)
    ensures IncreasingIds(Above(rows, from))
  {
    if |rows| > 0 {
      var init := rows[..|rows| - 1];
      assert IncreasingIds(init);
      AboveIncreasing(init, from);
      AboveMembers(init, from);
      var a := Above(init, from);
      forall r | r in a ensures r.id < rows[|rows| - 1].id {
        var k :| 0 <= k < |init| && init[k] == r;
      }
    }
  }

  /**
   * With ids ordered, the ordered batch is a permitted answer of the query as written, and it skips
   * nothing: every row between the cursor and the largest fetched id is in the batch.
   */
  lemma FetchSkipsNothing(rows: seq<Row>, from: int, limit: nat)
    requires IncreasingIds(rows)
    ensures var batch := GetMeasurements(rows, from, limit);
      AsWrittenBatch(rows, from, limit, batch)
      && (forall r :: r in batch ==> r in rows && r.id > from)
      && (|batch| > 0 ==> forall r :: r in rows && from < r.id <= MaxRow(batch).id ==> r in batch)
  {
    var above := Above(rows, from);
    var batch := GetMeasurements(rows, from, limit);
    AboveIncreasing(rows, from);
    AboveMembers(rows, from);
    assert batch == above[..|batch|];
    IncreasingPrefix(above, |batch|);
  }

  /** A prefix of rows with increasing ids has distinct ids and holds every row up to its largest id. */
  lemma IncreasingPrefix(rows: seq<Row>, n: nat)
    requires IncreasingIds(rows) && n <= |rows|
    ensures var prefix := rows[..n];
      (forall r :: r in prefix ==> r in rows)
      && (forall i, j :: 0 <= i < j < n ==> prefix[i].id != prefix[j].id)
      && (n > 0 ==> forall r :: r in rows && r.id <= MaxRow(prefix).id ==> r in prefix)
  {
    var prefix := rows[..n];
    PrefixMembers(rows, n);
    if n > 0 {
      assert IncreasingIds(prefix);
      MaxIsLast(prefix);
      forall r | r in rows && r.id <= rows[n - 1].id ensures r in prefix {
        var k :| 0 <= k < |rows| && rows[k] == r;
        assert k < n;
        assert prefix[k] == r;
      }
    }
  }

  lemma PrefixMembers(rows: seq<Row>, n: nat)
    requires n <= |rows|
    ensures forall r :: r in rows[..n] ==> r in rows
  {
    forall r | r in rows[..n] ensures r in rows {
      var k :| 0 <= k < n && rows[..n][k] == r;
      assert rows[k] == r;
    }
  }

  /** With ids increasing, the row of largest id is the last one. */
  lemma {:induction false} MaxIsLast(batch: seq<Row>)
    requires IncreasingIds(batch) && |batch| > 0
    ensures MaxRow(batch) == batch[|batch| - 1]
  {
    if |batch| > 1 {
      var rest := batch[1..];
      assert IncreasingIds(rest);
      MaxIsLast(rest);
      assert rest[|rest| - 1] == batch[|batch| - 1];
    }
  }

  /** `n` rows with ids 1 to `n`, in order. */
  function Numbered(n: nat): (rows: seq<Row>)
    ensures |rows| == n && forall i :: 0 <= i < n ==> rows[i].id == i + 1
  {
    seq(n, (i: int) => Row(i + 1, [], 0, []))
  }

  /**
   * As written, one more row than the limit is enough to lose a row: the query may answer with every
   * row but the first, the cursor then moves past it, and no later fetch returns it.
   */
  lemma AsWrittenSkipsRow(limit: nat)
    requires limit > 0
    ensures var rows := Numbered(limit + 1);
      var batch := rows[1..];
      AsWrittenBatch(rows, 0, limit, batch) && |batch| > 0
      && MaxRow(batch).id == limit + 1 && rows[0] !in batch
      && forall from: int :: from >= MaxRow(batch).id ==> rows[0] !in Above(rows, from)
  {
    TailIsPermitted(limit);
    TailMax(limit);
    var rows := Numbered(limit + 1);
    assert rows[0].id == 1;
    assert forall r :: r in rows[1..] ==> r.id >= 2;
    forall from: int | from >= MaxRow(rows[1..]).id ensures rows[0] !in Above(rows, from) {
      AboveMembers(rows, from);
    }
  }

  lemma TailIsPermitted(limit: nat)
    ensures AsWrittenBatch(Numbered(limit + 1), 0, limit, Numbered(limit + 1)[1..])
  {
    TailOfDistinct(Numbered(limit + 1), limit);
  }

  lemma TailOfDistinct(rows: seq<Row>, limit: nat)
    requires |rows| == limit + 1
    requires forall i :: 0 <= i < |rows| ==> rows[i].id > 0
    requires forall i, j :: 0 <= i < j < |rows| ==> rows[i].id < rows[j].id
    ensures AsWrittenBatch(rows, 0, limit, rows[1..])
  {
    var batch := rows[1..];
    AboveAll(rows, 0);
    forall r | r in batch ensures r in Above(rows, 0) {
      var k :| 0 <= k < |batch| && batch[k] == r;
      assert rows[k + 1] == r;
    }
    forall i, j | 0 <= i < j < |batch| ensures batch[i].id != batch[j].id {
      assert batch[i] == rows[i + 1] && batch[j] == rows[j + 1];
    }
  }

  lemma TailMax(limit: nat)
    requires limit > 0
    ensures MaxRow(Numbered(limit + 1)[1..]).id == limit + 1
  {
    var batch := Numbered(limit + 1)[1..];
    assert forall r :: r in batch ==> r.id <= limit + 1;
    assert batch[limit - 1].id == limit + 1;
  }

  lemma {:induction false} AboveAll(rows: seq<Row>, from: int)
    requires forall i :: 0 <= i < |rows| ==> rows[i].id > from
    ensures Above(rows, from) == rows
  {
    if |rows| > 0 {
      var init := rows[..|rows| - 1];
      assert forall i :: 0 <= i < |init| ==> init[i] == rows[i];
      AboveAll(init, from);
      assert init + [rows[|rows| - 1]] == rows;
    }
  }

  /**
   * The latest of the entries `keep` accepts by `timestamp`; of entries with the same timestamp the
   * last inserted (`order by timestamp desc limit 1` leaves ties unspecified).
   */
  function Latest<L>(logs: seq<L>, keep: L -> bool, timestamp: L -> int): (latest: Option<L>)
    ensures latest.None? <==> forall l :: l in logs ==> !keep(l)
    ensures latest.Some? ==>
      (latest.value in logs && keep(latest.value)
       && forall l :: l in logs && keep(l) ==> timestamp(l) <= timestamp(latest.value))
  {
    if |logs| == 0 then None
    else
      var rest := Latest(logs[..|logs| - 1], keep, timestamp);
      var last := logs[|logs| - 1];
      assert forall l :: l in logs ==> l in logs[..|logs| - 1] || l == last;
      if keep(last) && (rest.None? || timestamp(last) >= timestamp(rest.value)) then Some(last) else rest
  }

  /** A new log becomes the latest when accepted and not older than the previous latest, else changes nothing. */
  lemma LatestAppend<L>(logs: seq<L>, log: L, keep: L -> bool, timestamp: L -> int)
    ensures var before := Latest(logs, keep, timestamp);
      Latest(logs + [log], keep, timestamp)
        == if keep(log) && (before.None? || timestamp(log) >= timestamp(before.value)) then Some(log) else before
  {
    assert (logs + [log])[..|logs|] == logs;
  }

  predicate IsSuccess(log: Log) { log.kind.Success? }

  function LogTime(log: Log): int { log.timestamp }

  /** `get_last_successful_log`. */
  function LastSuccessfulLog(logs: seq<Log>): Option<Log>
  {
    Latest(logs, IsSuccess, LogTime)
  }

  /** The rows an insert adds: the given rows with consecutive ids from `first`. */
  function Stamped(rows: seq<Row>, first: int): (stamped: seq<Row>)
    ensures |stamped| == |rows|
    ensures forall i :: 0 <= i < |rows| ==> stamped[i] == rows[i].(id := first + i)
  {
    seq(|rows|, (i: int) requires 0 <= i < |rows| => rows[i].(id := first + i))
  }

  class Store {
    var measurements: seq<Row>
    var logs: seq<Log>
    var nextMeasurementId: int
    var nextLogId: int

    /** Ids are assigned in increasing order, each below the next one to assign. */
    predicate Valid()
      reads this
    {
      IncreasingIds(measurements) && (forall r :: r in measurements ==> r.id < nextMeasurementId)
      && (forall i, j :: 0 <= i < j < |logs| ==> logs[i].id < logs[j].id)
      && (forall l :: l in logs ==> l.id < nextLogId)
    }

    /** A fresh database after migration. */
    constructor ()
      ensures Valid() && measurements == [] && logs == [] && nextMeasurementId == 1 && nextLogId == 1
    {
      measurements := [];
      logs := [];
      nextMeasurementId := 1;
      nextLogId := 1;
    }

    /** `insert_measurements`: every row is added in order under a fresh id; the given ids are ignored. */
    method InsertMeasurements(rows: seq<Row>)
      requires Valid()
      modifies this
      ensures Valid()
      ensures measurements == old(measurements) + Stamped(rows, old(nextMeasurementId))
      ensures nextMeasurementId == old(nextMeasurementId) + |rows|
      ensures logs == old(logs) && nextLogId == old(nextLogId)
    {
      ghost var before := measurements;
      for i := 0 to |rows|
        invariant Valid()
        invariant measurements == before + Stamped(rows[..i], old(nextMeasurementId))
        invariant nextMeasurementId == old(nextMeasurementId) + i
        invariant logs == old(logs) && nextLogId == old(nextLogId)
      {
        measurements := measurements + [rows[i].(id := nextMeasurementId)];
        nextMeasurementId := nextMeasurementId + 1;
        assert Stamped(rows[..i + 1], old(nextMeasurementId))
          == Stamped(rows[..i], old(nextMeasurementId)) + [rows[i].(id := old(nextMeasurementId) + i)];
      }
      assert rows[..|rows|] == rows;
    }

    /** `insert_log`: the log is added under a fresh id. */
    method InsertLog(log: Log)
      requires Valid()
      modifies this
      ensures Valid()
      ensures logs == old(logs) + [log.(id := old(nextLogId))] && nextLogId == old(nextLogId) + 1
      ensures measurements == old(measurements) && nextMeasurementId == old(nextMeasurementId)
    {
      logs := logs + [log.(id := nextLogId)];
      nextLogId := nextLogId + 1;
    }
  }
}
