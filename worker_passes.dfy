/**
 * What one pass of the worker loop does to each queued request, proved from the step functions of
 * module Worker: a request is answered or dropped exactly as the connection and read outcomes say,
 * the queue and the connection cache keep their invariants, and sent messages are never retracted.
 */
module WorkerPasses {
  import opened Wrappers
  import opened ModbusConnection
  import opened Worker
  import Net

  /** Two entries for the same request, whatever their partial responses. */
  predicate SameRequest(a: Storage, b: Storage)
  {
    a.id == b.id && a.sender == b.sender && a.destination == b.destination && a.spans == b.spans
  }

  /** A connection map that keeps every old entry. */
  predicate Extends(before: map<Destination, Connection>, after: map<Destination, Connection>)
  {
    forall d :: d in before ==> d in after && after[d] == before[d]
  }

  predicate AllWellFormed(items: seq<Storage>) { forall i :: 0 <= i < |items| ==> WellFormed(items[i]) }

  lemma CacheKeyed(connections: map<Destination, Connection>, storage: Storage, tcpFailure: Option<IoError>)
    requires Keyed(connections)
    ensures var attempt := AttemptConnection(connections, storage, tcpFailure);
      Keyed(Cache(connections, storage, attempt)) && Extends(connections, Cache(connections, storage, attempt))
      && (attempt.Existing? ==> attempt.cached.destination == storage.destination)
      && (attempt.Opened? ==> attempt.connection.destination == storage.destination)
  {
    ConnectRecordsDestination(storage.destination, tcpFailure);
  }

  /** A round touches only the entry at its index, and only that entry's partial response. */
  lemma StepFrame(l: PassState, index: nat, retries: nat, env: Outcomes, queue: Queue)
    requires index < |l.items|
    ensures var next := Step(l, index, retries, env, queue);
      (forall j :: 0 <= j < |l.items| && j != index ==> next.items[j] == l.items[j])
      && SameRequest(next.items[index], l.items[index])
      && (WellFormed(l.items[index]) ==> WellFormed(next.items[index]))
      && (next.remove == l.remove || next.remove == l.remove + [l.items[index].id])
      && l.sent <= next.sent
      && (Keyed(l.connections) ==> Keyed(next.connections) && Extends(l.connections, next.connections))
  {
    StepItems(l, index, retries, env, queue);
    StepLog(l, index, retries, env, queue);
    if Keyed(l.connections) {
      StepCache(l, index, retries, env, queue);
    }
  }

  /** The entries after a round: only the one at the index changes, and it stays the same request. */
  lemma StepItems(l: PassState, index: nat, retries: nat, env: Outcomes, queue: Queue)
    requires index < |l.items|
    ensures var next := Step(l, index, retries, env, queue);
      (forall j :: 0 <= j < |l.items| && j != index ==> next.items[j] == l.items[j])
      && SameRequest(next.items[index], l.items[index])
      && (WellFormed(l.items[index]) ==> WellFormed(next.items[index]))
  {
    var storage := l.items[index];
    if WellFormed(storage) {
      ReadKeepsAndCompletes(storage, retries, env.attempts(storage.id));
    }
  }

  /** A round lists at most its own entry for removal and only appends to the log. */
  lemma StepLog(l: PassState, index: nat, retries: nat, env: Outcomes, queue: Queue)
    requires index < |l.items|
    ensures var next := Step(l, index, retries, env, queue);
      (next.remove == l.remove || next.remove == l.remove + [l.items[index].id]) && l.sent <= next.sent
  {
  }

  /** A round keeps the cache keyed by destination and keeps its entries. */
  lemma StepCache(l: PassState, index: nat, retries: nat, env: Outcomes, queue: Queue)
    requires index < |l.items| && Keyed(l.connections)
    ensures var next := Step(l, index, retries, env, queue);
      Keyed(next.connections) && Extends(l.connections, next.connections)
  {
    CacheKeyed(l.connections, l.items[index], env.tcpFailure(l.items[index].id));
  }

  lemma ExtendsTransitive(a: map<Destination, Connection>, b: map<Destination, Connection>,
                          c: map<Destination, Connection>)
    requires Extends(a, b) && Extends(b, c)
    ensures Extends(a, c)
  {
  }

  /** After n rounds every entry is still the same request, and the entries not yet reached are untouched. */
  lemma {:induction false} LoopFrame(start: PassState, retries: nat, env: Outcomes, queue: Queue, n: nat)
    requires n <= |start.items|
    ensures forall i :: 0 <= i < |start.items| ==>
      SameRequest(Loop(start, retries, env, queue, n).items[i], start.items[i])
    ensures forall i :: n <= i < |start.items| ==> Loop(start, retries, env, queue, n).items[i] == start.items[i]
  {
    if n > 0 {
      LoopFrame(start, retries, env, queue, n - 1);
      StepItems(Loop(start, retries, env, queue, n - 1), n - 1, retries, env, queue);
    }
  }

  /** Every entry stays well-formed. */
  lemma {:induction false} LoopWellFormed(start: PassState, retries: nat, env: Outcomes, queue: Queue, n: nat)
    requires n <= |start.items| && AllWellFormed(start.items)
    ensures AllWellFormed(Loop(start, retries, env, queue, n).items)
  {
    if n > 0 {
      LoopWellFormed(start, retries, env, queue, n - 1);
      StepItems(Loop(start, retries, env, queue, n - 1), n - 1, retries, env, queue);
    }
  }

  lemma PrefixTransitive(a: seq<Sent>, b: seq<Sent>, c: seq<Sent>)
    requires a <= b && b <= c
    ensures a <= c
  {
    assert c[..|a|] == b[..|a|];
  }

  /** The log only grows. */
  lemma {:induction false} LoopLog(start: PassState, retries: nat, env: Outcomes, queue: Queue, n: nat)
    requires n <= |start.items|
    ensures start.sent <= Loop(start, retries, env, queue, n).sent
  {
    if n > 0 {
      var before := Loop(start, retries, env, queue, n - 1);
      LoopLog(start, retries, env, queue, n - 1);
      StepLog(before, n - 1, retries, env, queue);
      PrefixTransitive(start.sent, before.sent, Loop(start, retries, env, queue, n).sent);
    }
  }

  /** The cache keeps its entries and stays keyed by destination. */
  lemma {:induction false} LoopCache(start: PassState, retries: nat, env: Outcomes, queue: Queue, n: nat)
    requires n <= |start.items| && Keyed(start.connections)
    ensures Keyed(Loop(start, retries, env, queue, n).connections)
    ensures Extends(start.connections, Loop(start, retries, env, queue, n).connections)
  {
    if n > 0 {
      var before := Loop(start, retries, env, queue, n - 1);
      var next := Loop(start, retries, env, queue, n);
      LoopCache(start, retries, env, queue, n - 1);
      StepCache(before, n - 1, retries, env, queue);
      ExtendsTransitive(start.connections, before.connections, next.connections);
    }
  }

  /** An entry is settled by its own round: later rounds leave it alone. */
  lemma {:induction false} LoopAfter(start: PassState, retries: nat, env: Outcomes, queue: Queue, n: nat, i: nat)
    requires i < n <= |start.items|
    ensures Loop(start, retries, env, queue, n).items[i] == Loop(start, retries, env, queue, i + 1).items[i]
  {
    if n > i + 1 {
      LoopAfter(start, retries, env, queue, n - 1, i);
      StepItems(Loop(start, retries, env, queue, n - 1), n - 1, retries, env, queue);
    }
  }

  /** The log of a later round extends that of an earlier one. */
  lemma {:induction false} LoopLogAfter(start: PassState, retries: nat, env: Outcomes, queue: Queue, m: nat, n: nat)
    requires m <= n <= |start.items|
    ensures Loop(start, retries, env, queue, m).sent <= Loop(start, retries, env, queue, n).sent
  {
    if n > m {
      var before := Loop(start, retries, env, queue, n - 1);
      LoopLogAfter(start, retries, env, queue, m, n - 1);
      StepLog(before, n - 1, retries, env, queue);
      PrefixTransitive(Loop(start, retries, env, queue, m).sent, before.sent, Loop(start, retries, env, queue, n).sent);
    }
  }

  /** With unique ids, an entry's id is listed for removal by its own round or not at all. */
  lemma {:induction false} LoopRemove(start: PassState, retries: nat, env: Outcomes, queue: Queue, n: nat, i: nat)
    requires n <= |start.items| && i < |start.items|
    requires UniqueIds(start.items) && start.items[i].id !in start.remove
    ensures i >= n ==> start.items[i].id !in Loop(start, retries, env, queue, n).remove
    ensures i < n ==> (start.items[i].id in Loop(start, retries, env, queue, n).remove
                       <==> start.items[i].id in Loop(start, retries, env, queue, i + 1).remove)
  {
    if n > 0 && n != i + 1 {
      var before := Loop(start, retries, env, queue, n - 1);
      LoopRemove(start, retries, env, queue, n - 1, i);
      LoopFrame(start, retries, env, queue, n - 1);
      StepItems(before, n - 1, retries, env, queue);
      StepLog(before, n - 1, retries, env, queue);
      assert before.items[n - 1].id == start.items[n - 1].id != start.items[i].id;
    }
  }

  /**
   * The fate of entry i over a whole loop: it is listed for removal exactly when its round's outcome
   * is None, it otherwise ends as that outcome, and its round's messages stay in the log.
   */
  lemma EntryFate(start: PassState, retries: nat, env: Outcomes, queue: Queue, i: nat)
    requires i < |start.items| && UniqueIds(start.items) && start.items[i].id !in start.remove
    ensures var before := Loop(start, retries, env, queue, i);
      var storage := start.items[i];
      var attempt := AttemptConnection(before.connections, storage, env.tcpFailure(storage.id));
      var read := if attempt.Fail? then Left(storage.partial)
                  else ReadResult(storage, retries, env.attempts(storage.id));
      var outcome := Outcome(storage, attempt, read, env, queue);
      var final := Loop(start, retries, env, queue, |start.items|);
      (storage.id in final.remove <==> outcome.None?)
      && (outcome.Some? ==> final.items[i] == outcome.value)
      && Reply(before.sent, storage, attempt, read, env) <= final.sent
  {
    LoopFrame(start, retries, env, queue, i);
    var before := Loop(start, retries, env, queue, i);
    assert before.items[i] == start.items[i];
    OwnRound(before, i, retries, env, queue);
    LoopRemove(start, retries, env, queue, i, i);
    LoopRemove(start, retries, env, queue, |start.items|, i);
    LoopAfter(start, retries, env, queue, |start.items|, i);
    LoopLogAfter(start, retries, env, queue, i + 1, |start.items|);
  }

  /** What the round of entry `index` does to that entry, to the removal list and to the log. */
  lemma OwnRound(l: PassState, index: nat, retries: nat, env: Outcomes, queue: Queue)
    requires index < |l.items|
    ensures var storage := l.items[index];
      var attempt := AttemptConnection(l.connections, storage, env.tcpFailure(storage.id));
      var read := if attempt.Fail? then Left(storage.partial)
                  else ReadResult(storage, retries, env.attempts(storage.id));
      var outcome := Outcome(storage, attempt, read, env, queue);
      var next := Step(l, index, retries, env, queue);
      (next.remove == if outcome.None? then l.remove + [storage.id] else l.remove)
      && (outcome.Some? ==> next.items[index] == outcome.value)
      && next.sent == Reply(l.sent, storage, attempt, read, env)
  {
  }

  // retain

  lemma {:induction false} RetainMember(items: seq<Storage>, remove: seq<nat>, x: Storage)
    ensures x in Retain(items, remove) <==> x in items && x.id !in remove
  {
    if |items| > 0 {
      RetainMember(items[1..], remove, x);
      assert items == [items[0]] + items[1..];
    }
  }

  lemma UniqueCons(x: Storage, ys: seq<Storage>)
    ensures UniqueIds([x] + ys) <==> UniqueIds(ys) && x.id !in Ids(ys)
  {
    var xs := [x] + ys;
    assert forall i :: 0 < i < |xs| ==> xs[i] == ys[i - 1];
    if UniqueIds(xs) {
      forall i, j | 0 <= i < j < |ys| ensures ys[i].id != ys[j].id {
        assert xs[i + 1].id != xs[j + 1].id;
      }
      forall k | 0 <= k < |ys| ensures ys[k].id != x.id {
        assert xs[0].id != xs[k + 1].id;
      }
    }
    if UniqueIds(ys) && x.id !in Ids(ys) {
      forall i, j | 0 <= i < j < |xs| ensures xs[i].id != xs[j].id {
        if i == 0 {
          assert ys[j - 1] in ys;
        }
      }
    }
  }

  lemma {:induction false} RetainUnique(items: seq<Storage>, remove: seq<nat>)
    requires UniqueIds(items)
    ensures UniqueIds(Retain(items, remove)) && Ids(Retain(items, remove)) <= Ids(items)
  {
    if |items| > 0 {
      assert items == [items[0]] + items[1..];
      UniqueCons(items[0], items[1..]);
      RetainUnique(items[1..], remove);
      var rest := Retain(items[1..], remove);
      if items[0].id !in remove {
        UniqueCons(items[0], rest);
      }
      forall x | x in Retain(items, remove) ensures x in items {
        RetainMember(items, remove, x);
      }
    }
  }

  /** Where entry i lands in the retained sequence: after the kept entries before it. */
  function RetainedAt(items: seq<Storage>, remove: seq<nat>, i: nat): (p: nat)
    requires i <= |items|
    ensures p <= i
  {
    RetainLength(items[..i], remove);
    |Retain(items[..i], remove)|
  }

  lemma {:induction false} RetainLength(items: seq<Storage>, remove: seq<nat>)
    ensures |Retain(items, remove)| <= |items|
  {
    if |items| > 0 {
      RetainLength(items[1..], remove);
    }
  }

  lemma {:induction false} RetainSplit(a: seq<Storage>, b: seq<Storage>, remove: seq<nat>)
    ensures Retain(a + b, remove) == Retain(a, remove) + Retain(b, remove)
  {
    if |a| > 0 {
      assert (a + b)[1..] == a[1..] + b;
      RetainSplit(a[1..], b, remove);
    } else {
      assert a + b == b;
    }
  }

  /** A kept entry sits in the retained sequence at its `RetainedAt` position. */
  lemma RetainPosition(items: seq<Storage>, remove: seq<nat>, i: nat)
    requires i < |items| && items[i].id !in remove
    ensures RetainedAt(items, remove, i) < |Retain(items, remove)|
    ensures Retain(items, remove)[RetainedAt(items, remove, i)] == items[i]
  {
    assert items == items[..i] + items[i..];
    RetainSplit(items[..i], items[i..], remove);
    assert items[i..][0] == items[i];
  }

  /** Kept entries appear in the retained sequence in their original order. */
  lemma RetainOrder(items: seq<Storage>, remove: seq<nat>, i: nat, j: nat)
    requires i < j <= |items| && items[i].id !in remove
    ensures RetainedAt(items, remove, i) < RetainedAt(items, remove, j)
  {
    assert items[..j] == items[..i] + items[i..j];
    RetainSplit(items[..i], items[i..j], remove);
    assert items[i..j][0] == items[i];
  }

  /**
   * A pass keeps the order of its survivors: two entries that both survive end at positions in the
   * order they had, each as its own round left it.
   */
  lemma PassOrder(s: TaskState, items: seq<Storage>, env: Outcomes, queue: Queue, i: nat, j: nat)
    requires UniqueIds(items) && i < j < |items|
    ensures var l := Loop(Start(s, items), s.params.retries, env, queue, |items|);
      var kept := Retain(l.items, l.remove);
      var p := RetainedAt(l.items, l.remove, i);
      var q := RetainedAt(l.items, l.remove, j);
      items[i].id in Ids(kept) && items[j].id in Ids(kept) ==>
        p < q < |kept| && kept[p] == l.items[i] && kept[q] == l.items[j]
        && kept[p].id == items[i].id && kept[q].id == items[j].id
  {
    var l := Loop(Start(s, items), s.params.retries, env, queue, |items|);
    var kept := Retain(l.items, l.remove);
    LoopFrame(Start(s, items), s.params.retries, env, queue, |items|);
    SameIds(l.items, items);
    if items[i].id in Ids(kept) && items[j].id in Ids(kept) {
      Survives(l.items, l.remove, i);
      Survives(l.items, l.remove, j);
      RetainPosition(l.items, l.remove, i);
      RetainPosition(l.items, l.remove, j);
      RetainOrder(l.items, l.remove, i, j);
    }
  }

  /** With unique ids, an entry whose id is retained was not listed for removal. */
  lemma Survives(items: seq<Storage>, remove: seq<nat>, i: nat)
    requires UniqueIds(items) && i < |items| && items[i].id in Ids(Retain(items, remove))
    ensures items[i].id !in remove
  {
    var x :| x in Retain(items, remove) && x.id == items[i].id;
    RetainMember(items, remove, x);
    var k :| 0 <= k < |items| && items[k] == x;
    assert k == i;
  }

  lemma SameIds(a: seq<Storage>, b: seq<Storage>)
    requires |a| == |b| && forall i :: 0 <= i < |a| ==> SameRequest(a[i], b[i])
    ensures UniqueIds(a) <==> UniqueIds(b)
    ensures Ids(a) == Ids(b)
  {
    forall x | x in Ids(a) ensures x in Ids(b) {
      var st :| st in a && st.id == x;
      var k :| 0 <= k < |a| && a[k] == st;
      assert b[k].id == x;
    }
    forall x | x in Ids(b) ensures x in Ids(a) {
      var st :| st in b && st.id == x;
      var k :| 0 <= k < |b| && b[k] == st;
      assert a[k].id == x;
    }
  }

  /** A pass over a queue: what is kept is a well-formed queue of a subset of its ids. */
  lemma PassKeeps(s: TaskState, items: seq<Storage>, env: Outcomes, queue: Queue)
    requires UniqueIds(items) && AllWellFormed(items) && Keyed(s.connections)
    ensures var l := Loop(Start(s, items), s.params.retries, env, queue, |items|);
      var kept := Retain(l.items, l.remove);
      UniqueIds(kept) && Ids(kept) <= Ids(items) && AllWellFormed(kept)
      && Keyed(l.connections) && Extends(s.connections, l.connections) && s.sent <= l.sent
  {
    var l := Loop(Start(s, items), s.params.retries, env, queue, |items|);
    LoopFrame(Start(s, items), s.params.retries, env, queue, |items|);
    LoopWellFormed(Start(s, items), s.params.retries, env, queue, |items|);
    LoopLog(Start(s, items), s.params.retries, env, queue, |items|);
    LoopCache(Start(s, items), s.params.retries, env, queue, |items|);
    SameIds(l.items, items);
    RetainUnique(l.items, l.remove);
    forall i | 0 <= i < |Retain(l.items, l.remove)| ensures WellFormed(Retain(l.items, l.remove)[i]) {
      RetainMember(l.items, l.remove, Retain(l.items, l.remove)[i]);
    }
  }

  lemma ValidItems(items: seq<Storage>, bound: nat)
    requires forall st :: st in items ==> st.id < bound && WellFormed(st)
    ensures AllWellFormed(items)
  {
  }

  lemma IdsBound(items: seq<Storage>, kept: seq<Storage>, bound: nat)
    requires forall st :: st in items ==> st.id < bound
    requires Ids(kept) <= Ids(items) && AllWellFormed(kept)
    ensures forall st :: st in kept ==> st.id < bound && WellFormed(st)
  {
    forall st | st in kept ensures st.id < bound {
      assert st.id in Ids(kept);
      var o :| o in items && o.id == st.id;
    }
  }

  /**
   * The oneshot pass keeps the task invariant, keeps every cached connection, only drops oneshots,
   * leaves the streams alone and only appends to the message log.
   */
  lemma OneshotPassValid(s: TaskState, env: Outcomes)
    requires StateValid(s)
    ensures var t := OneshotPass(s, env);
      StateValid(t) && Extends(s.connections, t.connections) && s.sent <= t.sent
      && Ids(t.oneshots) <= Ids(s.oneshots) && t.streams == s.streams
      && t.params == s.params && t.terminate == s.terminate && t.nextId == s.nextId
  {
    ValidItems(s.oneshots, s.nextId);
    PassKeeps(s, s.oneshots, env, Oneshots);
    IdsBound(s.oneshots, OneshotPass(s, env).oneshots, s.nextId);
  }

  /** The same for the stream pass, which on terminate drops every stream. */
  lemma StreamPassValid(s: TaskState, env: Outcomes, queue: Queue)
    requires StateValid(s) && queue != Oneshots
    ensures var t := StreamPassOf(s, env, queue);
      StateValid(t) && Extends(s.connections, t.connections) && s.sent <= t.sent
      && Ids(t.streams) <= Ids(s.streams) && t.oneshots == s.oneshots
      && t.params == s.params && t.terminate == s.terminate && t.nextId == s.nextId
      && (s.terminate ==> t.streams == [])
  {
    if !s.terminate {
      ValidItems(s.streams, s.nextId);
      PassKeeps(s, s.streams, env, queue);
      IdsBound(s.streams, StreamPassOf(s, env, queue).streams, s.nextId);
    }
  }

  lemma NotKept(items: seq<Storage>, remove: seq<nat>, id: nat)
    requires id in remove
    ensures id !in Ids(Retain(items, remove))
  {
    if id in Ids(Retain(items, remove)) {
      var x :| x in Retain(items, remove) && x.id == id;
      RetainMember(items, remove, x);
    }
  }

  lemma Kept(items: seq<Storage>, remove: seq<nat>, i: nat)
    requires i < |items| && items[i].id !in remove
    ensures items[i] in Retain(items, remove)
  {
    RetainMember(items, remove, items[i]);
  }

  lemma InLog(before: seq<Sent>, message: Sent, after: seq<Sent>)
    requires before + [message] <= after
    ensures message in after
  {
    assert after[|before|] == message;
  }

  /**
   * The fate of oneshot i in a pass, given the connection cache its round sees: a failed connection
   * drops it and reports the failure; a complete read drops it and sends the answer; an incomplete
   * read keeps it with the new partial response.
   */
  lemma OneshotFate(s: TaskState, env: Outcomes, i: nat)
    requires StateValid(s) && i < |s.oneshots|
    ensures var storage := s.oneshots[i];
      var before := Loop(Start(s, s.oneshots), s.params.retries, env, Oneshots, i);
      var attempt := AttemptConnection(before.connections, storage, env.tcpFailure(storage.id));
      var read := ReadResult(storage, s.params.retries, env.attempts(storage.id));
      var t := OneshotPass(s, env);
      (attempt.Fail? ==>
         (storage.id !in Ids(t.oneshots)
          && (env.delivered(storage.id) ==> Sent(storage.sender, FailedToConnect(attempt.error)) in t.sent)))
      && (!attempt.Fail? && read.Right? ==>
         (storage.id !in Ids(t.oneshots)
          && (env.delivered(storage.id) ==> Sent(storage.sender, Answered(read.right)) in t.sent)))
      && (!attempt.Fail? && read.Left? ==> storage.(partial := read.left) in t.oneshots)
  {
    var start := Start(s, s.oneshots);
    var storage := s.oneshots[i];
    var before := Loop(start, s.params.retries, env, Oneshots, i);
    var final := Loop(start, s.params.retries, env, Oneshots, |s.oneshots|);
    EntryFate(start, s.params.retries, env, Oneshots, i);
    var attempt := AttemptConnection(before.connections, storage, env.tcpFailure(storage.id));
    var read := ReadResult(storage, s.params.retries, env.attempts(storage.id));
    if attempt.Fail? || read.Right? {
      NotKept(final.items, final.remove, storage.id);
      if attempt.Fail? && env.delivered(storage.id) {
        InLog(before.sent, Sent(storage.sender, FailedToConnect(attempt.error)), final.sent);
      } else if !attempt.Fail? && env.delivered(storage.id) {
        InLog(before.sent, Sent(storage.sender, Answered(read.right)), final.sent);
      }
    } else {
      Kept(final.items, final.remove, i);
    }
  }

  /**
   * The fate of stream i in a pass that is not terminating: a failed connection drops it; a complete
   * read whose answer is delivered resets it to empty slots, and one whose answer cannot be delivered
   * drops it; an incomplete read keeps it with the new partial response.
   */
  lemma StreamFate(s: TaskState, env: Outcomes, i: nat)
    requires StateValid(s) && i < |s.streams| && !s.terminate
    ensures var storage := s.streams[i];
      var before := Loop(Start(s, s.streams), s.params.retries, env, Streams, i);
      var attempt := AttemptConnection(before.connections, storage, env.tcpFailure(storage.id));
      var read := ReadResult(storage, s.params.retries, env.attempts(storage.id));
      var t := StreamPass(s, env);
      (attempt.Fail? ==>
         (storage.id !in Ids(t.streams)
          && (env.delivered(storage.id) ==> Sent(storage.sender, FailedToConnect(attempt.error)) in t.sent)))
      && (!attempt.Fail? && read.Right? && env.delivered(storage.id) ==>
         (storage.(partial := Empty(|storage.spans|)) in t.streams
          && Sent(storage.sender, Answered(read.right)) in t.sent))
      && (!attempt.Fail? && read.Right? && !env.delivered(storage.id) ==> storage.id !in Ids(t.streams))
      && (!attempt.Fail? && read.Left? ==> storage.(partial := read.left) in t.streams)
  {
    var start := Start(s, s.streams);
    var storage := s.streams[i];
    var before := Loop(start, s.params.retries, env, Streams, i);
    var final := Loop(start, s.params.retries, env, Streams, |s.streams|);
    EntryFate(start, s.params.retries, env, Streams, i);
    var attempt := AttemptConnection(before.connections, storage, env.tcpFailure(storage.id));
    var read := ReadResult(storage, s.params.retries, env.attempts(storage.id));
    if attempt.Fail? {
      NotKept(final.items, final.remove, storage.id);
      if env.delivered(storage.id) {
        InLog(before.sent, Sent(storage.sender, FailedToConnect(attempt.error)), final.sent);
      }
    } else if read.Right? && !env.delivered(storage.id) {
      NotKept(final.items, final.remove, storage.id);
    } else {
      Kept(final.items, final.remove, i);
      if read.Right? {
        InLog(before.sent, Sent(storage.sender, Answered(read.right)), final.sent);
      }
    }
  }

  /** Oneshots that survive the pass keep their relative order, each as its round left it. */
  lemma OneshotOrder(s: TaskState, env: Outcomes, i: nat, j: nat)
    requires StateValid(s) && i < j < |s.oneshots|
    ensures var l := Loop(Start(s, s.oneshots), s.params.retries, env, Oneshots, |s.oneshots|);
      var t := OneshotPass(s, env);
      var p := RetainedAt(l.items, l.remove, i);
      var q := RetainedAt(l.items, l.remove, j);
      s.oneshots[i].id in Ids(t.oneshots) && s.oneshots[j].id in Ids(t.oneshots) ==>
        p < q < |t.oneshots| && t.oneshots[p] == l.items[i] && t.oneshots[q] == l.items[j]
        && t.oneshots[p].id == s.oneshots[i].id && t.oneshots[q].id == s.oneshots[j].id
  {
    PassOrder(s, s.oneshots, env, Oneshots, i, j);
  }

  /** The same for the streams of a pass that is not terminating. */
  lemma StreamOrder(s: TaskState, env: Outcomes, i: nat, j: nat)
    requires StateValid(s) && i < j < |s.streams| && !s.terminate
    ensures var l := Loop(Start(s, s.streams), s.params.retries, env, Streams, |s.streams|);
      var t := StreamPass(s, env);
      var p := RetainedAt(l.items, l.remove, i);
      var q := RetainedAt(l.items, l.remove, j);
      s.streams[i].id in Ids(t.streams) && s.streams[j].id in Ids(t.streams) ==>
        p < q < |t.streams| && t.streams[p] == l.items[i] && t.streams[q] == l.items[j]
        && t.streams[p].id == s.streams[i].id && t.streams[q].id == s.streams[j].id
  {
    PassOrder(s, s.streams, env, Streams, i, j);
  }

  /** As written, a stream whose connection fails survives the pass unchanged and is retried forever. */
  lemma StreamFailureKeptAsWritten(s: TaskState, env: Outcomes, i: nat)
    requires StateValid(s) && i < |s.streams| && !s.terminate
    ensures var storage := s.streams[i];
      var before := Loop(Start(s, s.streams), s.params.retries, env, StreamsAsWritten, i);
      var attempt := AttemptConnection(before.connections, storage, env.tcpFailure(storage.id));
      attempt.Fail? ==> storage in StreamPassAsWritten(s, env).streams
  {
    var start := Start(s, s.streams);
    var final := Loop(start, s.params.retries, env, StreamsAsWritten, |s.streams|);
    EntryFate(start, s.params.retries, env, StreamsAsWritten, i);
    var before := Loop(start, s.params.retries, env, StreamsAsWritten, i);
    if AttemptConnection(before.connections, s.streams[i], env.tcpFailure(s.streams[i].id)).Fail? {
      Kept(final.items, final.remove, i);
    }
  }

  /** A stream to a destination that cannot be reached: the corrected pass drops it, the one as written keeps it. */
  lemma UnreachableStream()
    ensures var storage := Storage(0, 0, Destination(Net.SocketAddr(Net.V4(Net.Ipv4(10, 0, 0, 1)), 502), None), [], []);
      var s := TaskState(map[], [], [storage], Params(StdDuration(0), StdDuration(0), 0), false, 1, []);
      var env := Outcomes((id: nat) => Some(IoError(111)), (id: nat) => (k: nat) => (a: nat) => Completed(Ok([])),
                          (id: nat) => false);
      StreamPassAsWritten(s, env).streams == [storage] && StreamPass(s, env).streams == []
  {
    var storage := Storage(0, 0, Destination(Net.SocketAddr(Net.V4(Net.Ipv4(10, 0, 0, 1)), 502), None), [], []);
    var s := TaskState(map[], [], [storage], Params(StdDuration(0), StdDuration(0), 0), false, 1, []);
    var env := Outcomes((id: nat) => Some(IoError(111)), (id: nat) => (k: nat) => (a: nat) => Completed(Ok([])),
                        (id: nat) => false);
    assert Loop(Start(s, s.streams), 0, env, StreamsAsWritten, 1).remove == [];
    assert Loop(Start(s, s.streams), 0, env, Streams, 1).remove == [0];
  }
}
