/**
 * The push process (src/cli/src/process/push.rs): measurements after the push cursor are sent to the
 * cloud in one batch and the outcome is logged. The cloud request and the clock are parameters.
 */
module Push {
  import opened Wrappers
  import Db
  import Cloud
  import ServiceDb

  /** The batch a push sends from `store`'s tables. */
  function Batch(measurements: seq<Db.Row>, logs: seq<ServiceDb.Log>): seq<Db.Row>
  {
    Db.GetMeasurements(measurements, ServiceDb.Cursor(logs, ServiceDb.Push), ServiceDb.BatchLimit)
  }

  /**
   * `Process::execute`: with nothing after the cursor nothing is sent or logged; otherwise the batch
   * is sent and one push log is added, under the largest id sent, whatever the outcome.
   */
  method Execute(store: ServiceDb.Store, now: int,
                 push: seq<Cloud.Measurement> -> Result<Cloud.Response, Cloud.HttpError>)
    requires store.Valid()
    modifies store
    ensures store.Valid()
    ensures var batch := Batch(old(store.measurements), old(store.logs));
      store.logs == old(store.logs)
        + if |batch| == 0 then []
          else [ServiceDb.BatchLog(batch, push(Cloud.ToCloud(batch)), now, ServiceDb.Push).(id := old(store.nextLogId))]
    ensures store.measurements == old(store.measurements) && store.health == old(store.health)
    ensures store.devices == old(store.devices) && store.nextMeasurementId == old(store.nextMeasurementId)
  {
    var batch := Batch(store.measurements, store.logs);
    if |batch| == 0 {
      return;
    }
    var result := push(Cloud.ToCloud(batch));
    store.InsertLog(ServiceDb.BatchLog(batch, result, now, ServiceDb.Push));
  }

  /**
   * The batch holds at most `BatchLimit` measurements, all after the cursor. A successful push moves
   * the push cursor forward past exactly the rows it sent, and leaves the update cursor where it was.
   */
  lemma Progress(measurements: seq<Db.Row>, logs: seq<ServiceDb.Log>,
                 result: Result<Cloud.Response, Cloud.HttpError>, now: int, id: int)
    requires Db.IncreasingIds(measurements)
    requires forall l :: l in logs ==> l.timestamp <= now
    requires |Batch(measurements, logs)| > 0
    ensures var batch := Batch(measurements, logs);
      var after := logs + [ServiceDb.BatchLog(batch, result, now, ServiceDb.Push).(id := id)];
      |batch| <= ServiceDb.BatchLimit
      && (forall r :: r in batch ==> r in measurements && r.id > ServiceDb.Cursor(logs, ServiceDb.Push))
      && ServiceDb.Cursor(after, ServiceDb.Update) == ServiceDb.Cursor(logs, ServiceDb.Update)
      && (result.Ok? && result.value.success ==>
            ServiceDb.Cursor(after, ServiceDb.Push) > ServiceDb.Cursor(logs, ServiceDb.Push)
            && forall r ::
                 (r in measurements && ServiceDb.Cursor(logs, ServiceDb.Push) < r.id <= ServiceDb.Cursor(after, ServiceDb.Push))
                 ==> r in batch)
      && (!(result.Ok? && result.value.success) ==>
            ServiceDb.Cursor(after, ServiceDb.Push) == ServiceDb.Cursor(logs, ServiceDb.Push))
  {
    var batch := Batch(measurements, logs);
    var log := ServiceDb.BatchLog(batch, result, now, ServiceDb.Push).(id := id);
    ServiceDb.CursorAfterLog(logs, log, ServiceDb.Push);
    ServiceDb.CursorAfterLog(logs, log, ServiceDb.Update);
    Db.FetchSkipsNothing(measurements, ServiceDb.Cursor(logs, ServiceDb.Push), ServiceDb.BatchLimit);
    assert batch[0] in batch;
  }
}
