/**
 * The update process (src/cli/src/process/update.rs): health rows after the update cursor are sent to the
 * cloud in one batch and the outcome is logged. The cloud request and the clock are parameters.
 */
module Update {
  import opened Wrappers
  import Db
  import Cloud
  import ServiceDb

  /** The batch an update sends from `store`'s tables. */
  function Batch(health: seq<Db.Row>, logs: seq<ServiceDb.Log>): seq<Db.Row>
  {
    Db.GetMeasurements(health, ServiceDb.Cursor(logs, ServiceDb.Update), ServiceDb.BatchLimit)
  }

  /**
   * `Process::execute`: with nothing after the cursor nothing is sent or logged; otherwise the batch
   * is sent and one update log is added, under the largest id sent, whatever the outcome.
   */
  method Execute(store: ServiceDb.Store, now: int,
                 update: seq<Cloud.Measurement> -> Result<Cloud.Response, Cloud.HttpError>)
    requires store.Valid()
    modifies store
    ensures store.Valid()
    ensures var batch := Batch(old(store.health), old(store.logs));
      store.logs == old(store.logs)
        + if |batch| == 0 then []
          else [ServiceDb.BatchLog(batch, update(Cloud.ToCloud(batch)), now, ServiceDb.Update).(id := old(store.nextLogId))]
    ensures store.measurements == old(store.measurements) && store.health == old(store.health)
    ensures store.devices == old(store.devices) && store.nextMeasurementId == old(store.nextMeasurementId)
  {
    var batch := Batch(store.health, store.logs);
    if |batch| == 0 {
      return;
    }
    var result := update(Cloud.ToCloud(batch));
    store.InsertLog(ServiceDb.BatchLog(batch, result, now, ServiceDb.Update));
  }

  /**
   * The batch holds at most `BatchLimit` health rows, all after the cursor. A successful update moves
   * the update cursor forward past exactly the rows it sent, and leaves the push cursor where it was.
   */
  lemma Progress(health: seq<Db.Row>, logs: seq<ServiceDb.Log>,
                 result: Result<Cloud.Response, Cloud.HttpError>, now: int, id: int)
    requires Db.IncreasingIds(health)
    requires forall l :: l in logs ==> l.timestamp <= now
    requires |Batch(health, logs)| > 0
    ensures var batch := Batch(health, logs);
      var after := logs + [ServiceDb.BatchLog(batch, result, now, ServiceDb.Update).(id := id)];
      |batch| <= ServiceDb.BatchLimit
      && (forall r :: r in batch ==> r in health && r.id > ServiceDb.Cursor(logs, ServiceDb.Update))
      && ServiceDb.Cursor(after, ServiceDb.Push) == ServiceDb.Cursor(logs, ServiceDb.Push)
      && (result.Ok? && result.value.success ==>
            ServiceDb.Cursor(after, ServiceDb.Update) > ServiceDb.Cursor(logs, ServiceDb.Update)
            && forall r ::
                 (r in health && ServiceDb.Cursor(logs, ServiceDb.Update) < r.id <= ServiceDb.Cursor(after, ServiceDb.Update))
                 ==> r in batch)
      && (!(result.Ok? && result.value.success) ==>
            ServiceDb.Cursor(after, ServiceDb.Update) == ServiceDb.Cursor(logs, ServiceDb.Update))
  {
    var batch := Batch(health, logs);
    var log := ServiceDb.BatchLog(batch, result, now, ServiceDb.Update).(id := id);
    ServiceDb.CursorAfterLog(logs, log, ServiceDb.Update);
    ServiceDb.CursorAfterLog(logs, log, ServiceDb.Push);
    Db.FetchSkipsNothing(health, ServiceDb.Cursor(logs, ServiceDb.Update), ServiceDb.BatchLimit);
    assert batch[0] in batch;
  }
}
