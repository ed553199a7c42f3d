/** The gateway object. Each method is one synchronous segment of the process and takes the object exactly where
    the corresponding step of the state machine does. */
module StreamGateway {
  import opened Text
  import opened StateStore
  import opened PersistentStore
  import opened TerminationQueue
  import opened Gateway

  class StreamGateway {
    const store: PersistentFileStateStore
    var queue: StreamTerminationQueue
    var processedLogKeys: set<string>
    var inflight: seq<Log>
    ghost var journal: seq<Log>
    ghost var lost: seq<Log>

    ghost predicate Valid()
      reads this, store, store.inner, queue
    {
      store.Valid() && queue.Valid()
    }

    ghost function Snapshot(): World
      reads this, store, store.inner, queue
    {
      World(store.Abs(), queue.queue, processedLogKeys, inflight, journal, lost)
    }

    /** `start` on the files a previous process left. */
    constructor (files: Disk, ghost applied: seq<Log>, ghost crashed: seq<Log>)
      ensures Valid() && Snapshot() == Boot(files, applied, crashed)
      ensures fresh(store) && fresh(store.inner) && fresh(queue)
    {
      store := new PersistentFileStateStore(files);
      queue := new StreamTerminationQueue();
      processedLogKeys, inflight, journal, lost := {}, [], applied, crashed;
      new;
      queue := ScheduleActive();
    }

    /** `stop`, and `start` again: the store, the keys and the waiting handlers stay, and the queue is made anew. */
    method StopAndStart()
      requires Valid()
      modifies this`queue
      ensures Valid() && fresh(queue) && Snapshot() == Next(old(Snapshot()), Step.StopAndStart)
    {
      queue := ScheduleActive();
    }

    /** One round of the rescheduling. */
    method ScheduleNext(made: StreamTerminationQueue, m: map<string, Stream>, ids: seq<string>, i: nat)
      requires i < |ids| && made.Valid() && made.queue == Reschedule(m, ids[..i])
      modifies made
      ensures made.Valid() && made.queue == Reschedule(m, ids[..i + 1])
    {
      RescheduleNext(m, ids, i);
      if ids[i] in m && m[ids[i]].status == Active && m[ids[i]].lifespan > 0 {
        made.Schedule(m[ids[i]].paycardId, m[ids[i]].genesis + m[ids[i]].lifespan);
      }
    }

    /** A new queue with the Active streams of the store. */
    method ScheduleActive() returns (made: StreamTerminationQueue)
      requires store.Valid()
      ensures fresh(made) && made.Valid() && made.queue == Reschedule(store.inner.store.m, store.inner.store.order)
    {
      made := new StreamTerminationQueue();
      var ids, m := store.inner.store.order, store.inner.store.m;
      for i := 0 to |ids|
        invariant fresh(made) && made.Valid() && made.queue == Reschedule(m, ids[..i])
      {
        ScheduleNext(made, m, ids, i);
      }
      assert ids[..|ids|] == ids;
    }

    /** `handleLog` up to the await. */
    method DeliverLog(log: Log)
      requires Valid()
      modifies this`processedLogKeys, this`inflight
      ensures Valid() && Snapshot() == Next(old(Snapshot()), Deliver(log))
    {
      var logKey := EventKey(log.transactionHash, log.logIndex);
      if logKey in processedLogKeys { return; }
      var seen := store.HasEvent(logKey);
      if seen {
        processedLogKeys := processedLogKeys + {logKey};
        return;
      }
      processedLogKeys := processedLogKeys + {logKey};
      inflight := inflight + [log];
    }

    /** `handleLog` behind the await: record the event, then apply it. */
    method ResumeLog(i: nat, timestamp: Option<nat>, clock: nat)
      requires Valid() && i < |inflight|
      modifies this`inflight, this`journal, store, store.inner, queue
      ensures Valid() && Snapshot() == Next(old(Snapshot()), Resume(i, timestamp, clock))
    {
      var log := inflight[i];
      inflight := Without(inflight, i);
      var existing := store.Get(log.paycardId);
      var _ := store.RecordEvent(ToEventRecord(existing, log, timestamp, clock));
      match log.event {
      case PaycardProvisioned(_, _, _, _, _, _, _) => OnPaycardProvisioned(log, timestamp);
      case SettlementFlushed(_, _) => OnSettlementFlushed(log, timestamp);
      case ResidualDeltaReclaimed(_, _) => OnResidualDeltaReclaimed(log, timestamp);
      case OtherEvent(_) =>
      }
      journal := journal + [log];
    }

    method BlockLookupFails(i: nat)
      requires Valid() && i < |inflight|
      modifies this`inflight
      ensures Valid() && Snapshot() == Next(old(Snapshot()), BlockFails(i))
    {
      inflight := Without(inflight, i);
    }

    static function ToEventRecord(existing: Option<Stream>, log: Log, timestamp: Option<nat>, clock: nat): EventRecord {
      EventRecord(
        log.paycardId, log.event,
        if existing.Some? then existing.value.workflowId else None,
        if log.event.PaycardProvisioned? then Some(log.event.metadataHash)
        else if existing.Some? then Some(existing.value.metadataHash) else None,
        log.blockNumber, timestamp, log.transactionHash, log.logIndex, clock)
    }

    method OnPaycardProvisioned(log: Log, timestamp: Option<nat>)
      requires Valid() && log.event.PaycardProvisioned?
      modifies store, store.inner, queue
      ensures Valid() && store.Abs() == ApplyEvent(old(store.Abs()), log, timestamp)
      ensures queue.queue == Rescheduled(old(queue.queue), log)
    {
      store.Set(log.paycardId, NewStream(log));
      if log.event.lifespan > 0 {
        queue.Schedule(log.paycardId, log.event.genesis + log.event.lifespan);
      }
    }

    method OnSettlementFlushed(log: Log, timestamp: Option<nat>)
      requires Valid() && log.event.SettlementFlushed?
      modifies store, store.inner
      ensures Valid() && store.Abs() == ApplyEvent(old(store.Abs()), log, timestamp)
    {
      var existing := store.Get(log.paycardId);
      if existing.None? { return; }
      var state := existing.value;
      var remaining := state.availableBalance - log.event.amountWithdrawn;
      state := state.(availableBalance := if remaining > 0 then remaining else 0);
      if timestamp.Some? {
        state := state.(lastCheckpoint := timestamp.value);
      }
      if remaining <= 0 {
        state := state.(status := Terminated);
      }
      store.Set(log.paycardId, state);
    }

    method OnResidualDeltaReclaimed(log: Log, timestamp: Option<nat>)
      requires Valid() && log.event.ResidualDeltaReclaimed?
      modifies store, store.inner
      ensures Valid() && store.Abs() == ApplyEvent(old(store.Abs()), log, timestamp)
    {
      var existing := store.Get(log.paycardId);
      if existing.None? { return; }
      var state := existing.value.(availableBalance := 0);
      state := state.(status := Terminated);
      store.Set(log.paycardId, state);
    }

    method ProcessAccruals(now: real)
      requires Valid()
      modifies store.inner
      ensures Valid() && store.Abs() == Accrue(old(store.Abs()), now)
    {
      var ids, m := store.inner.store.order, store.inner.store.m;
      ghost var before := store.Abs();
      for i := 0 to |ids|
        invariant Valid() && store.Abs() == DoAll(before, AccrualOps(m, ids[..i], now))
      {
        AccrualNext(before, m, ids, i, now);
        if ids[i] in m && Accrues(m[ids[i]], now) {
          store.AssignProjected(ids[i], Some(Projection(m[ids[i]], now)));
        }
      }
      assert ids[..|ids|] == ids;
    }

    method SweepExpired(now: real)
      requires Valid()
      modifies store, store.inner, queue
      ensures Valid() && store.Abs() == Sweep(old(store.Abs()), Ids(DueEntries(old(queue.queue), now)))
      ensures queue.queue == LaterEntries(old(queue.queue), now)
    {
      ghost var before := store.Abs();
      var expired := queue.CheckExpired(now);
      ghost var later := queue.queue;
      for i := 0 to |expired|
        invariant Valid() && store.Abs() == Sweep(before, expired[..i]) && queue.queue == later
      {
        assert expired[..i + 1][..i] == expired[..i];
        var state := store.Get(expired[i]);
        if state.Some? && state.value.status == Active {
          store.Set(expired[i], state.value.(status := PendingSettlement));
        }
      }
      assert expired[..|expired|] == expired;
    }

    /** The timer's callback. */
    method OnTick(now: real)
      requires Valid()
      modifies store, store.inner, queue
      ensures Valid() && Snapshot() == Next(old(Snapshot()), Tick(now))
    {
      ProcessAccruals(now);
      SweepExpired(now);
    }

    /** `bindVerifiedMetadata` once the hash has been checked. */
    method BindVerifiedMetadata(id: string, workflowId: Option<string>) returns (bound: Option<Stream>)
      requires Valid()
      modifies store, store.inner
      ensures Valid() && Snapshot() == Next(old(Snapshot()), Bind(id, workflowId))
      ensures bound == Find(store.Abs(), id)
    {
      bound := store.BindWorkflow(id, workflowId);
    }
  }
}
