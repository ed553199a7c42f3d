/** What each step of the gateway does to every stream and to the event table, in terms of the event's own fields. */
module GatewayEffects {
  import opened Text
  import opened StateStore
  import opened PersistentStore
  import opened TerminationQueue
  import opened Gateway
  import opened GatewayRuns
  import opened GatewayBalances
  import opened GatewayExpiry

  // ---------------------------------------------------------------------------------------
  // Applying an event
  // ---------------------------------------------------------------------------------------

  ghost predicate Applies(disk: Disk, steps: seq<Step>, i: nat)
    requires Legal(disk, steps)
  {
    i < |Exec(disk, steps).inflight|
  }

  /** The stream of an id before and after handler i has resumed. */
  lemma ResumeHandles(disk: Disk, steps: seq<Step>, i: nat, timestamp: Option<nat>, clock: nat, id: string)
    requires Legal(disk, steps) && Applies(disk, steps, i)
    ensures var w, log := Exec(disk, steps), Exec(disk, steps).inflight[i];
      Find(Next(w, Resume(i, timestamp, clock)).store, id)
        == if id == log.paycardId then Handle(Find(w.store, id), log, timestamp) else Find(w.store, id)
  {
    var w := Exec(disk, steps);
    AlwaysSound(disk, steps);
    ResumedMap(w, i, timestamp, clock);
  }

  lemma ResumedMap(w: World, i: nat, timestamp: Option<nat>, clock: nat)
    requires Sound(w.store) && i < |w.inflight|
    ensures Next(w, Resume(i, timestamp, clock)).store.mem.store.m == Handled(w.store.mem.store.m, w.inflight[i], timestamp)
  {
    RecordedEvent(w.store, w.inflight[i], timestamp, clock);
    AppliedMap(RecordEvent(w.store, w.inflight[i], timestamp, clock), w.inflight[i], timestamp);
  }

  /** A provisioning event stores a stream with the event's terms: the whole pool available, running from its genesis,
      Active, in no workflow and with nothing shown yet, whatever was stored under the id before. */
  lemma ProvisioningStores(disk: Disk, steps: seq<Step>, i: nat, timestamp: Option<nat>, clock: nat)
    requires Legal(disk, steps) && Applies(disk, steps, i) && Exec(disk, steps).inflight[i].event.PaycardProvisioned?
    ensures var log := Exec(disk, steps).inflight[i];
      Find(Next(Exec(disk, steps), Resume(i, timestamp, clock)).store, log.paycardId) == Some(Stream(
        paycardId := log.paycardId, payer := log.event.payer, recipient := log.event.recipient,
        metadataHash := log.event.metadataHash, workflowId := None, totalAllocation := log.event.poolAllocation,
        availableBalance := log.event.poolAllocation, projected := None, velocity := log.event.velocity,
        genesis := log.event.genesis, lifespan := log.event.lifespan, lastCheckpoint := log.event.genesis, status := Active))
  {
    ResumeHandles(disk, steps, i, timestamp, clock, Exec(disk, steps).inflight[i].paycardId);
  }

  /** The stream before and after a settlement of an amount in a block with a time, if it was found. */
  predicate Settles(before: Option<Stream>, after: Option<Stream>, amount: nat, timestamp: Option<nat>) {
    && (before == None ==> after == None)
    && (before.Some? && amount < before.value.availableBalance ==>
          after == Some(before.value.(availableBalance := before.value.availableBalance - amount,
                                      lastCheckpoint := if timestamp.Some? then timestamp.value else before.value.lastCheckpoint)))
    && (before.Some? && amount >= before.value.availableBalance ==>
          after == Some(before.value.(availableBalance := 0, status := Terminated,
                                      lastCheckpoint := if timestamp.Some? then timestamp.value else before.value.lastCheckpoint)))
  }

  lemma HandlingSettles(before: Option<Stream>, log: Log, timestamp: Option<nat>)
    requires log.event.SettlementFlushed?
    ensures Settles(before, Handle(before, log, timestamp), log.event.amountWithdrawn, timestamp)
  {
  }

  /** A settlement takes its amount from the balance, down to 0 at the least, moves the checkpoint to the block's time if
      the block was found, and ends the stream if nothing is left; it changes nothing else, and nothing for an unknown id. */
  lemma SettlementTakes(disk: Disk, steps: seq<Step>, i: nat, timestamp: Option<nat>, clock: nat)
    requires Legal(disk, steps) && Applies(disk, steps, i) && Exec(disk, steps).inflight[i].event.SettlementFlushed?
    ensures var w, log := Exec(disk, steps), Exec(disk, steps).inflight[i];
      Settles(Find(w.store, log.paycardId), Find(Next(w, Resume(i, timestamp, clock)).store, log.paycardId),
              log.event.amountWithdrawn, timestamp)
  {
    var w, log := Exec(disk, steps), Exec(disk, steps).inflight[i];
    ResumeHandles(disk, steps, i, timestamp, clock, log.paycardId);
    HandlingSettles(Find(w.store, log.paycardId), log, timestamp);
  }

  /** A reclaim empties and ends the stream, and changes nothing else; other events change no stream at all, and no event
      changes the stream of another id. */
  lemma ReclaimEmpties(disk: Disk, steps: seq<Step>, i: nat, timestamp: Option<nat>, clock: nat, id: string)
    requires Legal(disk, steps) && Applies(disk, steps, i)
    ensures var w, log := Exec(disk, steps), Exec(disk, steps).inflight[i];
      var before, after := Find(w.store, id), Find(Next(w, Resume(i, timestamp, clock)).store, id);
      && (log.event.ResidualDeltaReclaimed? && log.paycardId == id ==>
            after == if before == None then None else Some(before.value.(availableBalance := 0, status := Terminated)))
      && (log.event.OtherEvent? || log.paycardId != id ==> after == before)
  {
    ResumeHandles(disk, steps, i, timestamp, clock, id);
  }

  /** A resuming handler appends one row to the event table: the log's own fields, the block's time, the clock, the workflow
      of the stream as it stood, and the event's metadata hash or else that of the stream as it stood. */
  lemma ResumeAppendsRow(disk: Disk, steps: seq<Step>, i: nat, timestamp: Option<nat>, clock: nat)
    requires Legal(disk, steps) && Applies(disk, steps, i)
    ensures var w, log := Exec(disk, steps), Exec(disk, steps).inflight[i];
      var before := Find(w.store, log.paycardId);
      Next(w, Resume(i, timestamp, clock)).store.events == w.store.events + [EventRecord(
        paycardId := log.paycardId, event := log.event,
        workflowId := if before == None then None else before.value.workflowId,
        metadataHash := if log.event.PaycardProvisioned? then Some(log.event.metadataHash)
                        else if before == None then None else Some(before.value.metadataHash),
        blockNumber := log.blockNumber, blockTimestamp := timestamp,
        transactionHash := log.transactionHash, logIndex := log.logIndex, recordedAt := clock)]
  {
    var w := Exec(disk, steps);
    AlwaysSound(disk, steps);
    AlwaysOnce(disk, steps);
    ResumingIsFresh(w, Load(disk).keys, i);
    ResumedTable(w, i, timestamp, clock);
  }

  lemma RecordedRow(d: Durable, log: Log, timestamp: Option<nat>, clock: nat)
    requires IndexAgrees(d.mem) && LogKey(log) !in d.keys
    ensures RecordEvent(d, log, timestamp, clock).events == d.events + [ToRecord(d, log, timestamp, clock)]
  {
  }

  lemma ResumedTable(w: World, i: nat, timestamp: Option<nat>, clock: nat)
    requires IndexAgrees(w.store.mem) && i < |w.inflight| && LogKey(w.inflight[i]) !in w.store.keys
    ensures Next(w, Resume(i, timestamp, clock)).store.events == w.store.events + [ToRecord(w.store, w.inflight[i], timestamp, clock)]
  {
    var log := w.inflight[i];
    var recorded := RecordEvent(w.store, log, timestamp, clock);
    RecordedRow(w.store, log, timestamp, clock);
    AppliedMap(recorded, log, timestamp);
    assert Next(w, Resume(i, timestamp, clock)).store == ApplyEvent(recorded, log, timestamp);
  }

  // ---------------------------------------------------------------------------------------
  // Ticks and bindings
  // ---------------------------------------------------------------------------------------

  /** What a tick leaves of a stream: it may show another balance, and an Active one may be pending settlement. */
  predicate OnlyTicked(before: Option<Stream>, after: Option<Stream>) {
    && before.Some? == after.Some?
    && (before.Some? ==> after.value == before.value.(projected := after.value.projected, status := after.value.status))
    && (before.Some? && after.value.status != before.value.status ==> before.value.status == Active && after.value.status == PendingSettlement)
  }

  /** What a tick shows n whole seconds after the checkpoint of an Active stream of positive lifespan: the balance less n
      times the velocity, at least 0; every other stream keeps what it showed. */
  predicate ShowsAfter(s: Stream, shown: Option<nat>, now: real, n: nat) {
    && (s.status == Active && s.lifespan > 0 && now > s.lastCheckpoint as real
        && n as real <= now - s.lastCheckpoint as real < n as real + 1.0 ==>
          shown == Some(LeftAfter(s.availableBalance, s.velocity, n)))
    && (s.status != Active || s.lifespan == 0 || now <= s.lastCheckpoint as real ==> shown == s.projected)
  }

  lemma SweptStream(d: Durable, now: real, ids: seq<string>, id: string)
    requires Sound(d)
    ensures var shown, after := Find(Accrue(d, now), id), Find(Sweep(Accrue(d, now), ids), id);
      after == if shown.Some? then Some(if id in ids then Flipped(shown.value) else shown.value) else None
  {
    Ticked(d, now, ids);
  }

  lemma TickedStream(d: Durable, now: real, ids: seq<string>, id: string, n: nat)
    requires Sound(d)
    ensures OnlyTicked(Find(d, id), Find(Sweep(Accrue(d, now), ids), id))
    ensures id in d.mem.store.m ==> ShowsAfter(d.mem.store.m[id], Find(Sweep(Accrue(d, now), ids), id).value.projected, now, n)
  {
    SweptStream(d, now, ids, id);
    Accrued(d, now);
    if id in d.mem.store.m {
      TickShowsWholeSeconds(d, now, id, n);
      assert Unprojected(Accrue(d, now).mem.store.m[id]) == Unprojected(d.mem.store.m[id]);
    }
  }

  lemma TickStep(w: World, now: real)
    requires IndexAgrees(w.store.mem)
    ensures Next(w, Tick(now)).store == Sweep(Accrue(w.store, now), Ids(DueEntries(w.queue, now)))
  {
  }

  /** A tick changes what a stream shows and its status, and nothing else of it. */
  lemma TickChanges(disk: Disk, steps: seq<Step>, now: real, id: string)
    requires Legal(disk, steps)
    ensures OnlyTicked(Find(Exec(disk, steps).store, id), Find(Next(Exec(disk, steps), Tick(now)).store, id))
  {
    var w := Exec(disk, steps);
    AlwaysSound(disk, steps);
    TickStep(w, now);
    TickedStream(w.store, now, Ids(DueEntries(w.queue, now)), id, 0);
  }

  /** And it shows each stream's balance by the whole seconds since its checkpoint. */
  lemma TickShows(disk: Disk, steps: seq<Step>, now: real, id: string, n: nat)
    requires Legal(disk, steps) && Find(Exec(disk, steps).store, id).Some?
    ensures var after := Find(Next(Exec(disk, steps), Tick(now)).store, id);
      after.Some? && ShowsAfter(Find(Exec(disk, steps).store, id).value, after.value.projected, now, n)
  {
    var w := Exec(disk, steps);
    AlwaysSound(disk, steps);
    TickStep(w, now);
    TickedStream(w.store, now, Ids(DueEntries(w.queue, now)), id, n);
  }

  lemma BoundFind(d: Durable, r: Durable, bound: string, workflowId: Option<string>, id: string)
    requires r.mem.store.m == if bound in d.mem.store.m
      then d.mem.store.m[bound := d.mem.store.m[bound].(workflowId := if Truthy(workflowId) then workflowId else None)]
      else d.mem.store.m
    ensures Find(r, id) ==
      if Find(d, id).Some? && id == bound
      then Some(Find(d, id).value.(workflowId := if workflowId == Some("") then None else workflowId))
      else Find(d, id)
  {
  }

  lemma BoundStream(d: Durable, bound: string, workflowId: Option<string>, id: string)
    requires Sound(d)
    ensures var before, after := Find(d, id), Find(Do(d, OpBind(bound, workflowId)), id);
      if before.Some? && id == bound
      then after == Some(before.value.(workflowId := if workflowId == Some("") then None else workflowId))
      else after == before
  {
    Bound(d, bound, workflowId);
    BoundFind(d, Do(d, OpBind(bound, workflowId)), bound, workflowId, id);
  }

  /** A binding changes the workflow id of its stream, to none if it is empty, and nothing else. */
  lemma BindChanges(disk: Disk, steps: seq<Step>, bound: string, workflowId: Option<string>, id: string)
    requires Legal(disk, steps)
    ensures var before, after := Find(Exec(disk, steps).store, id), Find(Next(Exec(disk, steps), Bind(bound, workflowId)).store, id);
      if before.Some? && id == bound
      then after == Some(before.value.(workflowId := if workflowId == Some("") then None else workflowId))
      else after == before
  {
    AlwaysSound(disk, steps);
    BoundStream(Exec(disk, steps).store, bound, workflowId, id);
    BindStep(Exec(disk, steps), bound, workflowId);
  }

  lemma BindStep(w: World, bound: string, workflowId: Option<string>)
    requires IndexAgrees(w.store.mem)
    ensures Next(w, Bind(bound, workflowId)).store == Do(w.store, OpBind(bound, workflowId))
  {
  }

  // ---------------------------------------------------------------------------------------
  // A provisioned stream in a run
  // ---------------------------------------------------------------------------------------

  ghost predicate ProvisionedBy(disk: Disk, steps: seq<Step>, before: seq<Log>, p: Log, after: seq<Log>)
    requires Legal(disk, steps)
  {
    Exec(disk, steps).journal == before + [p] + after && p.event.PaycardProvisioned?
    && forall i | 0 <= i < |after| :: after[i].paycardId != p.paycardId
  }

  lemma {:induction false} NothingSettled(logs: seq<Log>, id: string)
    requires forall i | 0 <= i < |logs| :: logs[i].paycardId != id
    ensures Settled(logs, id) == 0 && Settlements(logs, id) == 0 && !Reclaimed(logs, id)
  {
    if |logs| == 0 {
    } else {
      NothingSettled(logs[1..], id);
    }
  }

  /** In every run, as long as no later event of its id has been applied, a stream has the terms of the event that
      provisioned it, with the whole pool available and its genesis as checkpoint, whatever ticks, bindings, crashes and
      restarts there have been. */
  lemma StandsAsProvisioned(disk: Disk, steps: seq<Step>, before: seq<Log>, p: Log, after: seq<Log>)
    requires Legal(disk, steps) && ProvisionedBy(disk, steps, before, p, after)
    ensures var found := Find(Exec(disk, steps).store, p.paycardId);
      && found.Some? && found.value.paycardId == p.paycardId
      && found.value.payer == p.event.payer && found.value.recipient == p.event.recipient
      && found.value.metadataHash == p.event.metadataHash
      && found.value.totalAllocation == p.event.poolAllocation && found.value.availableBalance == p.event.poolAllocation
      && found.value.velocity == p.event.velocity && found.value.genesis == p.event.genesis
      && found.value.lifespan == p.event.lifespan && found.value.lastCheckpoint == p.event.genesis
      && found.value.status != Terminated
  {
    var w, id := Exec(disk, steps), p.paycardId;
    AlwaysSound(disk, steps);
    AlwaysBalanced(disk, steps);
    forall i | 0 <= i < |after| ensures !Provisions(after[i], id) { }
    LedgerTotals(Loaded(disk), before, p, after, id);
    NothingSettled(after, id);
    assert Accounted(Lookup(w.store.mem.store.m, id), Ledger(Loaded(disk), w.journal, id));
  }

  /** So while it is Active, a tick n whole seconds after its genesis shows the pool less n times the velocity, at least 0. */
  lemma TickShowsPool(disk: Disk, steps: seq<Step>, before: seq<Log>, p: Log, after: seq<Log>, now: real, n: nat)
    requires Legal(disk, steps) && ProvisionedBy(disk, steps, before, p, after)
    requires p.event.lifespan > 0 && Find(Exec(disk, steps).store, p.paycardId).Some?
    requires Find(Exec(disk, steps).store, p.paycardId).value.status == Active
    requires now > p.event.genesis as real && n as real <= now - p.event.genesis as real < n as real + 1.0
    ensures var shown := Find(Next(Exec(disk, steps), Tick(now)).store, p.paycardId);
      shown.Some? && shown.value.projected == Some(LeftAfter(p.event.poolAllocation, p.event.velocity, n))
  {
    StandsAsProvisioned(disk, steps, before, p, after);
    TickShows(disk, steps, now, p.paycardId, n);
  }
}
