/** The stream gateway: the deduplicating log handler, the event handlers, ticks, sweeps and restarts,
    as a state machine whose steps are the synchronous segments of the process. */
module Gateway {
  import opened Text
  import opened StateStore
  import opened PersistentStore
  import opened TerminationQueue

  datatype Log = Log(paycardId: string, event: Event, blockNumber: nat, transactionHash: string, logIndex: nat)

  function LogKey(log: Log): string {
    EventKey(log.transactionHash, log.logIndex)
  }

  // ---------------------------------------------------------------------------------------
  // Event handlers
  // ---------------------------------------------------------------------------------------

  function NewStream(log: Log): Stream
    requires log.event.PaycardProvisioned?
  {
    var e := log.event;
    Stream(log.paycardId, e.payer, e.recipient, e.metadataHash, None, e.poolAllocation, e.poolAllocation, None,
           e.velocity, e.genesis, e.lifespan, e.genesis, Active)
  }

  function AfterSettlement(s: Stream, withdrawn: nat, timestamp: Option<nat>): Stream {
    var remaining := s.availableBalance - withdrawn;
    s.(availableBalance := if remaining > 0 then remaining else 0,
       lastCheckpoint := if timestamp.Some? then timestamp.value else s.lastCheckpoint,
       status := if remaining <= 0 then Terminated else s.status)
  }

  function AfterReclaim(s: Stream): Stream {
    s.(availableBalance := 0, status := Terminated)
  }

  /** What an event does to the stored state of its own paycard (None: not tracked). */
  function Handle(s: Option<Stream>, log: Log, timestamp: Option<nat>): Option<Stream> {
    match log.event
    case PaycardProvisioned(_, _, _, _, _, _, _) => Some(NewStream(log))
    case SettlementFlushed(_, withdrawn) =>
      if s.Some? then Some(AfterSettlement(s.value, withdrawn, timestamp)) else None
    case ResidualDeltaReclaimed(_, _) => if s.Some? then Some(AfterReclaim(s.value)) else None
    case OtherEvent(_) => s
  }

  function Lookup(m: map<string, Stream>, id: string): Option<Stream> {
    if id in m then Some(m[id]) else None
  }

  function Find(d: Durable, id: string): Option<Stream> {
    Lookup(d.mem.store.m, id)
  }

  function ApplyEvent(d: Durable, log: Log, timestamp: Option<nat>): (r: Durable)
    requires IndexAgrees(d.mem)
    ensures IndexAgrees(r.mem)
  {
    var s := Handle(Find(d, log.paycardId), log, timestamp);
    if s.Some? && !log.event.OtherEvent? then Do(d, OpSet(log.paycardId, s.value)) else d
  }

  function ToRecord(d: Durable, log: Log, timestamp: Option<nat>, clock: nat): EventRecord {
    var existing := Find(d, log.paycardId);
    EventRecord(
      log.paycardId, log.event,
      if existing.Some? then existing.value.workflowId else None,
      if log.event.PaycardProvisioned? then Some(log.event.metadataHash)
      else if existing.Some? then Some(existing.value.metadataHash) else None,
      log.blockNumber, timestamp, log.transactionHash, log.logIndex, clock)
  }

  /** The part of `handleLog` behind the await: first the event table, then the state. */
  function RecordEvent(d: Durable, log: Log, timestamp: Option<nat>, clock: nat): (r: Durable)
    requires IndexAgrees(d.mem)
    ensures IndexAgrees(r.mem)
  {
    Do(d, OpRecord(ToRecord(d, log, timestamp, clock)))
  }

  function Rescheduled(queue: seq<Entry>, log: Log): seq<Entry> {
    if log.event.PaycardProvisioned? && log.event.lifespan > 0
    then InsertAfterTies(queue, Entry(log.paycardId, log.event.genesis + log.event.lifespan))
    else queue
  }

  // ---------------------------------------------------------------------------------------
  // Ticks
  // ---------------------------------------------------------------------------------------

  /** The balance a tick shows for a stream that has run since its last checkpoint. */
  function Projection(s: Stream, now: real): nat
    requires now > s.lastCheckpoint as real
  {
    var projected := s.availableBalance - s.velocity * (now - s.lastCheckpoint as real).Floor;
    if projected > 0 then projected else 0
  }

  predicate Accrues(s: Stream, now: real) {
    s.status == Active && now > s.lastCheckpoint as real && s.lifespan != 0
  }

  /** One assignment per accruing stream, in store order. */
  function AccrualOps(m: map<string, Stream>, ids: seq<string>, now: real): seq<StoreOp> {
    if |ids| == 0 then []
    else
      var id := ids[|ids| - 1];
      AccrualOps(m, ids[..|ids| - 1], now) +
      (if id in m && Accrues(m[id], now) then [OpProject(id, Some(Projection(m[id], now)))] else [])
  }

  /** One round of the accrual loop. */
  lemma AccrualNext(d: Durable, m: map<string, Stream>, ids: seq<string>, i: nat, now: real)
    requires IndexAgrees(d.mem) && i < |ids|
    ensures DoAll(d, AccrualOps(m, ids[..i + 1], now))
         == if ids[i] in m && Accrues(m[ids[i]], now)
            then Do(DoAll(d, AccrualOps(m, ids[..i], now)), OpProject(ids[i], Some(Projection(m[ids[i]], now))))
            else DoAll(d, AccrualOps(m, ids[..i], now))
  {
    var ops := AccrualOps(m, ids[..i], now);
    assert ids[..i + 1][..i] == ids[..i];
    if ids[i] in m && Accrues(m[ids[i]], now) {
      var op := OpProject(ids[i], Some(Projection(m[ids[i]], now)));
      assert AccrualOps(m, ids[..i + 1], now) == ops + [op];
      assert (ops + [op])[..|ops + [op]| - 1] == ops;
    } else {
      assert AccrualOps(m, ids[..i + 1], now) == ops + [] == ops;
    }
  }

  function Accrue(d: Durable, now: real): (r: Durable)
    requires IndexAgrees(d.mem)
    ensures IndexAgrees(r.mem)
  {
    DoAll(d, AccrualOps(d.mem.store.m, d.mem.store.order, now))
  }

  function SweepOne(d: Durable, id: string): (r: Durable)
    requires IndexAgrees(d.mem)
    ensures IndexAgrees(r.mem)
  {
    if id in d.mem.store.m && d.mem.store.m[id].status == Active
    then Do(d, OpSet(id, d.mem.store.m[id].(status := PendingSettlement)))
    else d
  }

  function Sweep(d: Durable, ids: seq<string>): (r: Durable)
    requires IndexAgrees(d.mem)
    ensures IndexAgrees(r.mem)
  {
    if |ids| == 0 then d else SweepOne(Sweep(d, ids[..|ids| - 1]), ids[|ids| - 1])
  }

  // ---------------------------------------------------------------------------------------
  // The process
  // ---------------------------------------------------------------------------------------

  /** `inflight` are the handlers awaiting `getBlock`. `journal` lists the events applied to the state, over all
      restarts, and `lost` those whose application a crash prevented after they had been recorded. */
  datatype World = World(
    store: Durable,
    queue: seq<Entry>,
    processed: set<string>,
    inflight: seq<Log>,
    journal: seq<Log>,
    lost: seq<Log>)

  /** The rescheduling in `start`. */
  function Reschedule(m: map<string, Stream>, ids: seq<string>): seq<Entry> {
    if |ids| == 0 then []
    else
      var id := ids[|ids| - 1];
      var queue := Reschedule(m, ids[..|ids| - 1]);
      if id in m && m[id].status == Active && m[id].lifespan > 0
      then InsertAfterTies(queue, Entry(m[id].paycardId, m[id].genesis + m[id].lifespan))
      else queue
  }

  lemma RescheduleNext(m: map<string, Stream>, ids: seq<string>, i: nat)
    requires i < |ids|
    ensures Reschedule(m, ids[..i + 1])
         == if ids[i] in m && m[ids[i]].status == Active && m[ids[i]].lifespan > 0
            then InsertAfterTies(Reschedule(m, ids[..i]), Entry(m[ids[i]].paycardId, m[ids[i]].genesis + m[ids[i]].lifespan))
            else Reschedule(m, ids[..i])
  {
    assert ids[..i + 1][..i] == ids[..i];
  }

  /** A process starting on the files of a previous one, with the history of the previous ones. */
  function Boot(disk: Disk, journal: seq<Log>, lost: seq<Log>): World {
    var store := Load(disk);
    World(store, Reschedule(store.mem.store.m, store.mem.store.order), {}, [], journal, lost)
  }

  datatype Step =
    | Deliver(log: Log)                                             // subscription or backfill
    | Resume(i: nat, timestamp: Option<nat>, clock: nat)
    | BlockFails(i: nat)
    | RecordThenCrash(i: nat, timestamp: Option<nat>, clock: nat)
    | Tick(now: real)
    | TickThenCrash(now: real, n: nat)                              // after n ids of the sweep
    | Bind(id: string, workflowId: Option<string>)
    | StopAndStart                                                  // in the same process, on the same store
    | Restart                                                       // a new process on the files

  predicate Enabled(w: World, step: Step) {
    match step
    case Resume(i, _, _) => i < |w.inflight|
    case BlockFails(i) => i < |w.inflight|
    case RecordThenCrash(i, _, _) => i < |w.inflight|
    case TickThenCrash(now, n) => n <= |DueEntries(w.queue, now)|
    case _ => true
  }

  function Without<T>(s: seq<T>, i: nat): seq<T>
    requires i < |s|
  {
    s[..i] + s[i + 1..]
  }

  function Next(w: World, step: Step): (r: World)
    requires IndexAgrees(w.store.mem) && Enabled(w, step)
    ensures IndexAgrees(r.store.mem)
  {
    match step
    case Deliver(log) =>
      if LogKey(log) in w.processed then w
      else if LogKey(log) in w.store.keys then w.(processed := w.processed + {LogKey(log)})
      else w.(processed := w.processed + {LogKey(log)}, inflight := w.inflight + [log])
    case Resume(i, timestamp, clock) =>
      var log := w.inflight[i];
      var recorded := RecordEvent(w.store, log, timestamp, clock);
      w.(store := ApplyEvent(recorded, log, timestamp), queue := Rescheduled(w.queue, log),
         inflight := Without(w.inflight, i), journal := w.journal + [log])
    case BlockFails(i) => w.(inflight := Without(w.inflight, i))
    case RecordThenCrash(i, timestamp, clock) =>
      var log := w.inflight[i];
      Boot(RecordEvent(w.store, log, timestamp, clock).disk, w.journal, w.lost + [log])
    case Tick(now) =>
      w.(store := Sweep(Accrue(w.store, now), Ids(DueEntries(w.queue, now))), queue := LaterEntries(w.queue, now))
    case TickThenCrash(now, n) =>
      Boot(Sweep(Accrue(w.store, now), Ids(DueEntries(w.queue, now))[..n]).disk, w.journal, w.lost)
    case Bind(id, workflowId) => w.(store := Do(w.store, OpBind(id, workflowId)))
    case StopAndStart => w.(queue := Reschedule(w.store.mem.store.m, w.store.mem.store.order))
    case Restart => Boot(w.store.disk, w.journal, w.lost)
  }

  ghost predicate Legal(disk: Disk, steps: seq<Step>)
    decreases |steps|, 0
  {
    |steps| > 0 ==>
      var n := |steps| - 1;
      Legal(disk, steps[..n]) && Enabled(Exec(disk, steps[..n]), steps[n])
  }

  /** Every interleaving of deliveries, resumptions, failures, ticks, bindings, crashes and restarts. */
  ghost function Exec(disk: Disk, steps: seq<Step>): (w: World)
    requires Legal(disk, steps)
    ensures IndexAgrees(w.store.mem)
    decreases |steps|, 1
  {
    if |steps| == 0 then Boot(disk, [], [])
    else Next(Exec(disk, steps[..|steps| - 1]), steps[|steps| - 1])
  }
}
