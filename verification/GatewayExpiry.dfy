/** The expiry queue against the linear scan, the order of statuses, and accrual projections. */
module GatewayExpiry {
  import opened Text
  import opened Collections
  import opened StateStore
  import opened PersistentStore
  import opened TerminationQueue
  import opened Gateway
  import opened GatewayRuns
  import opened GatewayBalances

  // ---------------------------------------------------------------------------------------
  // The queue fits the streams
  // ---------------------------------------------------------------------------------------

  predicate Expires(s: Stream) {
    s.status == Active && s.lifespan > 0
  }

  function ExpiryEntry(id: string, s: Stream): Entry {
    Entry(id, s.genesis + s.lifespan)
  }

  /** Every stream that will expire is queued at its expiry time, and every entry is some stream's expiry time. */
  ghost predicate Fits(m: map<string, Stream>, queue: seq<Entry>) {
    && Sorted(queue)
    && (forall id | id in m && Expires(m[id]) :: ExpiryEntry(id, m[id]) in queue)
    && (forall e | e in queue :: e.paycardId in m && m[e.paycardId].lifespan > 0 && e == ExpiryEntry(e.paycardId, m[e.paycardId]))
  }

  /** The same streams with the same terms, of which no more are Active. */
  ghost predicate NoMoreActive(m: map<string, Stream>, m': map<string, Stream>) {
    && m.Keys == m'.Keys
    && (forall id | id in m :: m'[id].genesis == m[id].genesis && m'[id].lifespan == m[id].lifespan
                             && (m'[id].status == Active ==> m[id].status == Active))
  }

  lemma FitsNoMoreActive(m: map<string, Stream>, m': map<string, Stream>, queue: seq<Entry>)
    requires Fits(m, queue) && NoMoreActive(m, m')
    ensures Fits(m', queue)
  {
    forall id | id in m' && Expires(m'[id]) ensures ExpiryEntry(id, m'[id]) in queue {
      assert Expires(m[id]) && ExpiryEntry(id, m[id]) == ExpiryEntry(id, m'[id]);
    }
  }

  lemma SameNoMoreActive(a: Durable, b: Durable)
    requires SameStreams(b, a)
    ensures NoMoreActive(a.mem.store.m, b.mem.store.m)
  {
    forall id | id in a.mem.store.m
      ensures var s, t := a.mem.store.m[id], b.mem.store.m[id];
        t.genesis == s.genesis && t.lifespan == s.lifespan && t.status == s.status
    {
      assert Unprojected(a.mem.store.m[id]) == Unprojected(b.mem.store.m[id]);
    }
  }

  lemma FitsNew(m: map<string, Stream>, queue: seq<Entry>, id: string, s: Stream)
    requires Fits(m, queue) && id !in m && s.status == Active
    ensures Fits(m[id := s], if s.lifespan > 0 then InsertAfterTies(queue, ExpiryEntry(id, s)) else queue)
  {
    var m' := m[id := s];
    var queue' := if s.lifespan > 0 then InsertAfterTies(queue, ExpiryEntry(id, s)) else queue;
    InsertMembers(queue, ExpiryEntry(id, s));
    InsertKeepsSorted(queue, ExpiryEntry(id, s));
    forall x | x in m' && Expires(m'[x]) ensures ExpiryEntry(x, m'[x]) in queue' {
      if x != id {
        assert x in m && Expires(m[x]) && ExpiryEntry(x, m[x]) in queue;
      }
    }
    forall e | e in queue'
      ensures e.paycardId in m' && m'[e.paycardId].lifespan > 0 && e == ExpiryEntry(e.paycardId, m'[e.paycardId])
    {
      if e in queue {
        assert e.paycardId in m && e.paycardId != id;
      }
    }
  }

  lemma {:induction false} RescheduleMembers(m: map<string, Stream>, ids: seq<string>)
    requires forall id | id in m :: m[id].paycardId == id
    ensures Sorted(Reschedule(m, ids))
    ensures forall e :: e in Reschedule(m, ids) <==> e.paycardId in ids && e.paycardId in m && Expires(m[e.paycardId]) && e == ExpiryEntry(e.paycardId, m[e.paycardId])
  {
    if |ids| == 0 {
    } else {
      var front, id := ids[..|ids| - 1], ids[|ids| - 1];
      RescheduleMembers(m, front);
      assert forall x :: x in ids <==> x in front || x == id;
      if id in m && Expires(m[id]) {
        InsertMembers(Reschedule(m, front), ExpiryEntry(id, m[id]));
        InsertKeepsSorted(Reschedule(m, front), ExpiryEntry(id, m[id]));
      }
    }
  }

  /** The rescheduling makes the queue fit the streams. */
  lemma RescheduleFits(mem: Memory)
    requires IndexAgrees(mem) && KeyedByPaycard(mem)
    ensures Fits(mem.store.m, Reschedule(mem.store.m, mem.store.order))
  {
    var m, queue := mem.store.m, Reschedule(mem.store.m, mem.store.order);
    RescheduleMembers(m, mem.store.order);
    forall id | id in m && Expires(m[id]) ensures ExpiryEntry(id, m[id]) in queue {
      assert id in mem.store.order;
    }
  }

  /** So it does at the start of a process, whatever was loaded. */
  lemma BootFits(disk: Disk, journal: seq<Log>, lost: seq<Log>)
    ensures var w := Boot(disk, journal, lost); Fits(w.store.mem.store.m, w.queue)
  {
    LoadSound(disk);
    RescheduleFits(Load(disk).mem);
  }

  // ---------------------------------------------------------------------------------------
  // Chains that provision each paycard once
  // ---------------------------------------------------------------------------------------

  ghost predicate ProvisionsOnce(chain: set<Log>) {
    forall a, b | a in chain && b in chain && a.event.PaycardProvisioned? && Provisions(b, a.paycardId) :: LogKey(a) == LogKey(b)
  }

  /** The streams that the first process loads were provisioned by events that are on file too. */
  ghost predicate OnFile(disk: Disk, chain: set<Log>) {
    forall id, log | id in Loaded(disk) && log in chain && Provisions(log, id) :: LogKey(log) in Load(disk).keys
  }

  ghost predicate DeliversFrom(steps: seq<Step>, chain: set<Log>) {
    forall k | 0 <= k < |steps| && steps[k].Deliver? :: steps[k].log in chain
  }

  ghost predicate Known(w: World, chain: set<Log>) {
    (forall log | log in w.inflight :: log in chain) && (forall log | log in w.journal :: log in chain)
  }

  lemma StepKnown(w: World, step: Step, chain: set<Log>)
    requires Known(w, chain) && IndexAgrees(w.store.mem) && Enabled(w, step) && (step.Deliver? ==> step.log in chain)
    ensures Known(Next(w, step), chain)
  {
  }

  /** Whoever opened the account of a stream, its provisioning key has been applied or was on file. */
  lemma StreamHasKey(w: World, disk: Disk, chain: set<Log>, log: Log)
    requires Balanced(w, Loaded(disk)) && Known(w, chain) && ProvisionsOnce(chain) && OnFile(disk, chain)
    requires log in chain && log.event.PaycardProvisioned? && log.paycardId in w.store.mem.store.m
    ensures LogKey(log) in LogKeys(w.journal) || LogKey(log) in Load(disk).keys
  {
    var id := log.paycardId;
    assert Accounted(Lookup(w.store.mem.store.m, id), Ledger(Loaded(disk), w.journal, id));
    var a := Ledger(Loaded(disk), w.journal, id).value;
    if a.openedBy.Some? {
      var other := a.openedBy.value;
      assert other in w.journal && Provisions(other, id) && other in chain && Provisions(log, id);
      KeysOfMembers(w.journal);
      assert LogKey(other) in LogKeys(w.journal) && LogKey(log) == LogKey(other);
    } else {
      assert id in Loaded(disk) && Provisions(log, id);
    }
  }

  /** Under such a chain a resuming provisioning event finds no stream under its id. */
  lemma ProvisionedFresh(w: World, disk: Disk, chain: set<Log>, i: nat)
    requires AtMostOnce(w, Load(disk).keys) && Balanced(w, Loaded(disk)) && Known(w, chain)
    requires ProvisionsOnce(chain) && OnFile(disk, chain)
    requires i < |w.inflight| && w.inflight[i].event.PaycardProvisioned?
    ensures w.inflight[i].paycardId !in w.store.mem.store.m
  {
    ResumingIsFresh(w, Load(disk).keys, i);
    if w.inflight[i].paycardId in w.store.mem.store.m {
      StreamHasKey(w, disk, chain, w.inflight[i]);
    }
  }

  lemma HandledNoMoreActive(m: map<string, Stream>, log: Log, timestamp: Option<nat>)
    requires !log.event.PaycardProvisioned?
    ensures NoMoreActive(m, Handled(m, log, timestamp))
  {
    if log.paycardId in m {
      var s := m[log.paycardId];
      var t := Handle(Some(s), log, timestamp).value;
      assert t.genesis == s.genesis && t.lifespan == s.lifespan && (t.status == Active ==> s.status == Active);
    }
  }

  lemma HandledNew(m: map<string, Stream>, queue: seq<Entry>, log: Log, timestamp: Option<nat>)
    requires log.event.PaycardProvisioned?
    ensures Handled(m, log, timestamp) == m[log.paycardId := NewStream(log)]
    ensures Rescheduled(queue, log)
         == if NewStream(log).lifespan > 0 then InsertAfterTies(queue, ExpiryEntry(log.paycardId, NewStream(log))) else queue
  {
  }

  lemma HandledFits(m: map<string, Stream>, queue: seq<Entry>, log: Log, timestamp: Option<nat>)
    requires Fits(m, queue)
    requires log.event.PaycardProvisioned? ==> log.paycardId !in m
    ensures Fits(Handled(m, log, timestamp), Rescheduled(queue, log))
  {
    if log.event.PaycardProvisioned? {
      FitsNew(m, queue, log.paycardId, NewStream(log));
      HandledNew(m, queue, log, timestamp);
    } else {
      HandledNoMoreActive(m, log, timestamp);
      FitsNoMoreActive(m, Handled(m, log, timestamp), queue);
    }
  }

  lemma ResumeFits(w: World, i: nat, timestamp: Option<nat>, clock: nat)
    requires Fits(w.store.mem.store.m, w.queue) && Sound(w.store) && i < |w.inflight|
    requires w.inflight[i].event.PaycardProvisioned? ==> w.inflight[i].paycardId !in w.store.mem.store.m
    ensures var w' := Next(w, Resume(i, timestamp, clock)); Fits(w'.store.mem.store.m, w'.queue)
  {
    var log := w.inflight[i];
    RecordedEvent(w.store, log, timestamp, clock);
    AppliedEvent(RecordEvent(w.store, log, timestamp, clock), log, timestamp);
    HandledFits(w.store.mem.store.m, w.queue, log, timestamp);
  }

  // ---------------------------------------------------------------------------------------
  // Sweeping
  // ---------------------------------------------------------------------------------------

  /** In a queue that fits, the due ids that are still Active are what the linear scan finds, lifespan 0 aside. */
  lemma DueIsExpired(m: map<string, Stream>, queue: seq<Entry>, now: real, id: string)
    requires Fits(m, queue)
    ensures id in Ids(DueEntries(queue, now)) && id in m && m[id].status == Active
       <==> id in m && ExpiredBy(m[id], now) && m[id].lifespan > 0
  {
    var due := DueEntries(queue, now);
    FilterMembers((e: Entry) => Due(e, now), queue);
    if id in Ids(due) {
      var i :| 0 <= i < |due| && Ids(due)[i] == id;
      assert due[i] in due;
    }
    if id in m && ExpiredBy(m[id], now) && m[id].lifespan > 0 {
      var e := ExpiryEntry(id, m[id]);
      assert e in due;
      var i :| 0 <= i < |due| && due[i] == e;
      assert Ids(due)[i] == id;
    }
  }

  lemma TickStepFits(w: World, now: real)
    requires Sound(w.store) && Fits(w.store.mem.store.m, w.queue)
    ensures var w' := Next(w, Tick(now)); Fits(w'.store.mem.store.m, w'.queue)
  {
    TickFits(w.store, w.queue, now);
    var w' := Next(w, Tick(now));
    assert w'.store == Sweep(Accrue(w.store, now), Ids(DueEntries(w.queue, now))) && w'.queue == LaterEntries(w.queue, now);
  }

  lemma TickFits(d: Durable, queue: seq<Entry>, now: real)
    requires Sound(d) && Fits(d.mem.store.m, queue)
    ensures Fits(Sweep(Accrue(d, now), Ids(DueEntries(queue, now))).mem.store.m, LaterEntries(queue, now))
  {
    Accrued(d, now);
    SameNoMoreActive(d, Accrue(d, now));
    var m := Accrue(d, now).mem.store.m;
    FitsNoMoreActive(d.mem.store.m, m, queue);
    var ids := Ids(DueEntries(queue, now));
    Swept(Accrue(d, now), ids);
    FlippedFits(m, queue, now);
  }

  lemma FlippedFits(m: map<string, Stream>, queue: seq<Entry>, now: real)
    requires Fits(m, queue)
    ensures Fits(FlippedIn(m, Ids(DueEntries(queue, now))), LaterEntries(queue, now))
  {
    var ids, later := Ids(DueEntries(queue, now)), (e: Entry) => !Due(e, now);
    var m' := FlippedIn(m, ids);
    FilterKeepsSorted(later, queue);
    FilterMembers(later, queue);
    forall id | id in m' && Expires(m'[id]) ensures ExpiryEntry(id, m'[id]) in LaterEntries(queue, now) {
      DueIsExpired(m, queue, now, id);
      assert ExpiryEntry(id, m[id]) in queue;
    }
  }

  lemma BoundFits(m: map<string, Stream>, queue: seq<Entry>, id: string, w: Option<string>)
    requires Fits(m, queue) && id in m
    ensures Fits(m[id := m[id].(workflowId := w)], queue)
  {
    FitsNoMoreActive(m, m[id := m[id].(workflowId := w)], queue);
  }

  lemma BindFits(d: Durable, queue: seq<Entry>, id: string, workflowId: Option<string>)
    requires Sound(d) && Fits(d.mem.store.m, queue)
    ensures Fits(Do(d, OpBind(id, workflowId)).mem.store.m, queue)
  {
    Bound(d, id, workflowId);
    if id in d.mem.store.m {
      BoundFits(d.mem.store.m, queue, id, if Truthy(workflowId) then workflowId else None);
    }
  }

  lemma BindStepFits(w: World, id: string, workflowId: Option<string>)
    requires Sound(w.store) && Fits(w.store.mem.store.m, w.queue)
    ensures var w' := Next(w, Bind(id, workflowId)); Fits(w'.store.mem.store.m, w'.queue)
  {
    BindFits(w.store, w.queue, id, workflowId);
    var w' := Next(w, Bind(id, workflowId));
    assert w'.store == Do(w.store, OpBind(id, workflowId)) && w'.queue == w.queue;
  }

  /** Steps that touch neither streams nor queue. */
  lemma QuietStep(w: World, step: Step)
    requires IndexAgrees(w.store.mem) && Enabled(w, step) && (step.Deliver? || step.BlockFails?)
    ensures Next(w, step).store == w.store && Next(w, step).queue == w.queue
  {
  }

  /** Steps after which the queue is rebuilt from the stored streams. */
  lemma CrashFits(w: World, step: Step)
    requires IndexAgrees(w.store.mem) && Enabled(w, step) && (step.RecordThenCrash? || step.TickThenCrash? || step.Restart?)
    ensures var w' := Next(w, step); Fits(w'.store.mem.store.m, w'.queue)
  {
    var w' := Next(w, step);
    BootFits(w'.store.disk, w'.journal, w'.lost);
  }

  /** A provisioning event is applied only to an id that has no stream. */
  ghost predicate FreshlyProvisions(w: World, step: Step)
    requires Enabled(w, step)
  {
    step.Resume? && w.inflight[step.i].event.PaycardProvisioned? ==> w.inflight[step.i].paycardId !in w.store.mem.store.m
  }

  lemma StepFits(w: World, step: Step)
    requires Fits(w.store.mem.store.m, w.queue) && Sound(w.store) && Enabled(w, step) && FreshlyProvisions(w, step)
    ensures var w' := Next(w, step); Fits(w'.store.mem.store.m, w'.queue)
  {
    match step
    case Resume(i, timestamp, clock) => ResumeFits(w, i, timestamp, clock);
    case Tick(now) => TickStepFits(w, now);
    case Bind(id, workflowId) => BindStepFits(w, id, workflowId);
    case StopAndStart => RescheduleFits(w.store.mem);
    case Deliver(_) => QuietStep(w, step);
    case BlockFails(_) => QuietStep(w, step);
    case _ => CrashFits(w, step);
  }

  lemma {:induction false} AlwaysKnown(disk: Disk, steps: seq<Step>, chain: set<Log>)
    requires Legal(disk, steps) && DeliversFrom(steps, chain)
    ensures Known(Exec(disk, steps), chain)
    decreases |steps|
  {
    if |steps| == 0 {
    } else {
      var front, step := steps[..|steps| - 1], steps[|steps| - 1];
      AlwaysKnown(disk, front, chain);
      StepKnown(Exec(disk, front), step, chain);
    }
  }

  lemma AlwaysFresh(disk: Disk, steps: seq<Step>, chain: set<Log>, step: Step)
    requires Legal(disk, steps) && OnFile(disk, chain) && Enabled(Exec(disk, steps), step)
    requires ProvisionsOnce(chain) && DeliversFrom(steps, chain)
    ensures FreshlyProvisions(Exec(disk, steps), step)
  {
    AlwaysOnce(disk, steps);
    AlwaysBalanced(disk, steps);
    AlwaysKnown(disk, steps, chain);
    var w := Exec(disk, steps);
    if step.Resume? && w.inflight[step.i].event.PaycardProvisioned? {
      ProvisionedFresh(w, disk, chain, step.i);
    }
  }

  lemma {:induction false} AlwaysFits(disk: Disk, steps: seq<Step>, chain: set<Log>)
    requires Legal(disk, steps) && OnFile(disk, chain)
    requires ProvisionsOnce(chain) && DeliversFrom(steps, chain)
    ensures var w := Exec(disk, steps); Fits(w.store.mem.store.m, w.queue)
    decreases |steps|
  {
    if |steps| == 0 {
      BootFits(disk, [], []);
    } else {
      var front, step := steps[..|steps| - 1], steps[|steps| - 1];
      AlwaysFits(disk, front, chain);
      AlwaysSound(disk, front);
      AlwaysFresh(disk, front, chain, step);
      StepFits(Exec(disk, front), step);
    }
  }

  /** On a chain that provisions each paycard once, and from files whose streams have their provisioning events on
      file, in every reachable state, across restarts: a tick moves to PendingSettlement exactly the streams of
      positive lifespan that the linear scan `getExpired` finds, and changes no other status. */
  lemma SweepMatchesScan(disk: Disk, steps: seq<Step>, chain: set<Log>, now: real, id: string)
    requires Legal(disk, steps) && OnFile(disk, chain)
    requires ProvisionsOnce(chain) && DeliversFrom(steps, chain)
    ensures var w := Exec(disk, steps);
      var s, s' := Find(w.store, id), Find(Next(w, Tick(now)).store, id);
      && s.Some? == s'.Some?
      && (s.Some? ==> s'.value.status == if ExpiredBy(s.value, now) && s.value.lifespan > 0 then PendingSettlement else s.value.status)
  {
    var w := Exec(disk, steps);
    AlwaysFits(disk, steps, chain);
    AlwaysSound(disk, steps);
    TickMatchesScan(w.store, w.queue, now, id);
    assert Next(w, Tick(now)).store == Sweep(Accrue(w.store, now), Ids(DueEntries(w.queue, now)));
  }

  lemma TickMatchesScan(d: Durable, queue: seq<Entry>, now: real, id: string)
    requires Sound(d) && Fits(d.mem.store.m, queue)
    ensures var s, s' := Find(d, id), Find(Sweep(Accrue(d, now), Ids(DueEntries(queue, now))), id);
      && s.Some? == s'.Some?
      && (s.Some? ==> s'.value.status == if ExpiredBy(s.value, now) && s.value.lifespan > 0 then PendingSettlement else s.value.status)
  {
    Accrued(d, now);
    Ticked(d, now, Ids(DueEntries(queue, now)));
    DueIsExpired(d.mem.store.m, queue, now, id);
    if id in d.mem.store.m {
      assert Unprojected(d.mem.store.m[id]) == Unprojected(Accrue(d, now).mem.store.m[id]);
    }
  }

  /** Without that discipline the two part. After a second provisioning event for an id, a sweep flips the new stream
      when the scan would not find it, or when it is never to expire, exactly if the entry of the old stream is still
      queued and due and the new stream does not expire or is not due yet. The old stream may be Active or not: an
      entry stays queued when a settlement or a reclaim ends its stream. */
  lemma ReprovisionFlipsEarly(m: map<string, Stream>, queue: seq<Entry>, log: Log, timestamp: Option<nat>, now: real)
    requires Fits(m, queue) && log.event.PaycardProvisioned? && log.paycardId in m
    ensures var m', queue' := Handled(m, log, timestamp), Rescheduled(queue, log);
      var id, e, entry := log.paycardId, log.event, ExpiryEntry(log.paycardId, m[log.paycardId]);
      (FlippedIn(m', Ids(DueEntries(queue', now)))[id].status == PendingSettlement && !(ExpiredBy(m'[id], now) && e.lifespan > 0))
        <==> entry in queue && Due(entry, now) && (e.lifespan == 0 || now < (e.genesis + e.lifespan) as real)
  {
    var id := log.paycardId;
    var e := Entry(id, log.event.genesis + log.event.lifespan);
    var queue' := Rescheduled(queue, log);
    var due := DueEntries(queue', now);
    InsertMembers(queue, e);
    FilterMembers((x: Entry) => Due(x, now), queue');
    var entry := ExpiryEntry(id, m[id]);
    if entry in queue && Due(entry, now) {
      assert entry in due;
      var i :| 0 <= i < |due| && due[i] == entry;
      assert Ids(due)[i] == id;
    }
    if id in Ids(due) {
      var i :| 0 <= i < |due| && Ids(due)[i] == id;
      assert due[i] in due && (due[i] == e || due[i] in queue);
    }
  }

  /** A settlement that ends a stream leaves its entry queued. */
  lemma SettlementKeepsEntry(m: map<string, Stream>, queue: seq<Entry>, log: Log, timestamp: Option<nat>)
    requires Fits(m, queue) && log.event.SettlementFlushed? && log.paycardId in m && Expires(m[log.paycardId])
    ensures Rescheduled(queue, log) == queue && ExpiryEntry(log.paycardId, Handled(m, log, timestamp)[log.paycardId]) in queue
  {
    var s := m[log.paycardId];
    assert ExpiryEntry(log.paycardId, s) == ExpiryEntry(log.paycardId, AfterSettlement(s, log.event.amountWithdrawn, timestamp));
  }

  // ---------------------------------------------------------------------------------------
  // Statuses only advance
  // ---------------------------------------------------------------------------------------

  function Rank(status: Status): nat {
    match status
    case Active => 0
    case PendingSettlement => 1
    case Terminated => 2
  }

  /** Same terms, and a status that has not gone back. */
  predicate Advances(s: Stream, t: Stream) {
    && t.genesis == s.genesis && t.lifespan == s.lifespan && t.velocity == s.velocity
    && t.totalAllocation == s.totalAllocation && t.availableBalance <= s.availableBalance
    && Rank(t.status) >= Rank(s.status)
  }

  ghost predicate AllAdvance(m: map<string, Stream>, m': map<string, Stream>) {
    forall id | id in m :: id in m' && Advances(m[id], m'[id])
  }

  lemma SameAdvance(a: Durable, b: Durable)
    requires SameStreams(b, a)
    ensures AllAdvance(a.mem.store.m, b.mem.store.m)
  {
    forall id | id in a.mem.store.m ensures Advances(a.mem.store.m[id], b.mem.store.m[id]) {
      assert Unprojected(a.mem.store.m[id]) == Unprojected(b.mem.store.m[id]);
    }
  }

  lemma TickAdvances(d: Durable, now: real, ids: seq<string>)
    requires Sound(d)
    ensures AllAdvance(d.mem.store.m, Sweep(Accrue(d, now), ids).mem.store.m)
  {
    Accrued(d, now);
    SameAdvance(d, Accrue(d, now));
    Swept(Accrue(d, now), ids);
    FlippedAdvance(Accrue(d, now).mem.store.m, ids);
    AdvanceTwice(d.mem.store.m, Accrue(d, now).mem.store.m, Sweep(Accrue(d, now), ids).mem.store.m);
  }

  lemma FlippedAdvance(m: map<string, Stream>, ids: seq<string>)
    ensures AllAdvance(m, FlippedIn(m, ids))
  {
  }

  lemma AdvanceTwice(a: map<string, Stream>, b: map<string, Stream>, c: map<string, Stream>)
    requires AllAdvance(a, b) && AllAdvance(b, c)
    ensures AllAdvance(a, c)
  {
  }

  lemma RebootAdvances(m: map<string, Stream>, d: Durable)
    requires Sound(d) && AllAdvance(m, d.mem.store.m)
    ensures AllAdvance(m, Load(d.disk).mem.store.m)
  {
    Reloaded(d);
    SameAdvance(d, Load(d.disk));
    AdvanceTwice(m, d.mem.store.m, Load(d.disk).mem.store.m);
  }

  lemma HandledAdvance(m: map<string, Stream>, log: Log, timestamp: Option<nat>)
    requires log.event.PaycardProvisioned? ==> log.paycardId !in m
    ensures AllAdvance(m, Handled(m, log, timestamp))
  {
  }

  lemma CrashAdvances(w: World, step: Step)
    requires Sound(w.store) && Enabled(w, step) && (step.RecordThenCrash? || step.TickThenCrash? || step.Restart?)
    ensures AllAdvance(w.store.mem.store.m, Next(w, step).store.mem.store.m)
  {
    var m := w.store.mem.store.m;
    match step
    case RecordThenCrash(i, timestamp, clock) =>
      RecordedEvent(w.store, w.inflight[i], timestamp, clock);
      RebootAdvances(m, RecordEvent(w.store, w.inflight[i], timestamp, clock));
    case TickThenCrash(now, n) =>
      var ids := Ids(DueEntries(w.queue, now))[..n];
      TickAdvances(w.store, now, ids);
      Ticked(w.store, now, ids);
      RebootAdvances(m, Sweep(Accrue(w.store, now), ids));
    case Restart => RebootAdvances(m, w.store);
  }

  lemma ResumeAdvances(w: World, i: nat, timestamp: Option<nat>, clock: nat)
    requires Sound(w.store) && i < |w.inflight| && FreshlyProvisions(w, Resume(i, timestamp, clock))
    ensures AllAdvance(w.store.mem.store.m, Next(w, Resume(i, timestamp, clock)).store.mem.store.m)
  {
    var log := w.inflight[i];
    var recorded := RecordEvent(w.store, log, timestamp, clock);
    RecordedEvent(w.store, log, timestamp, clock);
    AppliedMap(recorded, log, timestamp);
    HandledAdvance(w.store.mem.store.m, log, timestamp);
    assert Next(w, Resume(i, timestamp, clock)).store == ApplyEvent(recorded, log, timestamp);
  }

  lemma TickStepAdvances(w: World, now: real)
    requires Sound(w.store)
    ensures AllAdvance(w.store.mem.store.m, Next(w, Tick(now)).store.mem.store.m)
  {
    var ids := Ids(DueEntries(w.queue, now));
    TickAdvances(w.store, now, ids);
    assert Next(w, Tick(now)).store == Sweep(Accrue(w.store, now), ids);
  }

  lemma RebindAdvances(m: map<string, Stream>, id: string, workflowId: Option<string>)
    requires id in m
    ensures AllAdvance(m, m[id := m[id].(workflowId := workflowId)])
  {
  }

  lemma BindAdvances(w: World, id: string, workflowId: Option<string>)
    requires Sound(w.store)
    ensures AllAdvance(w.store.mem.store.m, Next(w, Bind(id, workflowId)).store.mem.store.m)
  {
    var m := w.store.mem.store.m;
    Bound(w.store, id, workflowId);
    if id in m {
      RebindAdvances(m, id, if Truthy(workflowId) then workflowId else None);
    }
    assert Next(w, Bind(id, workflowId)).store == Do(w.store, OpBind(id, workflowId));
  }

  lemma StopAndStartKeepsStore(w: World)
    requires IndexAgrees(w.store.mem)
    ensures Next(w, StopAndStart).store == w.store
  {
  }

  lemma StepAdvances(w: World, step: Step)
    requires Sound(w.store) && Enabled(w, step) && FreshlyProvisions(w, step)
    ensures AllAdvance(w.store.mem.store.m, Next(w, step).store.mem.store.m)
  {
    match step
    case Resume(i, timestamp, clock) => ResumeAdvances(w, i, timestamp, clock);
    case Tick(now) => TickStepAdvances(w, now);
    case Bind(id, workflowId) => BindAdvances(w, id, workflowId);
    case StopAndStart => StopAndStartKeepsStore(w);
    case Deliver(_) => QuietStep(w, step);
    case BlockFails(_) => QuietStep(w, step);
    case _ => CrashAdvances(w, step);
  }

  /** The streams that the first process loads are empty if they are Terminated. */
  ghost predicate EmptyIfTerminated(disk: Disk) {
    forall id | id in Loaded(disk) && Loaded(disk)[id].status == Terminated :: Loaded(disk)[id].availableBalance == 0
  }

  /** On such a chain and from such files, no step of any run, crashes and restarts included, drops a stream, changes
      its terms, raises its balance or takes its status back; and a Terminated stream is empty, if it was so on file. */
  lemma StatusOnlyAdvances(disk: Disk, steps: seq<Step>, chain: set<Log>, step: Step, id: string)
    requires Legal(disk, steps) && OnFile(disk, chain) && Enabled(Exec(disk, steps), step)
    requires ProvisionsOnce(chain) && DeliversFrom(steps, chain)
    requires Find(Exec(disk, steps).store, id).Some?
    ensures var s := Find(Exec(disk, steps).store, id).value;
      var next := Find(Next(Exec(disk, steps), step).store, id);
      next.Some? && Advances(s, next.value) && (EmptyIfTerminated(disk) && s.status == Terminated ==> s.availableBalance == 0)
  {
    AlwaysSound(disk, steps);
    AlwaysFresh(disk, steps, chain, step);
    StepAdvances(Exec(disk, steps), step);
    AlwaysBalanced(disk, steps);
    var w := Exec(disk, steps);
    assert Accounted(Lookup(w.store.mem.store.m, id), Ledger(Loaded(disk), w.journal, id));
  }

  // ---------------------------------------------------------------------------------------
  // Lost snapshots
  // ---------------------------------------------------------------------------------------

  /** A stream that is not in the snapshot, but whose provisioning events are in the event file, never comes back:
      the loader does not replay events, and deduplication keeps every later delivery of them out. */
  lemma LostSnapshotStaysLost(disk: Disk, steps: seq<Step>, chain: set<Log>, id: string)
    requires Legal(disk, steps) && id !in Loaded(disk) && DeliversFrom(steps, chain)
    requires forall log | log in chain && Provisions(log, id) :: LogKey(log) in Load(disk).keys
    ensures Find(Exec(disk, steps).store, id) == None
  {
    AlwaysOnce(disk, steps);
    AlwaysBalanced(disk, steps);
    AlwaysKnown(disk, steps, chain);
    var w := Exec(disk, steps);
    assert Accounted(Lookup(w.store.mem.store.m, id), Ledger(Loaded(disk), w.journal, id));
    KeysOfMembers(w.journal);
  }

  function DeliverAndResume(log: Log): seq<Step> {
    [Deliver(log), Resume(0, None, 0)]
  }

  /** A provisioning event that is not on file brings its stream. */
  lemma DeliveryProvisions(disk: Disk, log: Log)
    requires log.event.PaycardProvisioned? && LogKey(log) !in Load(disk).keys
    ensures Legal(disk, DeliverAndResume(log))
    ensures Find(Exec(disk, DeliverAndResume(log)).store, log.paycardId).Some?
  {
    var steps := DeliverAndResume(log);
    assert steps[..0] == [] && steps[..1][..0] == [] && Legal(disk, []);
    var booted := Exec(disk, []);
    assert Legal(disk, steps[..1]) && Exec(disk, steps[..1]) == Next(booted, Deliver(log));
    var delivered := Exec(disk, steps[..1]);
    assert delivered.inflight == [log] && delivered.store == booted.store;
    AlwaysSound(disk, steps[..1]);
    RecordedEvent(delivered.store, log, None, 0);
    AppliedMap(RecordEvent(delivered.store, log, None, 0), log, None);
    assert Exec(disk, steps).store == ApplyEvent(RecordEvent(delivered.store, log, None, 0), log, None);
  }

  ghost predicate Brings(disk: Disk, chain: set<Log>, id: string, steps: seq<Step>) {
    Legal(disk, steps) && DeliversFrom(steps, chain) && Find(Exec(disk, steps).store, id).Some?
  }

  ghost predicate ProvisionedOffFile(disk: Disk, id: string, log: Log) {
    Provisions(log, id) && LogKey(log) !in Load(disk).keys
  }

  /** A stream missing from the snapshot can come back if and only if some provisioning event of it is not on file. */
  lemma LostStreamReturnsIff(disk: Disk, chain: set<Log>, id: string)
    requires id !in Loaded(disk)
    ensures (exists steps :: Brings(disk, chain, id, steps)) <==> exists log :: log in chain && ProvisionedOffFile(disk, id, log)
  {
    if log :| log in chain && ProvisionedOffFile(disk, id, log) {
      DeliveryProvisions(disk, log);
      assert Brings(disk, chain, id, DeliverAndResume(log));
    } else if steps :| Brings(disk, chain, id, steps) {
      LostSnapshotStaysLost(disk, steps, chain, id);
    }
  }

  // ---------------------------------------------------------------------------------------
  // Accrual projections
  // ---------------------------------------------------------------------------------------

  function Shown(s: Stream, now: real): Stream {
    if Accrues(s, now) then s.(projected := Some(Projection(s, now))) else s
  }

  function ShownIn(m: map<string, Stream>, ids: seq<string>, now: real): map<string, Stream> {
    map id | id in m :: if id in ids then Shown(m[id], now) else m[id]
  }

  lemma ShownSnoc(m: map<string, Stream>, ids: seq<string>, id: string, now: real)
    ensures ShownIn(m, ids + [id], now) == if id in m then ShownIn(m, ids, now)[id := Shown(m[id], now)] else ShownIn(m, ids, now)
  {
  }

  lemma {:induction false} ShownAll(d: Durable, ids: seq<string>, now: real)
    requires IndexAgrees(d.mem)
    ensures DoAll(d, AccrualOps(d.mem.store.m, ids, now)).mem.store.m == ShownIn(d.mem.store.m, ids, now)
  {
    var m := d.mem.store.m;
    if |ids| == 0 {
      assert ShownIn(m, ids, now) == m;
    } else {
      var front, id := ids[..|ids| - 1], ids[|ids| - 1];
      ShownAll(d, front, now);
      ShownSnoc(m, front, id, now);
      assert ids == front + [id];
      ShowOne(d, AccrualOps(m, front, now), m, front, id, now);
    }
  }

  lemma AccrualOpsLast(m: map<string, Stream>, front: seq<string>, id: string, now: real)
    ensures AccrualOps(m, front + [id], now)
         == AccrualOps(m, front, now) + (if id in m && Accrues(m[id], now) then [OpProject(id, Some(Projection(m[id], now)))] else [])
  {
    assert (front + [id])[..|front|] == front;
  }

  lemma ProjectLast(d: Durable, ops: seq<StoreOp>, op: StoreOp)
    requires IndexAgrees(d.mem) && op.OpProject?
    ensures DoAll(d, ops + [op]).mem == Project(DoAll(d, ops).mem, op.id, op.projected)
  {
    assert (ops + [op])[..|ops + [op]| - 1] == ops;
  }

  lemma ProjectShows(mem: Memory, m: map<string, Stream>, front: seq<string>, id: string, now: real)
    requires mem.store.m == ShownIn(m, front, now) && id in m && Accrues(m[id], now)
    ensures Project(mem, id, Some(Projection(m[id], now))).store.m == ShownIn(m, front, now)[id := Shown(m[id], now)]
  {
  }

  lemma ShowOne(d: Durable, ops: seq<StoreOp>, m: map<string, Stream>, front: seq<string>, id: string, now: real)
    requires IndexAgrees(d.mem) && DoAll(d, ops).mem.store.m == ShownIn(m, front, now)
    requires ops == AccrualOps(m, front, now)
    ensures DoAll(d, AccrualOps(m, front + [id], now)).mem.store.m
         == if id in m then ShownIn(m, front, now)[id := Shown(m[id], now)] else ShownIn(m, front, now)
  {
    AccrualOpsLast(m, front, id, now);
    if id in m && Accrues(m[id], now) {
      ProjectLast(d, ops, OpProject(id, Some(Projection(m[id], now))));
      ProjectShows(DoAll(d, ops).mem, m, front, id, now);
    } else {
      assert ops + [] == ops;
      if id in m {
        assert ShownIn(m, front, now)[id := Shown(m[id], now)] == ShownIn(m, front, now);
      }
    }
  }

  /** A tick's assignments are those of one pass over the streams as they stood. */
  lemma AccrueShows(d: Durable, now: real, id: string)
    requires IndexAgrees(d.mem) && id in d.mem.store.m
    ensures id in Accrue(d, now).mem.store.m && Accrue(d, now).mem.store.m[id] == Shown(d.mem.store.m[id], now)
  {
    ShownAll(d, d.mem.store.order, now);
    assert id in d.mem.store.order;
  }

  /** What n seconds at a velocity leave of a balance. */
  function LeftAfter(balance: nat, velocity: nat, n: nat): nat {
    if balance > velocity * n then balance - velocity * n else 0
  }

  predicate RunsOn(s: Stream, now: real) {
    s.status == Active && s.lifespan > 0 && now > s.lastCheckpoint as real
  }

  /** A tick at `now`, n whole seconds after the checkpoint of an Active stream of positive lifespan, shows its balance less n
      times its velocity, but never less than 0; every other stream keeps what it showed. */
  lemma TickShowsWholeSeconds(d: Durable, now: real, id: string, n: nat)
    requires IndexAgrees(d.mem) && id in d.mem.store.m
    ensures var s := d.mem.store.m[id];
      var shown := Accrue(d, now).mem.store.m;
      && id in shown
      && (RunsOn(s, now) && n as real <= now - s.lastCheckpoint as real < n as real + 1.0 ==>
            shown[id] == s.(projected := Some(LeftAfter(s.availableBalance, s.velocity, n))))
      && (!RunsOn(s, now) ==> shown[id] == s)
  {
    AccrueShows(d, now, id);
    var s := d.mem.store.m[id];
    if RunsOn(s, now) && n as real <= now - s.lastCheckpoint as real < n as real + 1.0 {
      assert (now - s.lastCheckpoint as real).Floor == n;
    }
  }

  /** What a tick shows lies between 0 and the available balance, and falls with time. */
  lemma ProjectionBounded(s: Stream, now: real, later: real)
    requires s.lastCheckpoint as real < now <= later
    ensures 0 <= Projection(s, later) <= Projection(s, now) <= s.availableBalance
  {
    var a, b := (now - s.lastCheckpoint as real).Floor, (later - s.lastCheckpoint as real).Floor;
    assert 0 <= a <= b;
    assert s.velocity * a <= s.velocity * b;
  }

  lemma FloorShift(now: real, t: nat, c: nat)
    ensures (now - c as real).Floor == (now - t as real).Floor + (t - c)
  {
    assert now - c as real == now - t as real + (t - c) as real;
  }

  lemma Distributes(v: nat, a: int, b: int)
    ensures v * (a + b) == v * a + v * b
  {
  }

  /** A settlement at time t that withdraws what has accrued since the last checkpoint, and leaves something,
      is invisible to every later tick. */
  lemma CheckpointTransparent(s: Stream, t: nat, now: real)
    requires s.status == Active && s.lifespan > 0 && s.lastCheckpoint <= t && t as real < now
    requires s.velocity * (t - s.lastCheckpoint) < s.availableBalance
    ensures var after := AfterSettlement(s, s.velocity * (t - s.lastCheckpoint), Some(t));
      after.status == Active && Shown(after, now).projected == Shown(s, now).projected == Some(Projection(s, now))
  {
    var accrued := s.velocity * (t - s.lastCheckpoint);
    FloorShift(now, t, s.lastCheckpoint);
    Distributes(s.velocity, (now - t as real).Floor, t - s.lastCheckpoint);
  }
}
