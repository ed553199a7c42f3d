/** What every run of the gateway keeps: deduplication across restarts, balances, statuses and expiry. */
module GatewayRuns {
  import opened Text
  import opened Collections
  import opened StateStore
  import opened PersistentStore
  import opened TerminationQueue
  import opened Gateway

  // ---------------------------------------------------------------------------------------
  // Effects of the store operations of one step
  // ---------------------------------------------------------------------------------------

  /** What every step relies on: indexes, files and event table agree with the states. */
  ghost predicate Sound(d: Durable) {
    IndexAgrees(d.mem) && KeyedByPaycard(d.mem) && Restartable(d) && TableConsistent(d)
  }

  lemma DoSound(d: Durable, op: StoreOp)
    requires Sound(d) && WritesOwnId(op)
    ensures Sound(Do(d, op))
  {
    DoRestartable(d, op);
    DoTable(d, op);
  }

  lemma LoadSound(disk: Disk)
    ensures Sound(Load(disk))
  {
    LoadedKeyed(SnapshotStates(disk.state));
    LoadedTable(EventLines(disk));
  }

  function Handled(m: map<string, Stream>, log: Log, timestamp: Option<nat>): map<string, Stream> {
    var s := Handle(Lookup(m, log.paycardId), log, timestamp);
    if s.Some? then m[log.paycardId := s.value] else m
  }

  lemma AppliedMap(d: Durable, log: Log, timestamp: Option<nat>)
    requires IndexAgrees(d.mem)
    ensures var r := ApplyEvent(d, log, timestamp);
      r.keys == d.keys && r.events == d.events && r.mem.store.m == Handled(d.mem.store.m, log, timestamp)
  {
    var s := Handle(Find(d, log.paycardId), log, timestamp);
    if s.Some? && log.event.OtherEvent? {
      assert d.mem.store.m == d.mem.store.m[log.paycardId := s.value];
    }
  }

  lemma AppliedSound(d: Durable, log: Log, timestamp: Option<nat>)
    requires Sound(d)
    ensures Sound(ApplyEvent(d, log, timestamp))
  {
    var s := Handle(Find(d, log.paycardId), log, timestamp);
    if s.Some? && !log.event.OtherEvent? {
      DoSound(d, OpSet(log.paycardId, s.value));
    }
  }

  lemma AppliedEvent(d: Durable, log: Log, timestamp: Option<nat>)
    requires Sound(d)
    ensures var r := ApplyEvent(d, log, timestamp);
      Sound(r) && r.keys == d.keys && r.events == d.events && r.mem.store.m == Handled(d.mem.store.m, log, timestamp)
  {
    AppliedMap(d, log, timestamp);
    AppliedSound(d, log, timestamp);
  }

  lemma RecordedEvent(d: Durable, log: Log, timestamp: Option<nat>, clock: nat)
    requires Sound(d)
    ensures var r := RecordEvent(d, log, timestamp, clock);
      && Sound(r) && r.mem == d.mem && r.keys == d.keys + {LogKey(log)}
      && |r.events| == |d.events| + (if LogKey(log) in d.keys then 0 else 1)
  {
    DoSound(d, OpRecord(ToRecord(d, log, timestamp, clock)));
  }

  /** Projections may differ, and nothing else. */
  ghost predicate SameStreams(a: Durable, b: Durable) {
    && a.mem.store.order == b.mem.store.order
    && a.mem.store.m.Keys == b.mem.store.m.Keys
    && (forall id | id in a.mem.store.m :: Unprojected(a.mem.store.m[id]) == Unprojected(b.mem.store.m[id]))
  }

  lemma ProjectedOne(d: Durable, id: string, p: Option<nat>)
    requires Sound(d)
    ensures var r := Do(d, OpProject(id, p));
      Sound(r) && SameStreams(r, d) && r.keys == d.keys && r.events == d.events && r.disk == d.disk
  {
    DoSound(d, OpProject(id, p));
  }

  lemma {:induction false} ProjectedAll(d: Durable, ops: seq<StoreOp>)
    requires Sound(d) && forall k | 0 <= k < |ops| :: ops[k].OpProject?
    ensures var r := DoAll(d, ops);
      Sound(r) && SameStreams(r, d) && r.keys == d.keys && r.events == d.events && r.disk == d.disk
  {
    if |ops| == 0 {
    } else {
      var front, op := ops[..|ops| - 1], ops[|ops| - 1];
      ProjectedAll(d, front);
      ProjectedOne(DoAll(d, front), op.id, op.projected);
    }
  }

  lemma {:induction false} AccrualOpsProject(m: map<string, Stream>, ids: seq<string>, now: real)
    ensures forall op | op in AccrualOps(m, ids, now) :: op.OpProject?
  {
    if |ids| == 0 {
    } else {
      AccrualOpsProject(m, ids[..|ids| - 1], now);
    }
  }

  lemma Accrued(d: Durable, now: real)
    requires Sound(d)
    ensures var r := Accrue(d, now);
      Sound(r) && SameStreams(r, d) && r.keys == d.keys && r.events == d.events && r.disk == d.disk
  {
    var ops := AccrualOps(d.mem.store.m, d.mem.store.order, now);
    AccrualOpsProject(d.mem.store.m, d.mem.store.order, now);
    assert forall k | 0 <= k < |ops| :: ops[k] in ops;
    ProjectedAll(d, ops);
  }

  lemma Reloaded(d: Durable)
    requires Sound(d)
    ensures var l := Load(d.disk); Sound(l) && SameStreams(l, d) && l.keys == d.keys && l.events == d.events
  {
    LoadSound(d.disk);
  }

  function Flipped(s: Stream): Stream {
    if s.status == Active then s.(status := PendingSettlement) else s
  }

  function FlippedIn(m: map<string, Stream>, ids: seq<string>): map<string, Stream> {
    map id | id in m :: if id in ids then Flipped(m[id]) else m[id]
  }

  lemma SweptOne(d: Durable, id: string)
    requires Sound(d)
    ensures var r := SweepOne(d, id);
      && Sound(r) && r.keys == d.keys && r.events == d.events
      && r.mem.store.m == (if id in d.mem.store.m then d.mem.store.m[id := Flipped(d.mem.store.m[id])] else d.mem.store.m)
  {
    if id in d.mem.store.m && d.mem.store.m[id].status == Active {
      DoSound(d, OpSet(id, d.mem.store.m[id].(status := PendingSettlement)));
    } else if id in d.mem.store.m {
      assert d.mem.store.m == d.mem.store.m[id := Flipped(d.mem.store.m[id])];
    }
  }

  lemma FlippedSnoc(m: map<string, Stream>, ids: seq<string>, id: string)
    ensures FlippedIn(m, ids + [id]) ==
            if id in m then FlippedIn(m, ids)[id := Flipped(FlippedIn(m, ids)[id])] else FlippedIn(m, ids)
  {
  }

  lemma {:induction false} Swept(d: Durable, ids: seq<string>)
    requires Sound(d)
    ensures var r := Sweep(d, ids);
      Sound(r) && r.keys == d.keys && r.events == d.events && r.mem.store.m == FlippedIn(d.mem.store.m, ids)
  {
    if |ids| == 0 {
      assert FlippedIn(d.mem.store.m, ids) == d.mem.store.m;
    } else {
      var front, id := ids[..|ids| - 1], ids[|ids| - 1];
      Swept(d, front);
      SweptOne(Sweep(d, front), id);
      assert ids == front + [id];
      FlippedSnoc(d.mem.store.m, front, id);
    }
  }

  lemma Ticked(d: Durable, now: real, ids: seq<string>)
    requires Sound(d)
    ensures var r := Sweep(Accrue(d, now), ids);
      && Sound(r) && r.keys == d.keys && r.events == d.events
      && r.mem.store.m == FlippedIn(Accrue(d, now).mem.store.m, ids)
  {
    Accrued(d, now);
    Swept(Accrue(d, now), ids);
  }

  lemma Bound(d: Durable, id: string, w: Option<string>)
    requires Sound(d)
    ensures var r := Do(d, OpBind(id, w));
      && Sound(r) && r.keys == d.keys && r.events == d.events
      && r.mem.store.m == (if id in d.mem.store.m then d.mem.store.m[id := d.mem.store.m[id].(workflowId := if Truthy(w) then w else None)] else d.mem.store.m)
  {
    DoSound(d, OpBind(id, w));
  }

  lemma StepSound(w: World, step: Step)
    requires Sound(w.store) && Enabled(w, step)
    ensures Sound(Next(w, step).store)
  {
    match step
    case Resume(i, timestamp, clock) =>
      RecordedEvent(w.store, w.inflight[i], timestamp, clock);
      AppliedEvent(RecordEvent(w.store, w.inflight[i], timestamp, clock), w.inflight[i], timestamp);
    case RecordThenCrash(i, timestamp, clock) =>
      LoadSound(RecordEvent(w.store, w.inflight[i], timestamp, clock).disk);
    case Tick(now) => Ticked(w.store, now, Ids(DueEntries(w.queue, now)));
    case TickThenCrash(now, n) =>
      LoadSound(Sweep(Accrue(w.store, now), Ids(DueEntries(w.queue, now))[..n]).disk);
    case Bind(id, workflowId) => Bound(w.store, id, workflowId);
    case Restart => LoadSound(w.store.disk);
    case _ =>
  }

  /** In every reachable state the index, the files and the event table agree with the streams. */
  lemma {:induction false} AlwaysSound(disk: Disk, steps: seq<Step>)
    requires Legal(disk, steps)
    ensures Sound(Exec(disk, steps).store)
    decreases |steps|
  {
    if |steps| == 0 {
      LoadSound(disk);
    } else {
      AlwaysSound(disk, steps[..|steps| - 1]);
      StepSound(Exec(disk, steps[..|steps| - 1]), steps[|steps| - 1]);
    }
  }

  // ---------------------------------------------------------------------------------------
  // At most once
  // ---------------------------------------------------------------------------------------

  function LogKeys(logs: seq<Log>): (r: seq<string>)
    ensures |r| == |logs| && forall i | 0 <= i < |logs| :: r[i] == LogKey(logs[i])
  {
    seq(|logs|, i requires 0 <= i < |logs| => LogKey(logs[i]))
  }

  /** How often each key is being handled, has been applied, or was recorded and then lost. */
  function Tally(w: World): multiset<string> {
    multiset(LogKeys(w.inflight)) + multiset(LogKeys(w.journal)) + multiset(LogKeys(w.lost))
  }

  /** `base` are the keys the event file held before the first process. */
  ghost predicate AtMostOnce(w: World, base: set<string>) {
    && (forall k :: Tally(w)[k] <= 1)
    && (forall k | k in LogKeys(w.inflight) :: k in w.processed && k !in w.store.keys)
    && (forall k :: k in w.store.keys <==> k in base || k in LogKeys(w.journal) || k in LogKeys(w.lost))
    && (forall k | k in base :: k !in LogKeys(w.journal) && k !in LogKeys(w.lost))
  }

  lemma KeysOfMembers(logs: seq<Log>)
    ensures forall log | log in logs :: LogKey(log) in LogKeys(logs)
  {
    forall log | log in logs ensures LogKey(log) in LogKeys(logs) {
      var i :| 0 <= i < |logs| && logs[i] == log;
      assert LogKeys(logs)[i] == LogKey(log);
    }
  }

  lemma KeysSnoc(logs: seq<Log>, log: Log)
    ensures LogKeys(logs + [log]) == LogKeys(logs) + [LogKey(log)]
    ensures multiset(LogKeys(logs + [log])) == multiset(LogKeys(logs)) + multiset{LogKey(log)}
    ensures forall k :: k in LogKeys(logs + [log]) <==> k in LogKeys(logs) || k == LogKey(log)
  {
    assert LogKeys(logs + [log]) == LogKeys(logs) + [LogKey(log)];
  }

  lemma MultisetWithout<T>(s: seq<T>, i: nat)
    requires i < |s|
    ensures multiset(Without(s, i)) == multiset(s) - multiset{s[i]}
  {
    assert s == s[..i] + ([s[i]] + s[i + 1..]);
  }

  lemma KeysWithout(logs: seq<Log>, i: nat)
    requires i < |logs|
    ensures multiset(LogKeys(Without(logs, i))) == multiset(LogKeys(logs)) - multiset{LogKey(logs[i])}
    ensures forall k :: k in LogKeys(Without(logs, i)) ==> k in LogKeys(logs)
  {
    assert LogKeys(Without(logs, i)) == Without(LogKeys(logs), i);
    MultisetWithout(LogKeys(logs), i);
    forall k | k in LogKeys(Without(logs, i)) ensures k in LogKeys(logs) {
      assert k in multiset(LogKeys(Without(logs, i)));
    }
  }

  /** A handler that resumes holds a key nobody else has handled, applied or recorded. */
  lemma ResumingIsFresh(w: World, base: set<string>, i: nat)
    requires AtMostOnce(w, base) && i < |w.inflight|
    ensures var k := LogKey(w.inflight[i]);
      k !in LogKeys(w.journal) && k !in LogKeys(w.lost) && k !in LogKeys(Without(w.inflight, i)) && k !in base && k !in w.store.keys
  {
    var k := LogKey(w.inflight[i]);
    assert LogKeys(w.inflight)[i] == k;
    KeysWithout(w.inflight, i);
    assert k in multiset(LogKeys(w.inflight));
    assert Tally(w)[k] == 1;
    assert k !in multiset(LogKeys(w.journal)) && k !in multiset(LogKeys(w.lost));
    assert k !in multiset(LogKeys(Without(w.inflight, i)));
  }

  /** Taking up a log whose key is neither processed nor recorded. */
  lemma TakeUpOnce(w: World, base: set<string>, log: Log, w': World)
    requires AtMostOnce(w, base) && LogKey(log) !in w.processed && LogKey(log) !in w.store.keys
    requires w' == w.(processed := w.processed + {LogKey(log)}, inflight := w.inflight + [log])
    ensures AtMostOnce(w', base)
  {
    var k := LogKey(log);
    KeysSnoc(w.inflight, log);
    assert k !in LogKeys(w.inflight) && k !in LogKeys(w.journal) && k !in LogKeys(w.lost);
    assert Tally(w)[k] == 0;
    assert Tally(w') == Tally(w) + multiset{k};
  }

  /** Dropping handlers, or all that is in memory, with the table and the history unchanged. */
  lemma FewerOnce(w: World, base: set<string>, w': World)
    requires AtMostOnce(w, base)
    requires w'.store.keys == w.store.keys && w'.journal == w.journal && w'.lost == w.lost
    requires multiset(LogKeys(w'.inflight)) <= multiset(LogKeys(w.inflight))
    requires w'.inflight == [] || w.processed <= w'.processed
    ensures AtMostOnce(w', base)
  {
    forall k | k in LogKeys(w'.inflight) ensures k in w'.processed && k !in w'.store.keys {
      assert k in multiset(LogKeys(w'.inflight));
      assert k in multiset(LogKeys(w.inflight));
    }
    forall k ensures Tally(w')[k] <= 1 {
      assert Tally(w')[k] <= Tally(w)[k];
    }
  }

  lemma DeliverOnce(w: World, base: set<string>, log: Log)
    requires AtMostOnce(w, base) && IndexAgrees(w.store.mem)
    ensures AtMostOnce(Next(w, Deliver(log)), base)
  {
    var w' := Next(w, Deliver(log));
    if LogKey(log) !in w.processed && LogKey(log) !in w.store.keys {
      TakeUpOnce(w, base, log, w');
    } else {
      FewerOnce(w, base, w');
    }
  }

  /** Handler i records its key; its log then joins the journal, or the lost ones with all handlers dropped. */
  lemma RecordOnce(w: World, base: set<string>, i: nat, w': World)
    requires AtMostOnce(w, base) && i < |w.inflight|
    requires w'.store.keys == w.store.keys + {LogKey(w.inflight[i])}
    requires || (w'.journal == w.journal + [w.inflight[i]] && w'.lost == w.lost
                 && w'.inflight == Without(w.inflight, i) && w'.processed == w.processed)
             || (w'.journal == w.journal && w'.lost == w.lost + [w.inflight[i]] && w'.inflight == [])
    ensures AtMostOnce(w', base)
  {
    var log := w.inflight[i];
    ResumingIsFresh(w, base, i);
    KeysWithout(w.inflight, i);
    KeysSnoc(w.journal, log);
    KeysSnoc(w.lost, log);
    assert LogKeys(w.inflight)[i] == LogKey(log);
    assert LogKey(log) in multiset(LogKeys(w.inflight));
    assert Tally(w') <= Tally(w);
    forall k ensures Tally(w')[k] <= 1 {
      assert Tally(w')[k] <= Tally(w)[k];
    }
  }

  lemma ResumeOnce(w: World, base: set<string>, i: nat, timestamp: Option<nat>, clock: nat)
    requires AtMostOnce(w, base) && Sound(w.store) && i < |w.inflight|
    ensures AtMostOnce(Next(w, Resume(i, timestamp, clock)), base)
  {
    RecordedEvent(w.store, w.inflight[i], timestamp, clock);
    AppliedMap(RecordEvent(w.store, w.inflight[i], timestamp, clock), w.inflight[i], timestamp);
    RecordOnce(w, base, i, Next(w, Resume(i, timestamp, clock)));
  }

  lemma RecordThenCrashOnce(w: World, base: set<string>, i: nat, timestamp: Option<nat>, clock: nat)
    requires AtMostOnce(w, base) && Sound(w.store) && i < |w.inflight|
    ensures AtMostOnce(Next(w, RecordThenCrash(i, timestamp, clock)), base)
  {
    RecordedEvent(w.store, w.inflight[i], timestamp, clock);
    Reloaded(RecordEvent(w.store, w.inflight[i], timestamp, clock));
    RecordOnce(w, base, i, Next(w, RecordThenCrash(i, timestamp, clock)));
  }

  lemma TickOnce(w: World, base: set<string>, now: real)
    requires AtMostOnce(w, base) && Sound(w.store)
    ensures AtMostOnce(Next(w, Tick(now)), base)
  {
    Ticked(w.store, now, Ids(DueEntries(w.queue, now)));
    FewerOnce(w, base, Next(w, Tick(now)));
  }

  lemma TickThenCrashOnce(w: World, base: set<string>, now: real, n: nat)
    requires AtMostOnce(w, base) && Sound(w.store) && Enabled(w, TickThenCrash(now, n))
    ensures AtMostOnce(Next(w, TickThenCrash(now, n)), base)
  {
    var ids := Ids(DueEntries(w.queue, now))[..n];
    Ticked(w.store, now, ids);
    Reloaded(Sweep(Accrue(w.store, now), ids));
    FewerOnce(w, base, Next(w, TickThenCrash(now, n)));
  }

  lemma RestartOnce(w: World, base: set<string>)
    requires AtMostOnce(w, base) && Sound(w.store)
    ensures AtMostOnce(Next(w, Restart), base)
  {
    Reloaded(w.store);
    FewerOnce(w, base, Next(w, Restart));
  }

  lemma BindOnce(w: World, base: set<string>, id: string, workflowId: Option<string>)
    requires AtMostOnce(w, base) && Sound(w.store)
    ensures AtMostOnce(Next(w, Bind(id, workflowId)), base)
  {
    Bound(w.store, id, workflowId);
    FewerOnce(w, base, Next(w, Bind(id, workflowId)));
  }

  lemma BlockFailsOnce(w: World, base: set<string>, i: nat)
    requires AtMostOnce(w, base) && IndexAgrees(w.store.mem) && i < |w.inflight|
    ensures AtMostOnce(Next(w, BlockFails(i)), base)
  {
    KeysWithout(w.inflight, i);
    FewerOnce(w, base, Next(w, BlockFails(i)));
  }

  lemma StepOnce(w: World, base: set<string>, step: Step)
    requires AtMostOnce(w, base) && Sound(w.store) && Enabled(w, step)
    ensures AtMostOnce(Next(w, step), base)
  {
    match step
    case Deliver(log) => DeliverOnce(w, base, log);
    case Resume(i, timestamp, clock) => ResumeOnce(w, base, i, timestamp, clock);
    case BlockFails(i) => BlockFailsOnce(w, base, i);
    case RecordThenCrash(i, timestamp, clock) => RecordThenCrashOnce(w, base, i, timestamp, clock);
    case Tick(now) => TickOnce(w, base, now);
    case TickThenCrash(now, n) => TickThenCrashOnce(w, base, now, n);
    case Bind(id, workflowId) => BindOnce(w, base, id, workflowId);
    case StopAndStart => FewerOnce(w, base, Next(w, step));
    case Restart => RestartOnce(w, base);
  }

  lemma {:induction false} AlwaysOnce(disk: Disk, steps: seq<Step>)
    requires Legal(disk, steps)
    ensures AtMostOnce(Exec(disk, steps), Load(disk).keys)
    decreases |steps|
  {
    if |steps| == 0 {
    } else {
      AlwaysSound(disk, steps[..|steps| - 1]);
      AlwaysOnce(disk, steps[..|steps| - 1]);
      StepOnce(Exec(disk, steps[..|steps| - 1]), Load(disk).keys, steps[|steps| - 1]);
    }
  }

  /** Over every interleaving and any number of crashes and restarts, on any files to start from: no key is
      applied twice, none that was on disk at the start is applied at all, the event table holds each key at most
      once, and the keys it holds are exactly those it started with, those applied, and those a crash caught
      between recording and applying. */
  lemma AppliedAtMostOnce(disk: Disk, steps: seq<Step>)
    requires Legal(disk, steps)
    ensures var w := Exec(disk, steps);
      && NoDup(LogKeys(w.journal))
      && NoDup(KeysOf(w.store.events))
      && (forall k :: k in KeysOf(w.store.events) <==> k in Load(disk).keys || k in LogKeys(w.journal) || k in LogKeys(w.lost))
      && (forall k | k in LogKeys(w.journal) :: k !in Load(disk).keys && k !in LogKeys(w.lost))
  {
    AlwaysSound(disk, steps);
    AlwaysOnce(disk, steps);
    var w := Exec(disk, steps);
    forall i, j | 0 <= i < j < |w.journal| ensures LogKeys(w.journal)[i] != LogKeys(w.journal)[j] {
      MultisetAtMostOne(LogKeys(w.journal), i, j);
      assert Tally(w)[LogKeys(w.journal)[i]] <= 1;
    }
    forall k | k in LogKeys(w.journal) ensures k !in LogKeys(w.lost) {
      assert Tally(w)[k] <= 1;
      assert k in multiset(LogKeys(w.journal));
    }
  }

  lemma MultisetAtMostOne(s: seq<string>, i: nat, j: nat)
    requires i < j < |s|
    ensures s[i] == s[j] ==> multiset(s)[s[i]] >= 2
  {
    assert s == s[..j] + [s[j]] + s[j + 1..];
    assert s[..j][i] == s[i];
    assert s[i] in multiset(s[..j]);
  }
}
