/** Exactly once: nothing delivered is missed as long as no handler is dropped, and what becomes of a dropped one. */
module GatewayDelivery {
  import opened Text
  import opened StateStore
  import opened PersistentStore
  import opened TerminationQueue
  import opened Gateway
  import opened GatewayRuns

  /** No block lookup fails, and the process stops only while no handler is waiting. */
  predicate DropsNothing(w: World, step: Step) {
    match step
    case BlockFails(_) => false
    case RecordThenCrash(_, _, _) => false
    case TickThenCrash(_, _) => w.inflight == []
    case Restart => w.inflight == []
    case _ => true
  }

  ghost predicate Uninterrupted(disk: Disk, steps: seq<Step>)
    requires Legal(disk, steps)
    decreases |steps|
  {
    |steps| > 0 ==>
      var n := |steps| - 1;
      Uninterrupted(disk, steps[..n]) && DropsNothing(Exec(disk, steps[..n]), steps[n])
  }

  /** The key was on file from the start, has been applied, or is being handled. */
  ghost predicate Covered(w: World, base: set<string>, k: string) {
    k in base || k in LogKeys(w.journal) || k in LogKeys(w.inflight)
  }

  ghost predicate AllCovered(w: World, base: set<string>) {
    w.lost == [] && forall k | k in w.processed :: Covered(w, base, k)
  }

  /** Taking handler i away moves its key and leaves the others. */
  lemma KeysBut(logs: seq<Log>, i: nat, k: string)
    requires i < |logs| && k in LogKeys(logs) && k != LogKey(logs[i])
    ensures k in LogKeys(Without(logs, i))
  {
    KeysWithout(logs, i);
    assert k in multiset(LogKeys(logs));
    assert k in multiset(LogKeys(Without(logs, i)));
  }

  lemma ResumeCovers(w: World, base: set<string>, i: nat, timestamp: Option<nat>, clock: nat, k: string)
    requires IndexAgrees(w.store.mem) && i < |w.inflight| && Covered(w, base, k)
    ensures Covered(Next(w, Resume(i, timestamp, clock)), base, k)
  {
    KeysSnoc(w.journal, w.inflight[i]);
    if k in LogKeys(w.inflight) && k != LogKey(w.inflight[i]) {
      KeysBut(w.inflight, i, k);
    }
  }

  lemma StepCovers(w: World, base: set<string>, step: Step, k: string)
    requires IndexAgrees(w.store.mem) && Enabled(w, step) && DropsNothing(w, step) && Covered(w, base, k)
    ensures Covered(Next(w, step), base, k)
  {
    match step
    case Deliver(log) => KeysSnoc(w.inflight, log);
    case Resume(i, timestamp, clock) => ResumeCovers(w, base, i, timestamp, clock, k);
    case _ =>
  }

  lemma DeliverCovers(w: World, base: set<string>, log: Log)
    requires AtMostOnce(w, base) && IndexAgrees(w.store.mem) && AllCovered(w, base)
    ensures Covered(Next(w, Deliver(log)), base, LogKey(log))
    ensures AllCovered(Next(w, Deliver(log)), base)
  {
    var w' := Next(w, Deliver(log));
    KeysSnoc(w.inflight, log);
    forall k | k in w'.processed ensures Covered(w', base, k) {
      if k in w.processed {
        StepCovers(w, base, Deliver(log), k);
      }
    }
  }

  lemma StepKeepsCovered(w: World, base: set<string>, step: Step)
    requires AtMostOnce(w, base) && IndexAgrees(w.store.mem) && AllCovered(w, base)
    requires Enabled(w, step) && DropsNothing(w, step)
    ensures AllCovered(Next(w, step), base)
  {
    if step.Deliver? {
      DeliverCovers(w, base, step.log);
    } else {
      OthersProcessNothing(w, step);
      var w' := Next(w, step);
      forall k | k in w'.processed ensures Covered(w', base, k) {
        StepCovers(w, base, step, k);
      }
    }
  }

  lemma OthersProcessNothing(w: World, step: Step)
    requires IndexAgrees(w.store.mem) && Enabled(w, step) && DropsNothing(w, step) && !step.Deliver?
    ensures Next(w, step).processed <= w.processed && Next(w, step).lost == w.lost
  {
  }

  /** The keys delivered so far are covered. */
  ghost predicate DeliveriesCovered(w: World, base: set<string>, steps: seq<Step>) {
    forall j | 0 <= j < |steps| && steps[j].Deliver? :: Covered(w, base, LogKey(steps[j].log))
  }

  lemma OneMoreCovered(w: World, base: set<string>, front: seq<Step>, step: Step)
    requires AtMostOnce(w, base) && IndexAgrees(w.store.mem) && AllCovered(w, base)
    requires Enabled(w, step) && DropsNothing(w, step) && DeliveriesCovered(w, base, front)
    ensures DeliveriesCovered(Next(w, step), base, front + [step])
  {
    var steps := front + [step];
    forall j | 0 <= j < |steps| && steps[j].Deliver? ensures Covered(Next(w, step), base, LogKey(steps[j].log)) {
      if j < |front| {
        StepCovers(w, base, step, LogKey(front[j].log));
      } else {
        DeliverCovers(w, base, step.log);
      }
    }
  }

  lemma NextCovered(w: World, base: set<string>, steps: seq<Step>, w': World)
    requires |steps| > 0 && AtMostOnce(w, base) && IndexAgrees(w.store.mem) && AllCovered(w, base)
    requires DeliveriesCovered(w, base, steps[..|steps| - 1])
    requires Enabled(w, steps[|steps| - 1]) && DropsNothing(w, steps[|steps| - 1]) && w' == Next(w, steps[|steps| - 1])
    ensures AllCovered(w', base) && DeliveriesCovered(w', base, steps)
  {
    var front, step := steps[..|steps| - 1], steps[|steps| - 1];
    StepKeepsCovered(w, base, step);
    OneMoreCovered(w, base, front, step);
    assert front + [step] == steps;
  }

  lemma LastStep(disk: Disk, steps: seq<Step>)
    requires Legal(disk, steps) && Uninterrupted(disk, steps) && |steps| > 0
    ensures var n := |steps| - 1;
      && Legal(disk, steps[..n]) && Uninterrupted(disk, steps[..n])
      && Enabled(Exec(disk, steps[..n]), steps[n]) && DropsNothing(Exec(disk, steps[..n]), steps[n])
      && Exec(disk, steps) == Next(Exec(disk, steps[..n]), steps[n])
  {
  }

  lemma {:induction false} AlwaysCovered(disk: Disk, steps: seq<Step>)
    requires Legal(disk, steps) && Uninterrupted(disk, steps)
    ensures AllCovered(Exec(disk, steps), Load(disk).keys) && DeliveriesCovered(Exec(disk, steps), Load(disk).keys, steps)
    decreases |steps|
  {
    if |steps| == 0 {
    } else {
      var n := |steps| - 1;
      LastStep(disk, steps);
      AlwaysCovered(disk, steps[..n]);
      AlwaysOnce(disk, steps[..n]);
      NextCovered(Exec(disk, steps[..n]), Load(disk).keys, steps, Exec(disk, steps));
    }
  }

  /** Over every interleaving without failed lookups in which the process stops, if at all, only while no handler
      waits: once no handler waits, every log delivered so far whose key was not on file at the start has been applied
      exactly once, however often it was delivered. */
  lemma AppliedExactlyOnce(disk: Disk, steps: seq<Step>, j: nat)
    requires Legal(disk, steps) && Uninterrupted(disk, steps) && Exec(disk, steps).inflight == []
    requires j < |steps| && steps[j].Deliver? && LogKey(steps[j].log) !in Load(disk).keys
    ensures multiset(LogKeys(Exec(disk, steps).journal))[LogKey(steps[j].log)] == 1
  {
    var w, k := Exec(disk, steps), LogKey(steps[j].log);
    AlwaysCovered(disk, steps);
    AlwaysOnce(disk, steps);
    assert Covered(w, Load(disk).keys, k) && k in multiset(LogKeys(w.journal));
    assert Tally(w)[k] <= 1;
  }

  // ---------------------------------------------------------------------------------------
  // Dropped logs
  // ---------------------------------------------------------------------------------------

  /** The process has seen the key, but neither handles nor has recorded it. */
  ghost predicate Dropped(w: World, k: string) {
    k in w.processed && k !in LogKeys(w.inflight) && k !in w.store.keys
  }

  predicate Stops(step: Step) {
    step.Restart? || step.RecordThenCrash? || step.TickThenCrash?
  }

  ghost predicate KeepsRunning(steps: seq<Step>) {
    forall k | 0 <= k < |steps| :: !Stops(steps[k])
  }

  /** A failed block lookup drops its log. */
  lemma FailedLookupDrops(w: World, base: set<string>, i: nat)
    requires AtMostOnce(w, base) && IndexAgrees(w.store.mem) && i < |w.inflight|
    ensures Dropped(Next(w, BlockFails(i)), LogKey(w.inflight[i]))
  {
    ResumingIsFresh(w, base, i);
    assert LogKeys(w.inflight)[i] in LogKeys(w.inflight);
  }

  lemma ResumeKeepsDropped(w: World, i: nat, timestamp: Option<nat>, clock: nat, k: string)
    requires Sound(w.store) && i < |w.inflight| && Dropped(w, k)
    ensures Dropped(Next(w, Resume(i, timestamp, clock)), k)
  {
    var log := w.inflight[i];
    RecordedEvent(w.store, log, timestamp, clock);
    AppliedMap(RecordEvent(w.store, log, timestamp, clock), log, timestamp);
    KeysWithout(w.inflight, i);
    assert LogKeys(w.inflight)[i] == LogKey(log);
  }

  lemma StepKeepsDropped(w: World, step: Step, k: string)
    requires Sound(w.store) && Enabled(w, step) && !Stops(step) && Dropped(w, k)
    ensures Dropped(Next(w, step), k)
  {
    match step
    case Deliver(log) => KeysSnoc(w.inflight, log);
    case Resume(i, timestamp, clock) => ResumeKeepsDropped(w, i, timestamp, clock, k);
    case BlockFails(i) => KeysWithout(w.inflight, i);
    case Tick(now) => Ticked(w.store, now, Ids(DueEntries(w.queue, now)));
    case Bind(id, workflowId) => Bound(w.store, id, workflowId);
    case StopAndStart =>
  }

  /** The steps lead to the world w. */
  ghost predicate Reaches(disk: Disk, steps: seq<Step>, w: World) {
    Legal(disk, steps) && Exec(disk, steps) == w
  }

  lemma ReachesNext(disk: Disk, steps: seq<Step>, w: World, step: Step)
    requires Reaches(disk, steps, w) && IndexAgrees(w.store.mem) && Enabled(w, step)
    ensures Reaches(disk, steps + [step], Next(w, step))
  {
    assert (steps + [step])[..|steps + [step]| - 1] == steps;
  }

  /** The world before the last step, in which the log was dropped only if it still is. */
  lemma DroppedBefore(disk: Disk, front: seq<Step>, last: Step, w': World, k: string) returns (w: World)
    requires Reaches(disk, front + [last], w') && !Stops(last)
    ensures Reaches(disk, front, w) && (Dropped(w, k) ==> Dropped(w', k))
  {
    assert (front + [last])[..|front + [last]| - 1] == front;
    w := Exec(disk, front);
    AlwaysSound(disk, front);
    if Dropped(w, k) {
      StepKeepsDropped(w, last, k);
    }
  }

  lemma LastOfBoth(steps: seq<Step>, more: seq<Step>)
    requires |more| > 0
    ensures steps + more == steps + more[..|more| - 1] + [more[|more| - 1]]
  {
  }

  lemma SameWorld(disk: Disk, steps: seq<Step>, w: World, w': World)
    requires Reaches(disk, steps, w) && Reaches(disk, steps + [], w')
    ensures w' == w
  {
    assert steps + [] == steps;
  }

  lemma {:induction false} StaysDropped(disk: Disk, steps: seq<Step>, w: World, more: seq<Step>, w': World, k: string)
    requires Reaches(disk, steps, w) && Reaches(disk, steps + more, w') && KeepsRunning(more) && Dropped(w, k)
    ensures Dropped(w', k)
    decreases |more|
  {
    if more == [] {
      SameWorld(disk, steps, w, w');
    } else {
      LastOfBoth(steps, more);
      var v := DroppedBefore(disk, steps + more[..|more| - 1], more[|more| - 1], w', k);
      StaysDropped(disk, steps, w, more[..|more| - 1], v, k);
    }
  }

  /** However often it is delivered again, a dropped log stays dropped as long as the process runs, so it is neither
      recorded nor applied. */
  lemma DroppedStaysDropped(disk: Disk, steps: seq<Step>, more: seq<Step>, k: string)
    requires Legal(disk, steps) && Legal(disk, steps + more) && KeepsRunning(more) && Dropped(Exec(disk, steps), k)
    ensures Dropped(Exec(disk, steps + more), k) && k !in LogKeys(Exec(disk, steps + more).journal)
  {
    StaysDropped(disk, steps, Exec(disk, steps), more, Exec(disk, steps + more), k);
    AlwaysOnce(disk, steps + more);
  }

  function RestartAndDeliver(log: Log): seq<Step> {
    [Restart, Deliver(log), Resume(0, None, 0)]
  }

  lemma RestartedDelivery(w: World, log: Log)
    requires Sound(w.store) && LogKey(log) !in w.store.keys
    ensures var w' := Next(w, Restart);
      && Next(w', Deliver(log)).inflight == [log]
      && Next(Next(w', Deliver(log)), Resume(0, None, 0)).journal == w.journal + [log]
  {
    Reloaded(w.store);
  }

  lemma RestartAndDeliverReaches(disk: Disk, steps: seq<Step>, w: World, log: Log)
    requires Reaches(disk, steps, w) && Sound(w.store) && LogKey(log) !in w.store.keys
    ensures Reaches(disk, steps + RestartAndDeliver(log), Next(Next(Next(w, Restart), Deliver(log)), Resume(0, None, 0)))
  {
    RestartedDelivery(w, log);
    var w1 := Next(w, Restart);
    var w2 := Next(w1, Deliver(log));
    ReachesNext(disk, steps, w, Restart);
    ReachesNext(disk, steps + [Restart], w1, Deliver(log));
    ReachesNext(disk, steps + [Restart] + [Deliver(log)], w2, Resume(0, None, 0));
    assert steps + [Restart] + [Deliver(log)] + [Resume(0, None, 0)] == steps + RestartAndDeliver(log);
  }

  /** After a restart one delivery has it applied. */
  lemma DroppedAppliedAfterRestart(disk: Disk, steps: seq<Step>, log: Log)
    requires Legal(disk, steps) && Dropped(Exec(disk, steps), LogKey(log))
    ensures Legal(disk, steps + RestartAndDeliver(log))
    ensures Exec(disk, steps + RestartAndDeliver(log)).journal == Exec(disk, steps).journal + [log]
  {
    AlwaysSound(disk, steps);
    RestartedDelivery(Exec(disk, steps), log);
    RestartAndDeliverReaches(disk, steps, Exec(disk, steps), log);
  }
}
