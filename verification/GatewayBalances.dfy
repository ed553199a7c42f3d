/** Balances and statuses as a function of the events applied, whatever their order. */
module GatewayBalances {
  import opened Text
  import opened Collections
  import opened StateStore
  import opened PersistentStore
  import opened TerminationQueue
  import opened Gateway
  import opened GatewayRuns

  // ---------------------------------------------------------------------------------------
  // The account behind a stream
  // ---------------------------------------------------------------------------------------

  /** What happened to a paycard since it was last provisioned, or since the first process loaded it (`openedBy` is None). */
  datatype Account = Account(opening: Stream, openedBy: Option<Log>, settled: nat, settlements: nat, reclaimed: bool)

  predicate Provisions(log: Log, id: string) {
    log.paycardId == id && log.event.PaycardProvisioned?
  }

  /** An account was opened by a provisioning event of the journal, or else by a stream on file. */
  ghost predicate Opened(a: Account, start: map<string, Stream>, journal: seq<Log>, id: string) {
    match a.openedBy
    case Some(log) => log in journal && Provisions(log, id) && a.opening == NewStream(log)
    case None => id in start && a.opening == start[id]
  }

  ghost predicate Proper(a: Option<Account>, start: map<string, Stream>, journal: seq<Log>, id: string) {
    if a.Some? then Opened(a.value, start, journal, id)
    else id !in start && forall log | log in journal :: !Provisions(log, id)
  }

  /** How one applied event changes the account of its own paycard; without an account only provisioning does. */
  function Post(a: Option<Account>, log: Log): Option<Account> {
    match log.event
    case PaycardProvisioned(_, _, _, _, _, _, _) => Some(Account(NewStream(log), Some(log), 0, 0, false))
    case SettlementFlushed(_, withdrawn) =>
      if a.None? then None else Some(a.value.(settled := a.value.settled + withdrawn, settlements := a.value.settlements + 1))
    case ResidualDeltaReclaimed(_, _) => if a.None? then None else Some(a.value.(reclaimed := true))
    case OtherEvent(_) => a
  }

  /** The account of a paycard, from the streams that the first process loaded and the events applied since. */
  function Ledger(start: map<string, Stream>, journal: seq<Log>, id: string): (a: Option<Account>)
    ensures Proper(a, start, journal, id)
  {
    if |journal| == 0 then (if id in start then Some(Account(start[id], None, 0, 0, false)) else None)
    else
      var before, log := Ledger(start, journal[..|journal| - 1], id), journal[|journal| - 1];
      if log.paycardId == id then Post(before, log) else before
  }

  function Balance(a: Account): nat {
    if a.reclaimed || a.settled >= a.opening.availableBalance then 0 else a.opening.availableBalance - a.settled
  }

  /** It was loaded as Terminated, a reclaim happened, or a settlement brought the total up to the opening balance. */
  predicate Over(a: Account) {
    a.opening.status == Terminated || a.reclaimed || (a.settlements > 0 && a.settled >= a.opening.availableBalance)
  }

  predicate SameContract(s: Stream, t: Stream) {
    && s.totalAllocation == t.totalAllocation && s.velocity == t.velocity
    && s.genesis == t.genesis && s.lifespan == t.lifespan
    && s.payer == t.payer && s.recipient == t.recipient && s.metadataHash == t.metadataHash
  }

  predicate Matches(s: Stream, a: Account) {
    && s.availableBalance == Balance(a) && (s.status == Terminated <==> Over(a)) && SameContract(s, a.opening)
    && (a.settlements == 0 ==> s.lastCheckpoint == a.opening.lastCheckpoint)
  }

  predicate Accounted(s: Option<Stream>, a: Option<Account>) {
    s.Some? == a.Some? && (s.Some? ==> Matches(s.value, a.value))
  }

  ghost predicate BalancedMap(m: map<string, Stream>, start: map<string, Stream>, journal: seq<Log>) {
    forall id :: Accounted(Lookup(m, id), Ledger(start, journal, id))
  }

  ghost predicate Balanced(w: World, start: map<string, Stream>) {
    BalancedMap(w.store.mem.store.m, start, w.journal)
  }

  lemma HandledMatches(s: Option<Stream>, a: Option<Account>, log: Log, timestamp: Option<nat>)
    requires Accounted(s, a)
    ensures Accounted(Handle(s, log, timestamp), Post(a, log))
  {
  }

  lemma HandledAccounted(m: map<string, Stream>, start: map<string, Stream>, journal: seq<Log>, log: Log, timestamp: Option<nat>, id: string)
    requires Accounted(Lookup(m, id), Ledger(start, journal, id))
    ensures Accounted(Lookup(Handled(m, log, timestamp), id), Ledger(start, journal + [log], id))
  {
    LedgerSnoc(start, journal, log, id);
    if log.paycardId == id {
      HandledMatches(Lookup(m, id), Ledger(start, journal, id), log, timestamp);
    }
  }

  lemma HandledBalanced(m: map<string, Stream>, start: map<string, Stream>, journal: seq<Log>, log: Log, timestamp: Option<nat>)
    requires BalancedMap(m, start, journal)
    ensures BalancedMap(Handled(m, log, timestamp), start, journal + [log])
  {
    forall id ensures Accounted(Lookup(Handled(m, log, timestamp), id), Ledger(start, journal + [log], id)) {
      assert Accounted(Lookup(m, id), Ledger(start, journal, id));
      HandledAccounted(m, start, journal, log, timestamp, id);
    }
  }

  lemma LedgerSnoc(start: map<string, Stream>, journal: seq<Log>, log: Log, id: string)
    ensures Ledger(start, journal + [log], id) == if log.paycardId == id then Post(Ledger(start, journal, id), log) else Ledger(start, journal, id)
  {
    assert (journal + [log])[..|journal|] == journal;
  }

  lemma SameBalanced(a: Durable, b: Durable, start: map<string, Stream>, journal: seq<Log>)
    requires SameStreams(a, b) && BalancedMap(b.mem.store.m, start, journal)
    ensures BalancedMap(a.mem.store.m, start, journal)
  {
    var m, n := a.mem.store.m, b.mem.store.m;
    forall id ensures Accounted(Lookup(m, id), Ledger(start, journal, id)) {
      assert Accounted(Lookup(n, id), Ledger(start, journal, id));
      if id in m {
        assert Unprojected(m[id]) == Unprojected(n[id]);
      }
    }
  }

  lemma FlippedBalanced(m: map<string, Stream>, ids: seq<string>, start: map<string, Stream>, journal: seq<Log>)
    requires BalancedMap(m, start, journal)
    ensures BalancedMap(FlippedIn(m, ids), start, journal)
  {
    forall id ensures Accounted(Lookup(FlippedIn(m, ids), id), Ledger(start, journal, id)) {
      assert Accounted(Lookup(m, id), Ledger(start, journal, id));
    }
  }

  lemma TickBalanced(d: Durable, now: real, ids: seq<string>, start: map<string, Stream>, journal: seq<Log>)
    requires Sound(d) && BalancedMap(d.mem.store.m, start, journal)
    ensures BalancedMap(Sweep(Accrue(d, now), ids).mem.store.m, start, journal)
  {
    Accrued(d, now);
    Swept(Accrue(d, now), ids);
    SameBalanced(Accrue(d, now), d, start, journal);
    FlippedBalanced(Accrue(d, now).mem.store.m, ids, start, journal);
  }

  lemma RebootBalanced(d: Durable, start: map<string, Stream>, journal: seq<Log>)
    requires Sound(d) && BalancedMap(d.mem.store.m, start, journal)
    ensures BalancedMap(Load(d.disk).mem.store.m, start, journal)
  {
    Reloaded(d);
    SameBalanced(Load(d.disk), d, start, journal);
  }

  lemma BoundBalanced(m: map<string, Stream>, id: string, w: Option<string>, start: map<string, Stream>, journal: seq<Log>)
    requires BalancedMap(m, start, journal) && id in m
    ensures BalancedMap(m[id := m[id].(workflowId := w)], start, journal)
  {
    var m' := m[id := m[id].(workflowId := w)];
    forall x ensures Accounted(Lookup(m', x), Ledger(start, journal, x)) {
      assert Accounted(Lookup(m, x), Ledger(start, journal, x));
    }
  }

  lemma StepBalanced(w: World, start: map<string, Stream>, step: Step)
    requires Balanced(w, start) && Sound(w.store) && Enabled(w, step)
    ensures Balanced(Next(w, step), start)
  {
    match step
    case Resume(i, timestamp, clock) =>
      RecordedEvent(w.store, w.inflight[i], timestamp, clock);
      AppliedEvent(RecordEvent(w.store, w.inflight[i], timestamp, clock), w.inflight[i], timestamp);
      HandledBalanced(w.store.mem.store.m, start, w.journal, w.inflight[i], timestamp);
    case RecordThenCrash(i, timestamp, clock) =>
      RecordedEvent(w.store, w.inflight[i], timestamp, clock);
      RebootBalanced(RecordEvent(w.store, w.inflight[i], timestamp, clock), start, w.journal);
    case Tick(now) => TickBalanced(w.store, now, Ids(DueEntries(w.queue, now)), start, w.journal);
    case TickThenCrash(now, n) =>
      var ids := Ids(DueEntries(w.queue, now))[..n];
      Ticked(w.store, now, ids);
      TickBalanced(w.store, now, ids, start, w.journal);
      RebootBalanced(Sweep(Accrue(w.store, now), ids), start, w.journal);
    case Bind(id, workflowId) =>
      Bound(w.store, id, workflowId);
      if id in w.store.mem.store.m {
        BoundBalanced(w.store.mem.store.m, id, if Truthy(workflowId) then workflowId else None, start, w.journal);
      }
    case Restart => RebootBalanced(w.store, start, w.journal);
    case _ =>
  }

  /** The streams that the first process loads. */
  function Loaded(disk: Disk): map<string, Stream> {
    Load(disk).mem.store.m
  }

  /** Whatever files the first process finds, in every reachable state every stream's balance, status and terms are
      those of its account: max(0, opening - settled), or 0 after a reclaim; Terminated exactly when the account is
      over. The opening is the pool of the last provisioning, or the stream as it was first loaded. */
  lemma {:induction false} AlwaysBalanced(disk: Disk, steps: seq<Step>)
    requires Legal(disk, steps)
    ensures Balanced(Exec(disk, steps), Loaded(disk))
    decreases |steps|
  {
    if |steps| == 0 {
      OpeningBalanced(disk);
    } else {
      var front := steps[..|steps| - 1];
      AlwaysBalanced(disk, front);
      AlwaysSound(disk, front);
      StepBalanced(Exec(disk, front), Loaded(disk), steps[|steps| - 1]);
    }
  }

  lemma OpeningBalanced(disk: Disk)
    ensures BalancedMap(Loaded(disk), Loaded(disk), [])
  {
  }

  // ---------------------------------------------------------------------------------------
  // Order does not matter
  // ---------------------------------------------------------------------------------------

  function Settled(logs: seq<Log>, id: string): nat {
    if |logs| == 0 then 0
    else Settled(logs[1..], id) + Withdrawn(logs[0], id)
  }

  function Withdrawn(log: Log, id: string): nat {
    if log.paycardId == id && log.event.SettlementFlushed? then log.event.amountWithdrawn else 0
  }

  function Settlements(logs: seq<Log>, id: string): nat {
    if |logs| == 0 then 0
    else Settlements(logs[1..], id) + (if logs[0].paycardId == id && logs[0].event.SettlementFlushed? then 1 else 0)
  }

  predicate Reclaims(log: Log, id: string) {
    log.paycardId == id && log.event.ResidualDeltaReclaimed?
  }

  ghost predicate Reclaimed(logs: seq<Log>, id: string) {
    exists log :: log in logs && Reclaims(log, id)
  }

  ghost function TotalAccount(p: Log, after: seq<Log>, id: string): Account
    requires p.event.PaycardProvisioned?
  {
    Account(NewStream(p), Some(p), Settled(after, id), Settlements(after, id), Reclaimed(after, id))
  }

  lemma ReclaimedSnoc(logs: seq<Log>, log: Log, id: string)
    ensures Reclaimed(logs + [log], id) <==> Reclaimed(logs, id) || Reclaims(log, id)
  {
    assert forall x :: x in logs + [log] <==> x in logs || x == log;
  }

  lemma {:induction false} TotalsSnoc(logs: seq<Log>, log: Log, id: string)
    ensures Settled(logs + [log], id) == Settled(logs, id) + Withdrawn(log, id)
    ensures Settlements(logs + [log], id) == Settlements(logs, id) + (if log.paycardId == id && log.event.SettlementFlushed? then 1 else 0)
  {
    if |logs| == 0 {
    } else {
      TotalsSnoc(logs[1..], log, id);
      assert (logs + [log])[1..] == logs[1..] + [log];
    }
  }

  lemma TotalSnoc(p: Log, after: seq<Log>, log: Log, id: string)
    requires p.event.PaycardProvisioned? && !Provisions(log, id)
    ensures TotalAccount(p, after + [log], id) ==
            if log.paycardId == id then Post(Some(TotalAccount(p, after, id)), log).value else TotalAccount(p, after, id)
  {
    TotalsSnoc(after, log, id);
    ReclaimedSnoc(after, log, id);
  }

  /** After provisioning, the account is the sum of the settlements and whether some reclaim occurred. */
  lemma {:induction false} LedgerTotals(start: map<string, Stream>, before: seq<Log>, p: Log, after: seq<Log>, id: string)
    requires Provisions(p, id) && forall i | 0 <= i < |after| :: !Provisions(after[i], id)
    ensures Ledger(start, before + [p] + after, id) == Some(TotalAccount(p, after, id))
    decreases |after|
  {
    if |after| == 0 {
      assert before + [p] + after == before + [p];
      LedgerSnoc(start, before, p, id);
    } else {
      var front, last := after[..|after| - 1], after[|after| - 1];
      LedgerTotals(start, before, p, front, id);
      TotalSnoc(p, front, last, id);
      LedgerSnoc(start, before + [p] + front, last, id);
      assert front + [last] == after;
      assert before + [p] + front + [last] == before + [p] + after;
    }
  }

  lemma {:induction false} TotalsWithout(logs: seq<Log>, i: nat, id: string)
    requires i < |logs|
    ensures Settled(logs, id) == Settled(Without(logs, i), id) + Withdrawn(logs[i], id)
    ensures Settlements(logs, id) == Settlements(Without(logs, i), id) + (if logs[i].paycardId == id && logs[i].event.SettlementFlushed? then 1 else 0)
  {
    if i == 0 {
      assert Without(logs, 0) == logs[1..];
    } else {
      TotalsWithout(logs[1..], i - 1, id);
      assert Without(logs, i)[1..] == Without(logs[1..], i - 1);
    }
  }

  lemma {:induction false} TotalsPermute(a: seq<Log>, b: seq<Log>, id: string)
    requires multiset(a) == multiset(b)
    ensures Settled(a, id) == Settled(b, id) && Settlements(a, id) == Settlements(b, id)
    decreases |a|
  {
    if |a| == 0 {
      assert |b| == |multiset(b)| == 0;
    } else {
      assert a[0] in multiset(b);
      var i :| 0 <= i < |b| && b[i] == a[0];
      TotalsWithout(b, i, id);
      assert Without(a, 0) == a[1..];
      MultisetWithout(a, 0);
      MultisetWithout(b, i);
      TotalsPermute(a[1..], Without(b, i), id);
    }
  }

  function Own(id: string): Log -> bool {
    (log: Log) => log.paycardId == id
  }

  /** The settlements to a paycard among some logs, and their sum, are those among its own logs. */
  ghost predicate OwnTotals(logs: seq<Log>, id: string) {
    Settled(Filter(Own(id), logs), id) == Settled(logs, id) && Settlements(Filter(Own(id), logs), id) == Settlements(logs, id)
  }

  lemma OwnTotalsSnoc(front: seq<Log>, last: Log, id: string)
    requires OwnTotals(front, id)
    ensures OwnTotals(front + [last], id)
  {
    FilterSnoc(Own(id), front, last);
    TotalsSnoc(front, last, id);
    if last.paycardId == id {
      TotalsSnoc(Filter(Own(id), front), last, id);
    }
  }

  /** The account of a paycard depends on its own events only. */
  lemma {:induction false} TotalsOwn(logs: seq<Log>, id: string)
    ensures OwnTotals(logs, id)
  {
    if |logs| == 0 {
    } else {
      TotalsOwn(logs[..|logs| - 1], id);
      OwnTotalsSnoc(logs[..|logs| - 1], logs[|logs| - 1], id);
      assert logs == logs[..|logs| - 1] + [logs[|logs| - 1]];
    }
  }

  ghost predicate SameOwnEvents(a: seq<Log>, b: seq<Log>, id: string) {
    multiset(Filter(Own(id), a)) == multiset(Filter(Own(id), b))
  }

  lemma SameOwnTotals(p: Log, a: seq<Log>, b: seq<Log>, id: string)
    requires p.event.PaycardProvisioned? && SameOwnEvents(a, b, id)
    ensures TotalAccount(p, a, id) == TotalAccount(p, b, id)
  {
    TotalsOwn(a, id);
    TotalsOwn(b, id);
    TotalsPermute(Filter(Own(id), a), Filter(Own(id), b), id);
    OwnMembers(a, b, id);
  }

  lemma OwnMembers(a: seq<Log>, b: seq<Log>, id: string)
    requires SameOwnEvents(a, b, id)
    ensures forall log: Log | log.paycardId == id :: log in a <==> log in b
  {
    FilterMembers(Own(id), a);
    FilterMembers(Own(id), b);
    forall log: Log | log.paycardId == id ensures log in a <==> log in b {
      assert log in multiset(Filter(Own(id), a)) <==> log in Filter(Own(id), a);
      assert log in multiset(Filter(Own(id), b)) <==> log in Filter(Own(id), b);
    }
  }

  /** How a stream that was provisioned by p stands after the events `after`. */
  ghost predicate StandsAt(s: Option<Stream>, p: Log, after: seq<Log>, id: string)
    requires p.event.PaycardProvisioned?
  {
    && s.Some?
    && s.value.availableBalance == (if Reclaimed(after, id) || Settled(after, id) >= p.event.poolAllocation then 0
                                    else p.event.poolAllocation - Settled(after, id))
    && (s.value.status == Terminated <==>
          Reclaimed(after, id) || (Settlements(after, id) > 0 && Settled(after, id) >= p.event.poolAllocation))
  }

  /** In every run: a stream stands where its events since its last provisioning put it, in whatever order they came. */
  lemma StandsAfter(disk: Disk, steps: seq<Step>, id: string, before: seq<Log>, p: Log, after: seq<Log>)
    requires Legal(disk, steps) && Exec(disk, steps).journal == before + [p] + after
    requires Provisions(p, id) && forall i | 0 <= i < |after| :: !Provisions(after[i], id)
    ensures StandsAt(Find(Exec(disk, steps).store, id), p, after, id)
  {
    AlwaysBalanced(disk, steps);
    LedgerTotals(Loaded(disk), before, p, after, id);
    var w := Exec(disk, steps);
    assert Accounted(Lookup(w.store.mem.store.m, id), Ledger(Loaded(disk), w.journal, id));
  }

  /** Two runs, on any files, with any interleaving, ticks, crashes and restarts and any traffic of other paycards,
      that provision a paycard by the same log and then apply the same events to it in any two orders end with the
      same balance, and both or neither Terminated. */
  lemma OrderIndependent(disk: Disk, steps: seq<Step>, disk': Disk, steps': seq<Step>, id: string,
                         before: seq<Log>, p: Log, after: seq<Log>, before': seq<Log>, after': seq<Log>)
    requires Legal(disk, steps) && Exec(disk, steps).journal == before + [p] + after
    requires Legal(disk', steps') && Exec(disk', steps').journal == before' + [p] + after'
    requires Provisions(p, id) && SameOwnEvents(after, after', id)
    requires forall i | 0 <= i < |after| :: !Provisions(after[i], id)
    ensures StandsAt(Find(Exec(disk, steps).store, id), p, after, id)
    ensures StandsAt(Find(Exec(disk', steps').store, id), p, after, id)
  {
    OwnMembers(after, after', id);
    forall i | 0 <= i < |after'| ensures !Provisions(after'[i], id) {
      assert after'[i] in after' && (after'[i].paycardId == id ==> after'[i] in after);
    }
    SameOwnTotals(p, after, after', id);
    StandsAfter(disk, steps, id, before, p, after);
    StandsAfter(disk', steps', id, before', p, after');
  }
}
