/** The per-key asynchronous lock of the nonce engine, as a state machine over its synchronous
    segments. A caller's number is its position in the order of arrival. */
module NonceEngine {
  import opened Text

  // ---------------------------------------------------------------------------------------
  // State
  // ---------------------------------------------------------------------------------------

  /** Where a call of `nextNonce` stands between two synchronous segments.
      `lost` says that the adapter stored the increment and then rejected. */
  datatype Pc =
    | Waiting                 // awaiting the predecessor's promise
    | Reading                 // adapter.get is outstanding
    | Got(v: nat)             // adapter.get has answered
    | Writing(v: nat)         // adapter.set is outstanding
    | Wrote(v: nat)           // adapter.set has answered
    | Broken(lost: bool)      // an adapter call has rejected
    | Returned(v: nat)        // released, promise fulfilled with v
    | Threw(lost: bool)       // released, promise rejected
  {
    predicate Released() { Returned? || Threw? }
    predicate InSection() { !Waiting? && !Released() }
    /** Whether the increment of this call has reached the adapter's store. */
    predicate Stored() { Wrote? || Returned? || (Broken? && lost) || (Threw? && lost) }
    /** Whether this call carries the nonce it read. */
    predicate Holds() { Got? || Writing? || Wrote? || Returned? }
    /** Segments this call still has to run, at most. */
    function Remaining(): nat {
      match this
      case Waiting => 5
      case Reading => 4
      case Got(_) => 3
      case Writing(_) => 2
      case Wrote(_) => 1
      case Broken(_) => 1
      case Returned(_) => 0
      case Threw(_) => 0
    }
  }

  /** `previous` is the caller whose `next` promise this one awaits (None: `Promise.resolve()`);
      `settled` says that this caller's own `next` promise has been fulfilled. */
  datatype Caller = Caller(key: string, previous: Option<nat>, pc: Pc, settled: bool)

  /** A write that the adapter has rejected, and that may still land, or land again. */
  datatype Write = Write(key: string, value: nat)

  /** `locks[k]` is the caller whose `next` promise the map holds for k. */
  datatype System = System(callers: seq<Caller>, locks: map<string, nat>, cache: map<string, nat>, late: set<Write>)

  function Initial(cache: map<string, nat>): System {
    System([], map[], cache, {})
  }

  function Lookup(cache: map<string, nat>, key: string): nat {
    if key in cache then cache[key] else 0
  }

  function CacheKey(account: string, channel: nat): string {
    Keyed("nonce:" + Lower(account), channel)
  }

  /** Calls share a lock and a counter exactly when account (case-insensitively) and channel agree. */
  lemma CacheKeySeparates(account: string, channel: nat, account': string, channel': nat)
    ensures CacheKey(account, channel) == CacheKey(account', channel')
       <==> Lower(account) == Lower(account') && channel == channel'
  {
    var a, b := "nonce:" + Lower(account), "nonce:" + Lower(account');
    KeyedInjective(a, channel, b, channel');
    assert a[6..] == Lower(account) && b[6..] == Lower(account');
  }

  // ---------------------------------------------------------------------------------------
  // Steps
  // ---------------------------------------------------------------------------------------

  datatype Step =
    | Enter(key: string)
    | Wake(i: nat)
    | GetAnswers(i: nat)
    | GetRejects(i: nat)
    | CallSet(i: nat)
    | SetAnswers(i: nat)
    | SetRejects(i: nat, stored: bool)
    | Finish(i: nat)
    | Settle(i: nat)
    | Lands(w: Write)         // a rejected write reaches the store after all, perhaps more than once

  /** A promise `previous` is fulfilled when there is none or it has settled. */
  predicate PreviousSettled(s: System, i: nat)
    requires i < |s.callers|
  {
    match s.callers[i].previous
    case None => true
    case Some(p) => p < |s.callers| && s.callers[p].settled
  }

  predicate Enabled(s: System, step: Step) {
    match step
    case Enter(_) => true
    case Wake(i) => i < |s.callers| && s.callers[i].pc.Waiting? && PreviousSettled(s, i)
    case GetAnswers(i) => i < |s.callers| && s.callers[i].pc.Reading?
    case GetRejects(i) => i < |s.callers| && s.callers[i].pc.Reading?
    case CallSet(i) => i < |s.callers| && s.callers[i].pc.Got?
    case SetAnswers(i) => i < |s.callers| && s.callers[i].pc.Writing?
    case SetRejects(i, _) => i < |s.callers| && s.callers[i].pc.Writing?
    case Finish(i) => i < |s.callers| && (s.callers[i].pc.Wrote? || s.callers[i].pc.Broken?)
    case Settle(i) => i < |s.callers| && s.callers[i].pc.Released() && !s.callers[i].settled && PreviousSettled(s, i)
    case Lands(w) => w in s.late
  }

  function Goto(s: System, i: nat, pc: Pc): System
    requires i < |s.callers|
  {
    s.(callers := s.callers[i := s.callers[i].(pc := pc)])
  }

  function Apply(s: System, step: Step): System
    requires Enabled(s, step)
  {
    match step
    case Enter(key) =>
      var previous := if key in s.locks then Some(s.locks[key]) else None;
      s.(callers := s.callers + [Caller(key, previous, Waiting, false)], locks := s.locks[key := |s.callers|])
    case Wake(i) => Goto(s, i, Reading)
    case GetAnswers(i) => Goto(s, i, Got(Lookup(s.cache, s.callers[i].key)))
    case GetRejects(i) => Goto(s, i, Broken(false))
    case CallSet(i) => Goto(s, i, Writing(s.callers[i].pc.v))
    case SetAnswers(i) =>
      var c := s.callers[i];
      Goto(s, i, Wrote(c.pc.v)).(cache := s.cache[c.key := c.pc.v + 1])
    case SetRejects(i, stored) =>
      var c := s.callers[i];
      Goto(s, i, Broken(stored))
        .(cache := if stored then s.cache[c.key := c.pc.v + 1] else s.cache,
          late := s.late + {Write(c.key, c.pc.v + 1)})
    case Finish(i) =>
      var c := s.callers[i];
      Goto(s, i, if c.pc.Wrote? then Returned(c.pc.v) else Threw(c.pc.lost))
        .(locks := if c.key in s.locks && s.locks[c.key] == i then s.locks - {c.key} else s.locks)
    case Settle(i) =>
      s.(callers := s.callers[i := s.callers[i].(settled := true)])
    case Lands(w) => s.(cache := s.cache[w.key := w.value])
  }

  /** Every interleaving: any number of callers, any order of segments and of adapter answers, and rejected writes
      landing at any time. */
  ghost predicate Legal(s: System, steps: seq<Step>)
    decreases |steps|, 0
  {
    |steps| > 0 ==>
      var n := |steps| - 1;
      Legal(s, steps[..n]) && Enabled(Exec(s, steps[..n]), steps[n])
  }

  ghost function Exec(s: System, steps: seq<Step>): System
    requires Legal(s, steps)
    decreases |steps|, 1
  {
    if |steps| == 0 then s
    else Apply(Exec(s, steps[..|steps| - 1]), steps[|steps| - 1])
  }

  // ---------------------------------------------------------------------------------------
  // The chain invariant
  // ---------------------------------------------------------------------------------------

  /** Calls on `key` among `cs` whose increment has reached the adapter. */
  function StoredCount(cs: seq<Caller>, key: string): nat {
    if |cs| == 0 then 0
    else StoredCount(cs[..|cs| - 1], key) + (if cs[|cs| - 1].key == key && cs[|cs| - 1].pc.Stored() then 1 else 0)
  }

  /** Who awaits whom: the nearest earlier caller on the same key, or nobody if all of those had left. */
  ghost predicate Chained(cs: seq<Caller>) {
    forall j | 0 <= j < |cs| :: ChainedAt(cs, j)
  }

  ghost predicate ChainedAt(cs: seq<Caller>, j: nat)
    requires j < |cs|
  {
    match cs[j].previous
    case None => forall i | 0 <= i < j && cs[i].key == cs[j].key :: cs[i].pc.Released()
    case Some(p) => p < j && cs[p].key == cs[j].key && forall i | p < i < j :: cs[i].key != cs[j].key
  }

  /** A caller leaves the waiting room, and its promise settles, only after every earlier caller on its key has released. */
  ghost predicate InTurn(cs: seq<Caller>) {
    forall i, j | 0 <= i < j < |cs| && cs[i].key == cs[j].key && (!cs[j].pc.Waiting? || cs[j].settled) ::
      cs[i].pc.Released()
  }

  ghost predicate SettledReleased(cs: seq<Caller>) {
    forall i | 0 <= i < |cs| && cs[i].settled :: cs[i].pc.Released()
  }

  /** The map holds, for each key, its most recent caller if that one has not released, and nothing otherwise. */
  ghost predicate LocksAgree(s: System) {
    && (forall k | k in s.locks ::
          && s.locks[k] < |s.callers| && s.callers[s.locks[k]].key == k && !s.callers[s.locks[k]].pc.Released()
          && forall i | s.locks[k] < i < |s.callers| :: s.callers[i].key != k)
    && (forall i | 0 <= i < |s.callers| && s.callers[i].key !in s.locks :: s.callers[i].pc.Released())
  }

  /** Each nonce read, written or returned counts the increments stored by earlier callers on its key. */
  ghost predicate Carries(cs: seq<Caller>, base: map<string, nat>, i: nat)
    requires i < |cs|
  {
    cs[i].pc.Holds() ==> cs[i].pc.v == Lookup(base, cs[i].key) + StoredCount(cs[..i], cs[i].key)
  }

  ghost predicate CarriesAll(cs: seq<Caller>, base: map<string, nat>) {
    forall i | 0 <= i < |cs| :: Carries(cs, base, i)
  }

  ghost predicate CacheCounts(s: System, base: map<string, nat>) {
    forall k :: Lookup(s.cache, k) == Lookup(base, k) + StoredCount(s.callers, k)
  }

  ghost predicate Ordered(s: System) {
    Chained(s.callers) && InTurn(s.callers) && SettledReleased(s.callers) && LocksAgree(s)
  }

  ghost predicate Counts(s: System, base: map<string, nat>) {
    CacheCounts(s, base) && CarriesAll(s.callers, base)
  }

  ghost predicate Inv(s: System, base: map<string, nat>) {
    Ordered(s) && Counts(s, base)
  }

  lemma {:induction false} CountsStep(cs: seq<Caller>, i: nat, c: Caller, key: string)
    requires i < |cs| && c.key == cs[i].key
    ensures StoredCount(cs[i := c], key) ==
            StoredCount(cs, key) - (if c.key == key && cs[i].pc.Stored() then 1 else 0) + (if c.key == key && c.pc.Stored() then 1 else 0)
  {
    var n := |cs| - 1;
    if i == n {
      assert cs[i := c][..n] == cs[..n];
    } else {
      assert cs[i := c][..n] == cs[..n][i := c];
      CountsStep(cs[..n], i, c, key);
    }
  }

  /** Callers that have not stored anything do not count. */
  lemma {:induction false} CountsPrefix(cs: seq<Caller>, n: nat, key: string)
    requires n <= |cs|
    requires forall j | n <= j < |cs| && cs[j].key == key :: !cs[j].pc.Stored()
    ensures StoredCount(cs, key) == StoredCount(cs[..n], key)
  {
    if n == |cs| {
      assert cs[..n] == cs;
    } else {
      var m := |cs| - 1;
      CountsPrefix(cs[..m], n, key);
      assert cs[..m][..n] == cs[..n];
    }
  }

  lemma EnterKeepsChain(s: System, c: Caller)
    requires Chained(s.callers) && LocksAgree(s)
    requires c.previous == if c.key in s.locks then Some(s.locks[c.key]) else None
    ensures Chained(s.callers + [c])
  {
    var cs := s.callers + [c];
    forall j | 0 <= j < |cs| ensures ChainedAt(cs, j) {
      if j < |s.callers| {
        assert ChainedAt(s.callers, j);
      }
    }
  }

  lemma EnterKeepsOrder(s: System, c: Caller)
    requires Ordered(s) && c.pc == Waiting && !c.settled
    requires c.previous == if c.key in s.locks then Some(s.locks[c.key]) else None
    ensures Ordered(System(s.callers + [c], s.locks[c.key := |s.callers|], s.cache, s.late))
  {
    EnterKeepsChain(s, c);
    var t := System(s.callers + [c], s.locks[c.key := |s.callers|], s.cache, s.late);
    assert InTurn(t.callers);
    assert LocksAgree(t);
  }

  lemma EnterKeepsCounts(s: System, base: map<string, nat>, c: Caller)
    requires CacheCounts(s, base) && CarriesAll(s.callers, base) && c.pc == Waiting
    ensures CarriesAll(s.callers + [c], base)
    ensures forall k :: StoredCount(s.callers + [c], k) == StoredCount(s.callers, k)
  {
    var cs := s.callers + [c];
    assert cs[..|s.callers|] == s.callers;
    forall i | 0 <= i < |cs| ensures Carries(cs, base, i) {
      if i < |s.callers| {
        assert Carries(s.callers, base, i);
        assert cs[..i] == s.callers[..i];
      }
    }
  }

  /** The predecessors of a caller whose awaited promise has settled have all released. */
  lemma PredecessorsReleased(s: System, i: nat)
    requires Ordered(s) && i < |s.callers| && PreviousSettled(s, i)
    ensures forall j | 0 <= j < i && s.callers[j].key == s.callers[i].key :: s.callers[j].pc.Released()
  {
    assert ChainedAt(s.callers, i);
  }

  lemma MoveKeepsChain(cs: seq<Caller>, i: nat, c: Caller)
    requires Chained(cs) && i < |cs| && c.key == cs[i].key && c.previous == cs[i].previous
    requires cs[i].pc.Released() ==> c.pc.Released()
    ensures Chained(cs[i := c])
  {
    var ds := cs[i := c];
    forall j | 0 <= j < |ds| ensures ChainedAt(ds, j) {
      assert ChainedAt(cs, j);
    }
  }

  lemma MoveKeepsTurn(s: System, i: nat, c: Caller)
    requires Ordered(s) && i < |s.callers| && c.key == s.callers[i].key
    requires s.callers[i].pc.Released() ==> c.pc.Released()
    requires s.callers[i].pc.Waiting? || c.settled != s.callers[i].settled ==> PreviousSettled(s, i)
    ensures InTurn(s.callers[i := c])
  {
    if s.callers[i].pc.Waiting? || c.settled != s.callers[i].settled {
      PredecessorsReleased(s, i);
    }
  }

  lemma MoveKeepsLocks(s: System, i: nat, c: Caller, locks: map<string, nat>)
    requires LocksAgree(s) && InTurn(s.callers) && i < |s.callers| && c.key == s.callers[i].key
    requires s.callers[i].pc.Released() ==> c.pc.Released()
    requires c.pc.Released() ==> forall j | 0 <= j < i && s.callers[j].key == c.key :: s.callers[j].pc.Released()
    requires locks == if c.pc.Released() && c.key in s.locks && s.locks[c.key] == i then s.locks - {c.key} else s.locks
    ensures LocksAgree(System(s.callers[i := c], locks, s.cache, s.late))
  {
  }

  lemma MoveKeepsOrder(s: System, i: nat, c: Caller, locks: map<string, nat>)
    requires Ordered(s) && i < |s.callers|
    requires c.key == s.callers[i].key && c.previous == s.callers[i].previous
    requires s.callers[i].pc.Released() ==> c.pc.Released()
    requires s.callers[i].pc.Waiting? || c.settled != s.callers[i].settled ==> PreviousSettled(s, i)
    requires c.settled ==> c.pc.Released()
    requires !c.pc.Waiting?
    requires locks == if c.pc.Released() && c.key in s.locks && s.locks[c.key] == i then s.locks - {c.key} else s.locks
    ensures Ordered(System(s.callers[i := c], locks, s.cache, s.late))
  {
    MoveKeepsChain(s.callers, i, c);
    MoveKeepsTurn(s, i, c);
    assert forall j | 0 <= j < i && s.callers[j].key == c.key :: s.callers[j].pc.Released() by {
      if s.callers[i].pc.Waiting? {
        PredecessorsReleased(s, i);
      }
    }
    MoveKeepsLocks(s, i, c, locks);
  }

  /** Replacing one caller changes the counts of the prefixes that contain it, by its own contribution. */
  lemma PrefixCounts(cs: seq<Caller>, i: nat, c: Caller, j: nat, key: string)
    requires i < |cs| && j <= |cs| && c.key == cs[i].key
    requires cs[i].pc.Stored() == c.pc.Stored() || j <= i || key != c.key
    ensures StoredCount(cs[i := c][..j], key) == StoredCount(cs[..j], key)
  {
    if i < j {
      assert cs[i := c][..j] == cs[..j][i := c];
      CountsStep(cs[..j], i, c, key);
    } else {
      assert cs[i := c][..j] == cs[..j];
    }
  }

  lemma MoveKeepsCarries(cs: seq<Caller>, base: map<string, nat>, i: nat, c: Caller)
    requires CarriesAll(cs, base) && InTurn(cs) && i < |cs| && c.key == cs[i].key
    requires c.pc.Stored() != cs[i].pc.Stored() ==> !cs[i].pc.Released()
    requires c.pc.Holds() ==> c.pc.v == Lookup(base, c.key) + StoredCount(cs[..i], c.key)
    ensures CarriesAll(cs[i := c], base)
  {
    var ds := cs[i := c];
    forall j | 0 <= j < |ds| ensures Carries(ds, base, j) {
      assert Carries(cs, base, j);
      if ds[j].pc.Holds() {
        PrefixCounts(cs, i, c, j, ds[j].key);
      }
    }
  }

  /** Inside the section the store still holds what the earlier callers left there. */
  lemma SectionSeesPrefix(s: System, base: map<string, nat>, i: nat)
    requires CacheCounts(s, base) && InTurn(s.callers) && i < |s.callers| && !s.callers[i].pc.Stored() && !s.callers[i].pc.Released()
    ensures Lookup(s.cache, s.callers[i].key) == Lookup(base, s.callers[i].key) + StoredCount(s.callers[..i], s.callers[i].key)
  {
    CountsPrefix(s.callers, i, s.callers[i].key);
  }

  /** One caller moves on inside, into or out of its section. */
  ghost predicate Moves(s: System, i: nat, pc: Pc, t: System) {
    && i < |s.callers|
    && t.callers == s.callers[i := s.callers[i].(pc := pc)]
    && !s.callers[i].pc.Released() && !pc.Waiting?
    && (s.callers[i].pc.Waiting? ==> PreviousSettled(s, i))
    && (s.callers[i].pc.Stored() ==> pc.Stored())
    && t.locks == (if pc.Released() && s.callers[i].key in s.locks && s.locks[s.callers[i].key] == i then s.locks - {s.callers[i].key} else s.locks)
  }

  /** The store changes by the mover's own increment, and by nothing else. */
  ghost predicate Increments(s: System, i: nat, pc: Pc, t: System)
    requires i < |s.callers|
  {
    t.cache == if pc.Stored() && !s.callers[i].pc.Stored() then s.cache[s.callers[i].key := Lookup(s.cache, s.callers[i].key) + 1] else s.cache
  }

  lemma StepMoves(s: System, step: Step)
    requires Enabled(s, step) && !step.Enter? && !step.Settle? && !step.Lands?
    ensures Moves(s, step.i, Apply(s, step).callers[step.i].pc, Apply(s, step))
  {
  }

  /** The lock keeps its order at every step, whatever the adapter does. */
  lemma StepKeepsOrder(s: System, step: Step)
    requires Ordered(s) && Enabled(s, step)
    ensures Ordered(Apply(s, step))
  {
    var t := Apply(s, step);
    match step
    case Enter(_) => EnterKeepsOrder(s, t.callers[|s.callers|]);
    case Settle(i) => MoveKeepsOrder(s, i, t.callers[i], s.locks);
    case Lands(_) =>
    case _ =>
      StepMoves(s, step);
      MoveKeepsOrder(s, step.i, t.callers[step.i], t.locks);
  }

  lemma MoveKeepsCache(s: System, base: map<string, nat>, i: nat, pc: Pc, t: System)
    requires CacheCounts(s, base) && Moves(s, i, pc, t) && Increments(s, i, pc, t)
    ensures CacheCounts(t, base)
  {
    forall k ensures Lookup(t.cache, k) == Lookup(base, k) + StoredCount(t.callers, k) {
      CountsStep(s.callers, i, t.callers[i], k);
    }
  }

  lemma SettleKeepsCounts(s: System, base: map<string, nat>, i: nat)
    requires Inv(s, base) && Enabled(s, Settle(i))
    ensures Counts(Apply(s, Settle(i)), base)
  {
    var c := s.callers[i].(settled := true);
    assert Carries(s.callers, base, i);
    MoveKeepsCarries(s.callers, base, i, c);
    forall k ensures StoredCount(s.callers[i := c], k) == StoredCount(s.callers, k) {
      CountsStep(s.callers, i, c, k);
    }
  }

  /** What a caller carries and stores agrees with the count of the earlier stores. */
  ghost predicate MovesByCount(s: System, base: map<string, nat>, i: nat, pc: Pc, t: System)
    requires i < |s.callers|
  {
    && Increments(s, i, pc, t)
    && (pc.Holds() ==> pc.v == Lookup(base, s.callers[i].key) + StoredCount(s.callers[..i], s.callers[i].key))
  }

  lemma StoreCounts(s: System, base: map<string, nat>, step: Step)
    requires Counts(s, base) && InTurn(s.callers)
    requires Enabled(s, step) && (step.SetAnswers? || step.SetRejects?)
    ensures MovesByCount(s, base, step.i, Apply(s, step).callers[step.i].pc, Apply(s, step))
  {
    assert Carries(s.callers, base, step.i);
    SectionSeesPrefix(s, base, step.i);
  }

  lemma StepCounts(s: System, base: map<string, nat>, step: Step)
    requires Counts(s, base) && InTurn(s.callers)
    requires Enabled(s, step) && !step.Enter? && !step.Settle? && !step.Lands?
    ensures MovesByCount(s, base, step.i, Apply(s, step).callers[step.i].pc, Apply(s, step))
  {
    if step.SetAnswers? || step.SetRejects? {
      StoreCounts(s, base, step);
      return;
    }
    assert Carries(s.callers, base, step.i);
    if !s.callers[step.i].pc.Stored() {
      SectionSeesPrefix(s, base, step.i);
    }
  }

  lemma StepPreserves(s: System, base: map<string, nat>, step: Step)
    requires Inv(s, base) && Enabled(s, step) && !step.Lands?
    ensures Inv(Apply(s, step), base)
  {
    StepKeepsOrder(s, step);
    var t := Apply(s, step);
    if step.Enter? {
      EnterKeepsCounts(s, base, t.callers[|s.callers|]);
    } else if step.Settle? {
      SettleKeepsCounts(s, base, step.i);
    } else {
      StepMoves(s, step);
      StepCounts(s, base, step);
      MoveKeepsCarries(s.callers, base, step.i, t.callers[step.i]);
      MoveKeepsCache(s, base, step.i, t.callers[step.i].pc, t);
    }
  }

  /** After every interleaving, late writes included, the lock is in order. */
  lemma {:induction false} AlwaysOrdered(base: map<string, nat>, steps: seq<Step>)
    requires Legal(Initial(base), steps)
    ensures Ordered(Exec(Initial(base), steps))
    decreases |steps|
  {
    if |steps| == 0 {
    } else {
      var n := |steps| - 1;
      AlwaysOrdered(base, steps[..n]);
      StepKeepsOrder(Exec(Initial(base), steps[..n]), steps[n]);
    }
  }

  /** No rejected write lands after its rejection. */
  ghost predicate Prompt(steps: seq<Step>) {
    forall k | 0 <= k < |steps| :: !steps[k].Lands?
  }

  /** While writes land no later than their answers, the counters count. */
  lemma {:induction false} Invariant(base: map<string, nat>, steps: seq<Step>)
    requires Legal(Initial(base), steps) && Prompt(steps)
    ensures Inv(Exec(Initial(base), steps), base)
    decreases |steps|
  {
    if |steps| == 0 {
    } else {
      var n := |steps| - 1;
      Invariant(base, steps[..n]);
      StepPreserves(Exec(Initial(base), steps[..n]), base, steps[n]);
    }
  }

  // ---------------------------------------------------------------------------------------
  // Safety
  // ---------------------------------------------------------------------------------------

  /** At most one call per key is inside its section. */
  lemma MutualExclusion(base: map<string, nat>, steps: seq<Step>, i: nat, j: nat)
    requires Legal(Initial(base), steps)
    requires i < |Exec(Initial(base), steps).callers| && j < |Exec(Initial(base), steps).callers|
    ensures var cs := Exec(Initial(base), steps).callers;
      cs[i].key == cs[j].key && cs[i].pc.InSection() && cs[j].pc.InSection() ==> i == j
  {
    AlwaysOrdered(base, steps);
  }

  /** Calls on one key run in arrival order: whoever has left the waiting room was preceded by released calls only. */
  lemma ArrivalOrder(base: map<string, nat>, steps: seq<Step>, i: nat, j: nat)
    requires Legal(Initial(base), steps)
    requires i < j < |Exec(Initial(base), steps).callers|
    ensures var cs := Exec(Initial(base), steps).callers;
      cs[i].key == cs[j].key && !cs[j].pc.Waiting? ==> cs[i].pc.Released()
  {
    AlwaysOrdered(base, steps);
  }

  /** The nonces fulfilled on `key`, in arrival order of their callers. */
  function Nonces(cs: seq<Caller>, key: string): seq<nat> {
    if |cs| == 0 then []
    else
      var c := cs[|cs| - 1];
      Nonces(cs[..|cs| - 1], key) + (if c.key == key && c.pc.Returned? then [c.pc.v] else [])
  }

  /** Calls on `key` that threw although the adapter had stored their increment. */
  function Losses(cs: seq<Caller>, key: string): nat {
    if |cs| == 0 then 0
    else
      var c := cs[|cs| - 1];
      Losses(cs[..|cs| - 1], key) + (if c.key == key && c.pc.Threw? && c.pc.lost then 1 else 0)
  }

  lemma {:induction false} ReleasedCounts(cs: seq<Caller>, key: string)
    requires forall i | 0 <= i < |cs| && cs[i].key == key :: cs[i].pc.Released() || !cs[i].pc.Stored()
    ensures StoredCount(cs, key) == |Nonces(cs, key)| + Losses(cs, key)
  {
    if |cs| == 0 {
    } else {
      ReleasedCounts(cs[..|cs| - 1], key);
    }
  }

  /** A fulfilled call returned the initial value plus the numbers of earlier fulfilled calls and of earlier losses. */
  lemma NonceValue(base: map<string, nat>, steps: seq<Step>, i: nat)
    requires Legal(Initial(base), steps) && Prompt(steps) && i < |Exec(Initial(base), steps).callers|
    ensures var c := Exec(Initial(base), steps).callers[i];
      var before := Exec(Initial(base), steps).callers[..i];
      c.pc.Returned? ==> c.pc.v == Lookup(base, c.key) + |Nonces(before, c.key)| + Losses(before, c.key)
  {
    Invariant(base, steps);
    var cs := Exec(Initial(base), steps).callers;
    assert Carries(cs, base, i);
    if cs[i].pc.Returned? {
      ReleasedCounts(cs[..i], cs[i].key);
    }
  }

  ghost predicate ExactAt(cs: seq<Caller>, b: nat, key: string, i: nat)
    requires i < |cs|
  {
    cs[i].key == key && cs[i].pc.Returned? ==> cs[i].pc.v == b + |Nonces(cs[..i], key)| + Losses(cs[..i], key)
  }

  ghost predicate Exact(cs: seq<Caller>, b: nat, key: string) {
    forall i | 0 <= i < |cs| :: ExactAt(cs, b, key, i)
  }

  ghost predicate Increasing(ns: seq<nat>) {
    forall m, n | 0 <= m < n < |ns| :: ns[m] < ns[n]
  }

  ghost predicate Consecutive(ns: seq<nat>, b: nat) {
    forall m | 0 <= m < |ns| :: ns[m] == b + m
  }

  ghost predicate LossFreeAt(cs: seq<Caller>, key: string, i: nat)
    requires i < |cs|
  {
    cs[i].key == key && cs[i].pc.Returned? ==> Losses(cs[..i], key) == 0
  }

  /** No fulfilled call on `key` came after a loss. */
  ghost predicate NoLossBefore(cs: seq<Caller>, key: string) {
    forall i | 0 <= i < |cs| :: LossFreeAt(cs, key, i)
  }

  lemma ExactFront(cs: seq<Caller>, b: nat, key: string)
    requires |cs| > 0
    ensures Exact(cs, b, key) ==> Exact(cs[..|cs| - 1], b, key) && ExactAt(cs, b, key, |cs| - 1)
    ensures NoLossBefore(cs, key) <==> NoLossBefore(cs[..|cs| - 1], key) && LossFreeAt(cs, key, |cs| - 1)
  {
    var front := cs[..|cs| - 1];
    forall i | 0 <= i < |front|
      ensures ExactAt(front, b, key, i) == ExactAt(cs, b, key, i)
      ensures LossFreeAt(front, key, i) == LossFreeAt(cs, key, i)
    {
      assert front[..i] == cs[..i] && front[i] == cs[i];
    }
  }

  lemma AppendNonce(ns: seq<nat>, v: nat, b: nat, losses: nat)
    requires Increasing(ns) && v == b + |ns| + losses
    requires forall n | n in ns :: n < v
    ensures Increasing(ns + [v])
    ensures Consecutive(ns + [v], b) <==> Consecutive(ns, b) && losses == 0
  {
    var ms := ns + [v];
    assert ms[|ns|] == v;
    assert forall m | 0 <= m < |ns| :: ms[m] == ns[m] && ns[m] in ns;
  }

  lemma {:induction false} ExactSequence(cs: seq<Caller>, b: nat, key: string)
    requires Exact(cs, b, key)
    ensures Increasing(Nonces(cs, key))
    ensures forall n | n in Nonces(cs, key) :: n < b + |Nonces(cs, key)| + Losses(cs, key)
    ensures Consecutive(Nonces(cs, key), b) <==> NoLossBefore(cs, key)
  {
    if |cs| == 0 {
    } else {
      var front, c := cs[..|cs| - 1], cs[|cs| - 1];
      ExactFront(cs, b, key);
      ExactSequence(front, b, key);
      if c.key == key && c.pc.Returned? {
        AppendNonce(Nonces(front, key), c.pc.v, b, Losses(front, key));
      } else {
        assert Nonces(cs, key) == Nonces(front, key);
      }
    }
  }

  /** While writes land no later than their answers, over every interleaving the nonces fulfilled on a key are
      strictly increasing in arrival order; they are base, base + 1, ... without a gap exactly when no call was
      fulfilled after one whose increment the adapter stored and then rejected. A rejection that stores nothing
      never costs a nonce. */
  lemma NoncesInOrder(base: map<string, nat>, steps: seq<Step>, key: string)
    requires Legal(Initial(base), steps) && Prompt(steps)
    ensures var cs := Exec(Initial(base), steps).callers;
      && Increasing(Nonces(cs, key))
      && (Consecutive(Nonces(cs, key), Lookup(base, key)) <==> NoLossBefore(cs, key))
  {
    var cs := Exec(Initial(base), steps).callers;
    forall i | 0 <= i < |cs| ensures ExactAt(cs, Lookup(base, key), key, i) {
      NonceValue(base, steps, i);
    }
    ExactSequence(cs, Lookup(base, key), key);
  }

  // ---------------------------------------------------------------------------------------
  // Progress and clean-up
  // ---------------------------------------------------------------------------------------

  /** A key is locked exactly while some call on it has entered and not released. */
  lemma LockedIffPending(base: map<string, nat>, steps: seq<Step>, key: string)
    requires Legal(Initial(base), steps)
    ensures var s := Exec(Initial(base), steps);
      key in s.locks <==> exists i :: 0 <= i < |s.callers| && s.callers[i].key == key && !s.callers[i].pc.Released()
  {
    AlwaysOrdered(base, steps);
  }

  ghost predicate Quiescent(s: System) {
    forall i | 0 <= i < |s.callers| :: s.callers[i].pc.Released() && s.callers[i].settled
  }

  /** Once every call has released, no lock is left; and while writes land no later than their answers, the store
      holds what was there before plus one per fulfilled call and per loss. */
  lemma QuiescentIsClean(base: map<string, nat>, steps: seq<Step>, key: string)
    requires Legal(Initial(base), steps)
    requires forall i | 0 <= i < |Exec(Initial(base), steps).callers| :: Exec(Initial(base), steps).callers[i].pc.Released()
    ensures Exec(Initial(base), steps).locks == map[]
    ensures var s := Exec(Initial(base), steps);
      Prompt(steps) ==> Lookup(s.cache, key) == Lookup(base, key) + |Nonces(s.callers, key)| + Losses(s.callers, key)
  {
    AlwaysOrdered(base, steps);
    if Prompt(steps) {
      Invariant(base, steps);
      ReleasedCounts(Exec(Initial(base), steps).callers, key);
    }
  }

  /** Segments left to run, promise settlements included. */
  function Work(cs: seq<Caller>): nat {
    if |cs| == 0 then 0
    else Work(cs[..|cs| - 1]) + cs[|cs| - 1].pc.Remaining() + (if cs[|cs| - 1].settled then 0 else 1)
  }

  lemma {:induction false} WorkAt(cs: seq<Caller>, i: nat, c: Caller)
    requires i < |cs|
    ensures Work(cs[i := c]) == Work(cs) - cs[i].pc.Remaining() - (if cs[i].settled then 0 else 1)
                                + c.pc.Remaining() + (if c.settled then 0 else 1)
  {
    var n := |cs| - 1;
    if i == n {
      assert cs[i := c][..n] == cs[..n];
    } else {
      assert cs[i := c][..n] == cs[..n][i := c];
      WorkAt(cs[..n], i, c);
    }
  }

  /** Every step of an existing call uses up work, so without new arrivals every run is finite. */
  lemma StepWorks(s: System, step: Step)
    requires Enabled(s, step) && !step.Enter? && !step.Lands?
    ensures Work(Apply(s, step).callers) < Work(s.callers)
  {
    WorkAt(s.callers, step.i, Apply(s, step).callers[step.i]);
  }

  /** Follows the chain of awaited promises back from `i` to a step that can be taken. */
  lemma {:induction false} ChainAdvances(s: System, i: nat) returns (step: Step)
    requires Ordered(s) && i < |s.callers|
    requires !s.callers[i].pc.Released() || !s.callers[i].settled
    ensures Enabled(s, step) && !step.Enter? && !step.Lands?
    decreases i
  {
    assert ChainedAt(s.callers, i);
    var c := s.callers[i];
    match c.pc
    case Reading => step := GetAnswers(i);
    case Got(_) => step := CallSet(i);
    case Writing(_) => step := SetAnswers(i);
    case Wrote(_) => step := Finish(i);
    case Broken(_) => step := Finish(i);
    case _ =>
      if PreviousSettled(s, i) {
        step := if c.pc.Waiting? then Wake(i) else Settle(i);
      } else {
        step := ChainAdvances(s, c.previous.value);
      }
  }

  lemma ExecLast(s: System, a: seq<Step>, step: Step)
    requires Legal(s, a) && Enabled(Exec(s, a), step)
    ensures Legal(s, a + [step]) && Exec(s, a + [step]) == Apply(Exec(s, a), step)
  {
    assert (a + [step])[..|a + [step]| - 1] == a;
  }

  lemma ExecOne(s: System, step: Step)
    requires Enabled(s, step)
    ensures Legal(s, [step]) && Exec(s, [step]) == Apply(s, step)
  {
    assert Legal(s, []) && Exec(s, []) == s;
    ExecLast(s, [], step);
    assert [] + [step] == [step];
  }

  ghost predicate Reaches(s: System, steps: seq<Step>, t: System) {
    Legal(s, steps) && Exec(s, steps) == t
  }

  lemma ReachesLast(s: System, a: seq<Step>, t: System, step: Step)
    requires Reaches(s, a, t) && Enabled(t, step)
    ensures Reaches(s, a + [step], Apply(t, step))
  {
    ExecLast(s, a, step);
  }

  lemma ReachesFront(s: System, b: seq<Step>, t: System) returns (u: System)
    requires Reaches(s, b, t) && |b| > 0
    ensures Reaches(s, b[..|b| - 1], u) && Enabled(u, b[|b| - 1]) && t == Apply(u, b[|b| - 1])
  {
    u := Exec(s, b[..|b| - 1]);
  }

  lemma {:induction false} ReachesAppend(s: System, a: seq<Step>, m: System, b: seq<Step>, t: System)
    requires Reaches(s, a, m) && Reaches(m, b, t)
    ensures Reaches(s, a + b, t)
    decreases |b|
  {
    if |b| == 0 {
      assert a + b == a;
    } else {
      var n := |b| - 1;
      var u := ReachesFront(m, b, t);
      ReachesAppend(s, a, m, b[..n], u);
      ReachesLast(s, a + b[..n], u, b[n]);
      assert a + b[..n] + [b[n]] == a + b;
    }
  }

  lemma ExecAppend(s: System, a: seq<Step>, b: seq<Step>)
    requires Legal(s, a) && Legal(Exec(s, a), b)
    ensures Legal(s, a + b) && Exec(s, a + b) == Exec(Exec(s, a), b)
  {
    ReachesAppend(s, a, Exec(s, a), b, Exec(Exec(s, a), b));
  }

  /** Steps of calls that have already arrived. */
  ghost predicate OwnSteps(steps: seq<Step>) {
    forall k | 0 <= k < |steps| :: !steps[k].Enter? && !steps[k].Lands?
  }

  lemma {:induction false} Drains(s: System) returns (more: seq<Step>, t: System)
    requires Ordered(s)
    ensures OwnSteps(more) && |more| <= Work(s.callers)
    ensures Reaches(s, more, t) && Quiescent(t)
    decreases Work(s.callers)
  {
    more, t := [], s;
    if i :| 0 <= i < |s.callers| && (!s.callers[i].pc.Released() || !s.callers[i].settled) {
      var step := ChainAdvances(s, i);
      StepWorks(s, step);
      StepKeepsOrder(s, step);
      var u, rest := Apply(s, step), [];
      rest, t := Drains(u);
      ExecOne(s, step);
      ReachesAppend(s, [step], u, rest, t);
      more := [step] + rest;
    }
  }

  /** No reachable state with a pending call is stuck: from it, some continuation without new arrivals
      releases every call, settles every promise and empties the lock map. */
  lemma AlwaysDrains(base: map<string, nat>, steps: seq<Step>) returns (more: seq<Step>)
    requires Legal(Initial(base), steps)
    ensures OwnSteps(more)
    ensures Legal(Initial(base), steps + more)
    ensures Quiescent(Exec(Initial(base), steps + more)) && Exec(Initial(base), steps + more).locks == map[]
  {
    AlwaysOrdered(base, steps);
    var t;
    more, t := Drains(Exec(Initial(base), steps));
    ExecAppend(Initial(base), steps, more);
    QuiescentIsClean(base, steps + more, "");
  }

  /** Whatever the order of steps, no run without new arrivals is longer than the work left. */
  lemma {:induction false} RunsAreFinite(s: System, more: seq<Step>)
    requires Legal(s, more) && OwnSteps(more)
    ensures |more| + Work(Exec(s, more).callers) <= Work(s.callers)
    decreases |more|
  {
    if |more| == 0 {
    } else {
      var n := |more| - 1;
      RunsAreFinite(s, more[..n]);
      StepWorks(Exec(s, more[..n]), more[n]);
    }
  }

  // ---------------------------------------------------------------------------------------
  // The engine object
  // ---------------------------------------------------------------------------------------

  /** The engine with its adapter's store. Each method is one synchronous segment of one call, or one answer
      of the adapter; between two of them anything else may run. */
  class Engine {
    var callers: seq<Caller>
    var locks: map<string, nat>
    var cache: map<string, nat>
    var late: set<Write>      // rejected writes that may still land

    ghost function Snapshot(): System
      reads this
    {
      System(callers, locks, cache, late)
    }

    ghost predicate Valid()
      reads this
    {
      Ordered(Snapshot())
    }

    constructor (stored: map<string, nat>)
      ensures Valid() && Snapshot() == Initial(stored)
    {
      callers, locks, cache, late := [], map[], stored, {};
    }

    /** `nextNonce` up to `await previous`. */
    method Enter(account: string, channel: nat) returns (me: nat)
      requires Valid()
      modifies this`callers, this`locks
      ensures Valid() && me == old(|callers|)
      ensures Snapshot() == Apply(old(Snapshot()), Step.Enter(CacheKey(account, channel)))
    {
      var key := CacheKey(account, channel);
      var previous := if key in locks then Some(locks[key]) else None;
      StepKeepsOrder(Snapshot(), Step.Enter(key));
      me := |callers|;
      callers := callers + [Caller(key, previous, Waiting, false)];
      locks := locks[key := me];
    }

    method MoveTo(i: nat, pc: Pc)
      requires i < |callers|
      modifies this`callers
      ensures Snapshot() == Goto(old(Snapshot()), i, pc)
    {
      callers := callers[i := callers[i].(pc := pc)];
    }

    /** `previous` is fulfilled: enter the section and call `adapter.get`. */
    method Wake(i: nat)
      requires Valid() && Enabled(Snapshot(), Step.Wake(i))
      modifies this`callers
      ensures Valid() && Snapshot() == Apply(old(Snapshot()), Step.Wake(i))
    {
      StepKeepsOrder(Snapshot(), Step.Wake(i));
      MoveTo(i, Reading);
    }

    /** `adapter.get` answers with the stored value, or rejects. */
    method AnswerGet(i: nat, rejects: bool)
      requires Valid() && Enabled(Snapshot(), GetAnswers(i))
      modifies this`callers
      ensures Valid() && Snapshot() == Apply(old(Snapshot()), if rejects then GetRejects(i) else GetAnswers(i))
    {
      StepKeepsOrder(Snapshot(), if rejects then GetRejects(i) else GetAnswers(i));
      if rejects {
        MoveTo(i, Broken(false));
      } else {
        MoveTo(i, Got(Lookup(cache, callers[i].key)));
      }
    }

    method BeginSet(i: nat)
      requires Valid() && Enabled(Snapshot(), CallSet(i))
      modifies this`callers
      ensures Valid() && Snapshot() == Apply(old(Snapshot()), CallSet(i))
    {
      StepKeepsOrder(Snapshot(), CallSet(i));
      MoveTo(i, Writing(callers[i].pc.v));
    }

    /** `adapter.set` stores or not, and answers or rejects; an answer means that it stored, and what it
        rejected may still land. */
    method AnswerSet(i: nat, rejects: bool, stored: bool)
      requires Valid() && Enabled(Snapshot(), SetAnswers(i))
      requires !rejects ==> stored
      modifies this`callers, this`cache, this`late
      ensures Valid() && Snapshot() == Apply(old(Snapshot()), if rejects then SetRejects(i, stored) else SetAnswers(i))
    {
      ghost var step := if rejects then SetRejects(i, stored) else SetAnswers(i);
      ghost var t := Apply(Snapshot(), step);
      StepKeepsOrder(Snapshot(), step);
      var c := callers[i];
      if stored {
        cache := cache[c.key := c.pc.v + 1];
      }
      if rejects {
        late := late + {Write(c.key, c.pc.v + 1)};
      }
      MoveTo(i, if rejects then Broken(stored) else Wrote(c.pc.v));
      assert Snapshot() == t;
    }

    /** A write lands after its rejection. */
    method Land(w: Write)
      requires Valid() && w in late
      modifies this`cache
      ensures Valid() && Snapshot() == Apply(old(Snapshot()), Lands(w))
    {
      StepKeepsOrder(Snapshot(), Lands(w));
      cache := cache[w.key := w.value];
    }

    /** The `finally` block: release, and drop the map entry if no later call has replaced it. */
    method Release(i: nat)
      requires Valid() && Enabled(Snapshot(), Finish(i))
      modifies this`callers, this`locks
      ensures Valid() && Snapshot() == Apply(old(Snapshot()), Finish(i))
    {
      StepKeepsOrder(Snapshot(), Finish(i));
      var c := callers[i];
      MoveTo(i, if c.pc.Wrote? then Returned(c.pc.v) else Threw(c.pc.lost));
      if c.key in locks && locks[c.key] == i {
        locks := locks - {c.key};
      }
    }

    /** The job queue fulfils `next` of a released caller whose `previous` is fulfilled. */
    method SettleNext(i: nat)
      requires Valid() && Enabled(Snapshot(), Settle(i))
      modifies this`callers
      ensures Valid() && Snapshot() == Apply(old(Snapshot()), Settle(i))
    {
      StepKeepsOrder(Snapshot(), Settle(i));
      callers := callers[i := callers[i].(settled := true)];
    }
  }

  // ---------------------------------------------------------------------------------------
  // Channel selection
  // ---------------------------------------------------------------------------------------

  const TWO_31 := 0x8000_0000
  const TWO_32 := 0x1_0000_0000

  type CodeUnit = c: nat | c < 0x1_0000

  /** `x | 0` on an integral x. */
  function ToInt32(x: int): (r: int)
    ensures -TWO_31 <= r < TWO_31
  {
    (x + TWO_31) % TWO_32 - TWO_31
  }

  /** The hash without any wrap-around. */
  function Polynomial(codes: seq<CodeUnit>): nat {
    if |codes| == 0 then 5381 else 33 * Polynomial(codes[..|codes| - 1]) + codes[|codes| - 1]
  }

  lemma WrapOnce(x: int, k: int)
    ensures ToInt32(x + k * TWO_32) == ToInt32(x)
  {
  }

  /** Wrapping at the shift and at the sum is wrapping once. */
  lemma WrapStep(p: int, c: int)
    ensures ToInt32(ToInt32(ToInt32(p) * 32) + ToInt32(p) + c) == ToInt32(33 * p + c)
  {
    var h := ToInt32(p);
    var k := (p + TWO_31) / TWO_32;
    assert h == p - k * TWO_32;
    var j := (h * 32 + TWO_31) / TWO_32;
    WrapOnce(33 * p + c, -(33 * k + j));
  }

  function Abs(x: int): nat {
    if x < 0 then -x else x
  }

  lemma AbsOfWrapped(x: nat)
    ensures Abs(ToInt32(x)) == if x % TWO_32 < TWO_31 then x % TWO_32 else TWO_32 - x % TWO_32
  {
  }

  lemma HashStep(taskType: seq<CodeUnit>, i: nat, hash: int)
    requires i < |taskType| && hash == ToInt32(Polynomial(taskType[..i]))
    ensures ToInt32(ToInt32(hash * 32) + hash + taskType[i]) == ToInt32(Polynomial(taskType[..i + 1]))
  {
    assert taskType[..i + 1][..i] == taskType[..i];
    WrapStep(Polynomial(taskType[..i]), taskType[i]);
  }

  /** The loop wraps to 32 bits at every character; the answer is that of the unbounded polynomial reduced once
      modulo 2^32, taken as a distance from 0, modulo 256. */
  method SelectChannel(taskType: seq<CodeUnit>) returns (channel: nat)
    ensures channel < 256
    ensures var r := Polynomial(taskType) % TWO_32;
      channel == (if r < TWO_31 then r else TWO_32 - r) % 256
  {
    var hash := ToInt32(5381);
    for i := 0 to |taskType|
      invariant hash == ToInt32(Polynomial(taskType[..i]))
    {
      HashStep(taskType, i, hash);
      hash := ToInt32(ToInt32(hash * 32) + hash + taskType[i]);
    }
    assert taskType[..|taskType|] == taskType;
    AbsOfWrapped(Polynomial(taskType));
    channel := Abs(hash) % 256;
  }
}
