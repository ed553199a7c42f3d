/** The rotating pool of RPC providers. */
module ProviderPool {
  import opened Text

  const MAX_FAILURES := 3

  datatype Entry = Entry(healthy: bool, consecutiveFailures: nat)

  datatype Pool = Pool(entries: seq<Entry>, cursor: nat)

  predicate WellFormed(p: Pool) {
    p.cursor < |p.entries|
  }

  // ---------------------------------------------------------------------------------------
  // Choosing a provider
  // ---------------------------------------------------------------------------------------

  /** The position `d` places after `cursor` on a ring of `n`. */
  function Around(cursor: nat, d: nat, n: nat): nat {
    if cursor + d < n then cursor + d else if cursor + d < 2 * n then cursor + d - n else 0
  }

  lemma AroundIsModulo(cursor: nat, d: nat, n: nat)
    requires cursor < n && d <= n
    ensures (cursor + d) % n == Around(cursor, d, n) < n
  {
    var x := cursor + d;
    assert x == n * (x / n) + x % n;
    if x < n {
      assert x / n == 0;
    } else {
      assert x / n == 1;
    }
  }

  /** How far along the ring `k` lies from `cursor`. */
  function Distance(cursor: nat, k: nat, n: nat): nat
    requires cursor < n && k < n
  {
    if cursor <= k then k - cursor else k + n - cursor
  }

  predicate HealthyAt(p: Pool, k: nat) {
    k < |p.entries| && p.entries[k].healthy
  }

  predicate AllDown(p: Pool) {
    forall k :: 0 <= k < |p.entries| ==> !HealthyAt(p, k)
  }

  /** `k` is healthy and nothing healthy lies between the cursor and it. */
  predicate Nearest(p: Pool, k: nat)
    requires WellFormed(p)
  {
    HealthyAt(p, k)
    && forall j :: 0 <= j < |p.entries| && HealthyAt(p, j) ==>
         Distance(p.cursor, k, |p.entries|) <= Distance(p.cursor, j, |p.entries|)
  }

  /** The first healthy entry at `d` or more places after the cursor, or `None`. */
  function Search(p: Pool, d: nat): (r: (bool, nat))
    requires WellFormed(p) && d <= |p.entries|
    requires forall j :: 0 <= j < |p.entries| && HealthyAt(p, j) ==> d <= Distance(p.cursor, j, |p.entries|)
    ensures r.0 ==> Nearest(p, r.1)
    ensures !r.0 ==> AllDown(p)
    decreases |p.entries| - d
  {
    if d == |p.entries| then
      assert forall j :: 0 <= j < |p.entries| ==> Distance(p.cursor, j, |p.entries|) < |p.entries|;
      (false, 0)
    else if p.entries[Around(p.cursor, d, |p.entries|)].healthy then (true, Around(p.cursor, d, |p.entries|))
    else Search(p, d + 1)
  }

  const FRESH := Entry(true, 0)

  /** Every entry given a fresh start. */
  function Renewed(p: Pool): (r: seq<Entry>)
    ensures |r| == |p.entries|
  {
    seq(|p.entries|, _ => FRESH)
  }

  /** The entry `getProvider` returns, and the pool it leaves. */
  function Get(p: Pool): (nat, Pool)
    requires WellFormed(p)
  {
    var (found, k) := Search(p, 0);
    if found then (k, p.(cursor := Around(k, 1, |p.entries|)))
    else (0, Pool(Renewed(p), Around(0, 1, |p.entries|)))
  }

  /** One answered or failed probe of entry `k`. */
  function Probed(e: Entry, answered: bool): Entry {
    if answered then FRESH
    else Entry(e.healthy && e.consecutiveFailures + 1 < MAX_FAILURES, e.consecutiveFailures + 1)
  }

  // ---------------------------------------------------------------------------------------
  // Runs
  // ---------------------------------------------------------------------------------------

  datatype Op = Pick | Probe(k: nat, answered: bool)

  function Step(p: Pool, op: Op): Pool
    requires WellFormed(p)
  {
    match op
    case Pick => Get(p).1
    case Probe(k, answered) =>
      if k < |p.entries| then p.(entries := p.entries[k := Probed(p.entries[k], answered)]) else p
  }

  lemma StepWellFormed(p: Pool, op: Op)
    requires WellFormed(p)
    ensures WellFormed(Step(p, op)) && |Step(p, op).entries| == |p.entries|
  {
  }

  function Exec(p: Pool, ops: seq<Op>): (q: Pool)
    requires WellFormed(p)
    ensures WellFormed(q) && |q.entries| == |p.entries|
    decreases |ops|
  {
    if ops == [] then p else
      StepWellFormed(p, ops[0]);
      Exec(Step(p, ops[0]), ops[1..])
  }

  /** What the picks of a run return, in order. */
  function Picks(p: Pool, ops: seq<Op>): seq<nat>
    requires WellFormed(p)
    decreases |ops|
  {
    if ops == [] then [] else
      StepWellFormed(p, ops[0]);
      (if ops[0].Pick? then [Get(p).0] else []) + Picks(Step(p, ops[0]), ops[1..])
  }

  /** Entry `k` is healthy in every state of the run. */
  predicate StaysHealthy(p: Pool, ops: seq<Op>, k: nat)
    requires WellFormed(p)
    decreases |ops|
  {
    HealthyAt(p, k)
    && (ops == [] || (
          StepWellFormed(p, ops[0]);
          StaysHealthy(Step(p, ops[0]), ops[1..], k)))
  }

  function Opened(urls: nat): (p: Pool)
    requires urls > 0
    ensures WellFormed(p) && |p.entries| == urls
  {
    Pool(seq(urls, _ => FRESH), 0)
  }

  // ---------------------------------------------------------------------------------------
  // What a pick returns
  // ---------------------------------------------------------------------------------------

  /** The choice is the nearest healthy entry; only a pool that is wholly down is reset, and nothing throws. */
  lemma PickIsNearest(p: Pool)
    requires WellFormed(p)
    ensures Get(p).0 < |p.entries| && HealthyAt(Get(p).1, Get(p).0)
    ensures !AllDown(p) ==> Nearest(p, Get(p).0) && Get(p).1.entries == p.entries
    ensures AllDown(p) ==> Get(p).0 == 0 && forall k :: 0 <= k < |p.entries| ==> HealthyAt(Get(p).1, k)
  {
    var (found, k) := Search(p, 0);
    assert found ==> HealthyAt(p, k);
  }

  /** A reset makes every entry healthy with no failure on record, returns the first, and goes on with the second. */
  lemma ResetStartsAfresh(p: Pool)
    requires WellFormed(p)
    ensures AllDown(p) ==>
      && Get(p).0 == 0 && |Get(p).1.entries| == |p.entries|
      && Get(p).1.cursor == (if |p.entries| == 1 then 0 else 1)
      && forall k :: 0 <= k < |p.entries| ==> Get(p).1.entries[k] == Entry(true, 0)
  {
    var (found, k) := Search(p, 0);
    assert found ==> HealthyAt(p, k);
  }

  predicate AllHealthy(p: Pool) {
    forall k :: 0 <= k < |p.entries| ==> HealthyAt(p, k)
  }

  /** In a pool that is wholly healthy the picks go round the ring. */
  lemma {:induction false} HealthyPoolRotates(p: Pool, picks: nat, k: nat)
    requires WellFormed(p) && AllHealthy(p) && k < picks
    ensures |Picks(p, seq(picks, _ => Pick))| == picks
    ensures Picks(p, seq(picks, _ => Pick))[k] == (p.cursor + k) % |p.entries|
    decreases picks
  {
    var ops, n := seq(picks, _ => Pick), |p.entries|;
    var q := Get(p).1;
    StepWellFormed(p, Pick);
    PickIsNearest(p);
    assert HealthyAt(p, p.cursor) && Distance(p.cursor, p.cursor, n) == 0;
    assert Get(p).0 == p.cursor && q == p.(cursor := Around(p.cursor, 1, n));
    assert ops[1..] == seq(picks - 1, _ => Pick);
    forall j | 0 <= j < |q.entries| ensures HealthyAt(q, j) {
      assert HealthyAt(p, j);
    }
    AroundIsModulo(p.cursor, 0, n);
    if picks == 1 {
      assert Picks(q, ops[1..]) == [];
    } else {
      HealthyPoolRotates(q, picks - 1, if k == 0 then 0 else k - 1);
      if k > 0 {
        AroundIsModulo(p.cursor, 1, n);
        RingStep(p.cursor, k, n);
      }
    }
  }

  lemma RingStep(cursor: nat, k: nat, n: nat)
    requires cursor < n && k > 0
    ensures ((cursor + 1) % n + (k - 1)) % n == (cursor + k) % n
  {
    var next := (cursor + 1) % n;
    if cursor + 1 < n {
      assert next == cursor + 1;
      assert next + (k - 1) == cursor + k;
    } else {
      assert next == 0;
      ModuloOnce(k - 1, n);
      assert cursor + k == n + (k - 1);
    }
  }

  lemma ModuloOnce(x: nat, n: nat)
    requires n > 0
    ensures (n + x) % n == x % n
  {
    var q := x / n;
    assert x == n * q + x % n;
    assert n + x == n * (q + 1) + x % n;
    QuotientUnique(n + x, n, q + 1, x % n);
  }

  lemma QuotientUnique(a: nat, n: nat, q: nat, r: nat)
    requires n > 0 && a == n * q + r && r < n
    ensures a % n == r
  {
    var d := a / n - q;
    assert a == n * (a / n) + a % n;
    assert n * d == r - a % n;
    OnlyZeroMultiple(n, d);
  }

  lemma OnlyZeroMultiple(n: int, d: int)
    requires n > 0 && -n < n * d < n
    ensures d == 0
  {
  }

  /** Passing over a healthy entry brings the cursor strictly closer to it. */
  lemma PassedOverIsCloser(p: Pool, k: nat)
    requires WellFormed(p) && HealthyAt(p, k) && Get(p).0 != k
    ensures Distance(Get(p).1.cursor, k, |p.entries|) < Distance(p.cursor, k, |p.entries|)
  {
    PickIsNearest(p);
    var c := Get(p).0;
    assert Distance(p.cursor, c, |p.entries|) < Distance(p.cursor, k, |p.entries|);
  }

  function PickCount(ops: seq<Op>): nat {
    if ops == [] then 0 else (if ops[0].Pick? then 1 else 0) + PickCount(ops[1..])
  }

  /** No starvation: whatever the probes do to the others, an entry that stays healthy is returned
      once its distance from the cursor is used up. */
  lemma {:induction false} ServedWithinDistance(p: Pool, ops: seq<Op>, k: nat)
    requires WellFormed(p) && StaysHealthy(p, ops, k)
    requires PickCount(ops) > Distance(p.cursor, k, |p.entries|)
    ensures k in Picks(p, ops)
    decreases |ops|
  {
    StepWellFormed(p, ops[0]);
    var q := Step(p, ops[0]);
    var rest := Picks(q, ops[1..]);
    if ops[0].Pick? && Get(p).0 == k {
      assert Picks(p, ops) == [k] + rest;
    } else {
      if ops[0].Pick? {
        PassedOverIsCloser(p, k);
      }
      ServedWithinDistance(q, ops[1..], k);
    }
  }

  /** Every window of as many picks as there are entries returns each entry that stays healthy. */
  lemma NoStarvation(p: Pool, ops: seq<Op>, k: nat)
    requires WellFormed(p) && StaysHealthy(p, ops, k)
    requires PickCount(ops) >= |p.entries|
    ensures k in Picks(p, ops)
  {
    ServedWithinDistance(p, ops, k);
  }

  // ---------------------------------------------------------------------------------------
  // When an entry is marked unhealthy
  // ---------------------------------------------------------------------------------------

  predicate FlagAgrees(e: Entry) {
    e.healthy <==> e.consecutiveFailures < MAX_FAILURES
  }

  predicate FlagsAgree(p: Pool) {
    forall k :: 0 <= k < |p.entries| ==> FlagAgrees(p.entries[k])
  }

  /** In every run an entry is healthy exactly while fewer than three failures in a row are on record. */
  lemma {:induction false} AlwaysFlagsAgree(p: Pool, ops: seq<Op>)
    requires WellFormed(p) && FlagsAgree(p)
    ensures FlagsAgree(Exec(p, ops))
    decreases |ops|
  {
    if ops == [] {
    } else {
      StepWellFormed(p, ops[0]);
      var q := Step(p, ops[0]);
      forall k | 0 <= k < |q.entries| ensures FlagAgrees(q.entries[k]) {
        assert FlagAgrees(p.entries[k]);
      }
      AlwaysFlagsAgree(q, ops[1..]);
    }
  }

  /** Failed probes of `k` since its last answer or since the last reset, in a pool of n opened afresh. */
  function Streak(n: nat, ops: seq<Op>, k: nat): nat
    requires n > 0
  {
    if ops == [] then 0
    else
      var before, last := ops[..|ops| - 1], ops[|ops| - 1];
      match last
      case Probe(j, answered) => if j != k then Streak(n, before, k) else if answered then 0 else Streak(n, before, k) + 1
      case Pick => if AllDown(Exec(Opened(n), before)) then 0 else Streak(n, before, k)
  }

  lemma {:induction false} ExecSplits(p: Pool, ops: seq<Op>, more: seq<Op>)
    requires WellFormed(p)
    ensures Exec(p, ops + more) == Exec(Exec(p, ops), more)
    decreases |ops|
  {
    if ops == [] {
      assert ops + more == more;
    } else {
      StepWellFormed(p, ops[0]);
      assert (ops + more)[1..] == ops[1..] + more;
      ExecSplits(Step(p, ops[0]), ops[1..], more);
    }
  }

  lemma OneMore(p: Pool, ops: seq<Op>, op: Op)
    requires WellFormed(p)
    ensures Exec(p, ops + [op]) == Step(Exec(p, ops), op)
  {
    ExecSplits(p, ops, [op]);
    StepWellFormed(Exec(p, ops), op);
    assert [op][1..] == [];
    assert Exec(Exec(p, ops), [op]) == Step(Exec(p, ops), op);
  }

  lemma {:induction false} FailuresAreStreak(n: nat, ops: seq<Op>, k: nat)
    requires k < n
    ensures Exec(Opened(n), ops).entries[k].consecutiveFailures == Streak(n, ops, k)
  {
    if ops == [] {
    } else {
      var before, last := ops[..|ops| - 1], ops[|ops| - 1];
      FailuresAreStreak(n, before, k);
      assert ops == before + [last];
      OneMore(Opened(n), before, last);
      if last.Pick? {
        PickIsNearest(Exec(Opened(n), before));
        ResetStartsAfresh(Exec(Opened(n), before));
      }
    }
  }

  /** In every run an entry is down exactly when its last three or more probes since the last reset all failed. */
  lemma DownIffThreeFailedInARow(n: nat, ops: seq<Op>, k: nat)
    requires k < n
    ensures !HealthyAt(Exec(Opened(n), ops), k) <==> Streak(n, ops, k) >= 3
  {
    FailuresAreStreak(n, ops, k);
    AlwaysFlagsAgree(Opened(n), ops);
    assert FlagAgrees(Exec(Opened(n), ops).entries[k]);
  }

  // ---------------------------------------------------------------------------------------
  // The pool object
  // ---------------------------------------------------------------------------------------

  /** The pool over the given number of endpoints; without any the source throws. */
  method OpenPool(urls: nat) returns (r: Result<ProviderPool, string>)
    ensures r.Ok? <==> urls > 0
    ensures r.Ok? ==> fresh(r.value) && r.value.Value() == Opened(urls)
  {
    if urls == 0 { return Err("ArcJsonRpcProviderPool requires at least one RPC URL"); }
    var pool := new ProviderPool(urls);
    r := Ok(pool);
  }

  class ProviderPool {
    var entries: seq<Entry>
    var cursor: nat

    ghost function Value(): Pool
      reads this
    {
      Pool(entries, cursor)
    }

    constructor (urls: nat)
      requires urls > 0
      ensures Value() == Opened(urls)
    {
      entries, cursor := seq(urls, _ => FRESH), 0;
    }

    method GetProvider() returns (index: nat)
      requires WellFormed(Value())
      modifies this
      ensures (index, Value()) == Get(old(Value()))
    {
      var count := |entries|;
      ghost var p := Value();
      for i := 0 to count
        invariant cursor == p.cursor && entries == p.entries
        invariant forall j :: 0 <= j < count && HealthyAt(p, j) ==> i <= Distance(p.cursor, j, count)
        invariant Search(p, 0) == Search(p, i)
      {
        AroundIsModulo(cursor, i, count);
        var idx := (cursor + i) % count;
        if entries[idx].healthy {
          AroundIsModulo(idx, 1, count);
          cursor := (idx + 1) % count;
          return idx;
        }
      }
      for i := 0 to count
        invariant cursor == p.cursor && |entries| == count
        invariant forall j :: 0 <= j < i ==> entries[j] == FRESH
      {
        entries := entries[i := FRESH];
      }
      assert entries == Renewed(p);
      AroundIsModulo(0, 1, count);
      cursor := 1 % count;
      index := 0;
    }

    method ProbeOne(k: nat, answered: bool)
      requires WellFormed(Value()) && k < |entries|
      modifies this
      ensures Value() == Step(old(Value()), Probe(k, answered))
    {
      var entry := entries[k];
      if answered {
        entries := entries[k := Entry(true, 0)];
      } else {
        var failures := entry.consecutiveFailures + 1;
        entries := entries[k := Entry(if failures >= MAX_FAILURES then false else entry.healthy, failures)];
      }
    }
  }
}
