/** The expiry queue: binary-search insertion and draining from the front. */
module TerminationQueue {
  import opened Collections

  datatype Entry = Entry(paycardId: string, expiresAt: nat)

  ghost predicate Sorted(q: seq<Entry>) {
    forall i, j | 0 <= i < j < |q| :: q[i].expiresAt <= q[j].expiresAt
  }

  predicate Due(e: Entry, now: real) {
    e.expiresAt as real <= now
  }

  /** Linear insertion behind every entry that does not expire later: the simple form of `schedule`. */
  function InsertAfterTies(q: seq<Entry>, e: Entry): (r: seq<Entry>)
    ensures |r| == |q| + 1
  {
    if |q| == 0 then [e]
    else if q[0].expiresAt <= e.expiresAt then [q[0]] + InsertAfterTies(q[1..], e)
    else [e] + q
  }

  function Ids(q: seq<Entry>): (r: seq<string>)
    ensures |r| == |q| && forall i | 0 <= i < |q| :: r[i] == q[i].paycardId
  {
    seq(|q|, i requires 0 <= i < |q| => q[i].paycardId)
  }

  function DueEntries(q: seq<Entry>, now: real): seq<Entry> {
    Filter((e: Entry) => Due(e, now), q)
  }

  function LaterEntries(q: seq<Entry>, now: real): seq<Entry> {
    Filter((e: Entry) => !Due(e, now), q)
  }

  /** Splitting anywhere between the entries that expire no later and those that expire later gives linear insertion. */
  lemma {:induction false} InsertedAt(q: seq<Entry>, e: Entry, p: nat)
    requires p <= |q|
    requires forall i | 0 <= i < p :: q[i].expiresAt <= e.expiresAt
    requires forall i | p <= i < |q| :: q[i].expiresAt > e.expiresAt
    ensures q[..p] + [e] + q[p..] == InsertAfterTies(q, e)
  {
    if |q| > 0 && q[0].expiresAt <= e.expiresAt {
      InsertedAt(q[1..], e, p - 1);
      assert q[..p] == [q[0]] + q[1..][..p - 1];
      assert q[p..] == q[1..][p - 1..];
    }
  }

  lemma {:induction false} InsertMembers(q: seq<Entry>, e: Entry)
    ensures forall x :: x in InsertAfterTies(q, e) <==> x in q || x == e
  {
    if |q| > 0 && q[0].expiresAt <= e.expiresAt {
      InsertMembers(q[1..], e);
    }
  }

  lemma {:induction false} InsertKeepsSorted(q: seq<Entry>, e: Entry)
    requires Sorted(q)
    ensures Sorted(InsertAfterTies(q, e))
  {
    if |q| > 0 && q[0].expiresAt <= e.expiresAt {
      var r := InsertAfterTies(q[1..], e);
      InsertKeepsSorted(q[1..], e);
      InsertMembers(q[1..], e);
      forall i | 0 <= i < |r| ensures q[0].expiresAt <= r[i].expiresAt {
        assert r[i] in r;
        if r[i] != e {
          var j :| 0 <= j < |q| - 1 && q[1..][j] == r[i];
          assert q[j + 1] == r[i];
        }
      }
    }
  }

  // ---------------------------------------------------------------------------------------
  // The queue is the stable sort of what is pending
  // ---------------------------------------------------------------------------------------

  function At(q: seq<Entry>, t: nat): seq<Entry> {
    Filter((e: Entry) => e.expiresAt == t, q)
  }

  /** `q` is sorted, and lists the entries of each expiry time in the order in which `pending` does. */
  ghost predicate StablySorts(q: seq<Entry>, pending: seq<Entry>) {
    Sorted(q) && forall t :: At(q, t) == At(pending, t)
  }

  lemma AtCons(x: Entry, q: seq<Entry>, t: nat)
    ensures At([x] + q, t) == (if x.expiresAt == t then [x] else []) + At(q, t)
  {
    FilterAppend((e: Entry) => e.expiresAt == t, [x], q);
  }

  lemma AtNone(q: seq<Entry>, t: nat)
    requires forall i | 0 <= i < |q| :: q[i].expiresAt != t
    ensures At(q, t) == []
  {
    FilterNone((e: Entry) => e.expiresAt == t, q);
  }

  lemma InsertFirstAt(q: seq<Entry>, e: Entry, t: nat)
    requires Sorted(q) && |q| > 0 && q[0].expiresAt > e.expiresAt
    ensures At([e] + q, t) == At(q, t) + (if e.expiresAt == t then [e] else [])
  {
    AtCons(e, q, t);
    if e.expiresAt == t {
      AtNone(q, t);
    }
  }

  lemma {:induction false} InsertAt(q: seq<Entry>, e: Entry, t: nat)
    requires Sorted(q)
    ensures At(InsertAfterTies(q, e), t) == At(q, t) + (if e.expiresAt == t then [e] else [])
  {
    if |q| > 0 && q[0].expiresAt <= e.expiresAt {
      InsertAt(q[1..], e, t);
      AtCons(q[0], InsertAfterTies(q[1..], e), t);
      AtCons(q[0], q[1..], t);
      assert q == [q[0]] + q[1..];
    } else if |q| > 0 {
      InsertFirstAt(q, e, t);
    }
  }

  lemma {:induction false} FilterAll(p: Entry -> bool, q: seq<Entry>)
    requires forall i | 0 <= i < |q| :: p(q[i])
    ensures Filter(p, q) == q
  {
    if |q| == 0 {
    } else {
      FilterAll(p, q[..|q| - 1]);
    }
  }

  lemma {:induction false} FilterNone(p: Entry -> bool, q: seq<Entry>)
    requires forall i | 0 <= i < |q| :: !p(q[i])
    ensures Filter(p, q) == []
  {
    if |q| == 0 {
    } else {
      FilterNone(p, q[..|q| - 1]);
    }
  }

  lemma SortedSnoc(q: seq<Entry>, e: Entry)
    requires Sorted(q) && forall x | x in q :: x.expiresAt <= e.expiresAt
    ensures Sorted(q + [e])
  {
    forall i | 0 <= i < |q| ensures q[i].expiresAt <= e.expiresAt {
      assert q[i] in q;
    }
  }

  lemma {:induction false} FilterKeepsSorted(p: Entry -> bool, q: seq<Entry>)
    requires Sorted(q)
    ensures Sorted(Filter(p, q))
  {
    if |q| == 0 {
    } else {
      var front, last := q[..|q| - 1], q[|q| - 1];
      FilterKeepsSorted(p, front);
      FilterMembers(p, front);
      forall x | x in Filter(p, front) ensures x.expiresAt <= last.expiresAt {
        var k :| 0 <= k < |front| && front[k] == x;
        assert q[k] == x;
      }
      SortedSnoc(Filter(p, front), last);
    }
  }

  /** Scheduling into the sorted queue and appending to the unsorted list keep the two in agreement. */
  lemma ScheduleAgrees(q: seq<Entry>, pending: seq<Entry>, e: Entry)
    requires StablySorts(q, pending)
    ensures StablySorts(InsertAfterTies(q, e), pending + [e])
  {
    InsertKeepsSorted(q, e);
    forall t ensures At(InsertAfterTies(q, e), t) == At(pending + [e], t) {
      InsertAt(q, e, t);
      assert (pending + [e])[..|pending|] == pending;
    }
  }

  lemma FilterAgrees(q: seq<Entry>, pending: seq<Entry>, p: Entry -> bool)
    requires StablySorts(q, pending)
    ensures StablySorts(Filter(p, q), Filter(p, pending))
  {
    FilterKeepsSorted(p, q);
    forall t ensures At(Filter(p, q), t) == At(Filter(p, pending), t) {
      var at := (e: Entry) => e.expiresAt == t;
      FilterCommutes(at, p, q);
      FilterCommutes(at, p, pending);
      assert Filter(at, q) == At(q, t) && Filter(at, pending) == At(pending, t);
    }
  }

  lemma AtMember(q: seq<Entry>, x: Entry)
    ensures x in q <==> x in At(q, x.expiresAt)
  {
    FilterMembers((e: Entry) => e.expiresAt == x.expiresAt, q);
  }

  lemma AtLast(q: seq<Entry>, t: nat)
    requires |q| > 0
    ensures var n := |q| - 1; var at := At(q, t);
      if q[n].expiresAt == t then |at| > 0 && at[|at| - 1] == q[n] && at[..|at| - 1] == At(q[..n], t)
      else at == At(q[..n], t)
  {
  }

  /** The stable sort of a list is unique, so agreement pins the queue down completely. */
  lemma {:induction false} StableSortUnique(q: seq<Entry>, r: seq<Entry>)
    requires Sorted(q) && Sorted(r) && forall t :: At(q, t) == At(r, t)
    ensures q == r
    decreases |q|
  {
    if |q| == 0 {
      if |r| > 0 {
        AtMember(r, r[0]);
      }
    } else {
      var q', a := q[..|q| - 1], q[|q| - 1];
      AtMember(q, a);
      AtMember(r, a);
      var r', b := r[..|r| - 1], r[|r| - 1];
      AtMember(r, b);
      AtMember(q, b);
      assert a.expiresAt == b.expiresAt;
      AtLast(q, a.expiresAt);
      AtLast(r, a.expiresAt);
      forall t ensures At(q', t) == At(r', t) {
        assert At(q, t) == At(r, t);
        AtLast(q, t);
        AtLast(r, t);
      }
      StableSortUnique(q', r');
    }
  }

  // ---------------------------------------------------------------------------------------
  // Whole runs
  // ---------------------------------------------------------------------------------------

  datatype Op = Schedule(e: Entry) | Check(now: real)

  /** The queue after some operations, beside a plain list of what is pending in the order of scheduling. */
  datatype History = History(queue: seq<Entry>, pending: seq<Entry>, scheduled: multiset<Entry>, reported: seq<Entry>)

  function Run(ops: seq<Op>): History {
    if |ops| == 0 then History([], [], multiset{}, [])
    else
      var h := Run(ops[..|ops| - 1]);
      match ops[|ops| - 1]
      case Schedule(e) => History(InsertAfterTies(h.queue, e), h.pending + [e], h.scheduled + multiset{e}, h.reported)
      case Check(now) =>
        History(LaterEntries(h.queue, now), LaterEntries(h.pending, now), h.scheduled, h.reported + DueEntries(h.queue, now))
  }

  lemma {:induction false} InsertMultiset(q: seq<Entry>, e: Entry)
    ensures multiset(InsertAfterTies(q, e)) == multiset(q) + multiset{e}
  {
    if |q| == 0 {
    } else {
      assert q == [q[0]] + q[1..];
      if q[0].expiresAt <= e.expiresAt {
        InsertMultiset(q[1..], e);
      }
    }
  }

  lemma {:induction false} SplitMultiset(q: seq<Entry>, now: real)
    ensures multiset(q) == multiset(DueEntries(q, now)) + multiset(LaterEntries(q, now))
  {
    if |q| == 0 {
    } else {
      var n := |q| - 1;
      assert q == q[..n] + [q[n]];
      SplitMultiset(q[..n], now);
    }
  }

  /** After any operations the queue is the stable sort of the pending list, a check reports the stable sort of
      the due part, and every scheduled entry is either still queued or reported, exactly once. */
  lemma {:induction false} QueueHistory(ops: seq<Op>, now: real)
    ensures var h := Run(ops);
      && StablySorts(h.queue, h.pending)
      && StablySorts(DueEntries(h.queue, now), DueEntries(h.pending, now))
      && h.scheduled == multiset(h.queue) + multiset(h.reported)
  {
    var h := Run(ops);
    if |ops| == 0 {
    } else {
      var front, op := ops[..|ops| - 1], ops[|ops| - 1];
      QueueHistory(front, now);
      var g := Run(front);
      match op
      case Schedule(e) =>
        ScheduleAgrees(g.queue, g.pending, e);
        InsertMultiset(g.queue, e);
      case Check(t) =>
        FilterAgrees(g.queue, g.pending, (e: Entry) => !Due(e, t));
        SplitMultiset(g.queue, t);
    }
    FilterAgrees(h.queue, h.pending, (e: Entry) => Due(e, now));
  }

  // ---------------------------------------------------------------------------------------
  // The queue object
  // ---------------------------------------------------------------------------------------

  lemma SplitWhereDueEnds(taken: seq<Entry>, rest: seq<Entry>, now: real)
    requires forall i | 0 <= i < |taken| :: Due(taken[i], now)
    requires Sorted(rest) && (|rest| > 0 ==> !Due(rest[0], now))
    ensures DueEntries(taken + rest, now) == taken && LaterEntries(taken + rest, now) == rest
  {
    var due, later := (e: Entry) => Due(e, now), (e: Entry) => !Due(e, now);
    FilterAppend(due, taken, rest);
    FilterAppend(later, taken, rest);
    FilterAll(due, taken);
    FilterNone(due, rest);
    FilterNone(later, taken);
    FilterAll(later, rest);
  }

  /** The due entries `taken` have been shifted off the front of the sorted queue `was`, leaving `rest`. */
  ghost predicate Drained(was: seq<Entry>, taken: seq<Entry>, rest: seq<Entry>, now: real) {
    was == taken + rest && Sorted(rest) && forall i | 0 <= i < |taken| :: Due(taken[i], now)
  }

  lemma DrainedNext(was: seq<Entry>, taken: seq<Entry>, rest: seq<Entry>, now: real)
    requires Drained(was, taken, rest, now) && |rest| > 0 && Due(rest[0], now)
    ensures Drained(was, taken + [rest[0]], rest[1..], now)
    ensures Ids(taken + [rest[0]]) == Ids(taken) + [rest[0].paycardId]
  {
    assert taken + [rest[0]] + rest[1..] == taken + rest;
  }

  class StreamTerminationQueue {
    var queue: seq<Entry>

    ghost predicate Valid()
      reads this
    {
      Sorted(queue)
    }

    constructor ()
      ensures Valid() && queue == []
    {
      queue := [];
    }

    /** Binary search for the insertion point, then splice. */
    method Schedule(paycardId: string, expiresAt: nat)
      requires Valid()
      modifies this
      ensures Valid() && queue == InsertAfterTies(old(queue), Entry(paycardId, expiresAt))
    {
      var lo, hi := 0, |queue|;
      while lo < hi
        invariant 0 <= lo <= hi <= |queue|
        invariant forall i | 0 <= i < lo :: queue[i].expiresAt <= expiresAt
        invariant forall i | hi <= i < |queue| :: queue[i].expiresAt > expiresAt
      {
        var mid := (lo + hi) / 2;
        if queue[mid].expiresAt <= expiresAt {
          lo := mid + 1;
        } else {
          hi := mid;
        }
      }
      InsertedAt(queue, Entry(paycardId, expiresAt), lo);
      InsertKeepsSorted(queue, Entry(paycardId, expiresAt));
      queue := queue[..lo] + [Entry(paycardId, expiresAt)] + queue[lo..];
    }

    /** Shifts entries off the front while they are due. */
    method CheckExpired(now: real) returns (expired: seq<string>)
      requires Valid()
      modifies this
      ensures Valid()
      ensures expired == Ids(DueEntries(old(queue), now))
      ensures queue == LaterEntries(old(queue), now)
    {
      expired := [];
      ghost var taken: seq<Entry> := [];
      while |queue| > 0 && Due(queue[0], now)
        invariant Drained(old(queue), taken, queue, now) && expired == Ids(taken)
        decreases |queue|
      {
        DrainedNext(old(queue), taken, queue, now);
        taken := taken + [queue[0]];
        expired := expired + [queue[0].paycardId];
        queue := queue[1..];
      }
      SplitWhereDueEnds(taken, queue, now);
      assert old(queue) == taken + queue;
    }

    method PendingCount() returns (n: nat)
      ensures n == |queue|
    {
      n := |queue|;
    }
  }
}
