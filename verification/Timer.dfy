/** The drift-compensated timer, in integral milliseconds. */
module Timer {
  import opened Text

  // ---------------------------------------------------------------------------------------
  // The loop object
  // ---------------------------------------------------------------------------------------

  /** `pending` is the delay of the timeout set last, if one is outstanding. */
  datatype Handle = Idle | Pending(delay: nat)

  class JitterResistantTimerLoop {
    const intervalMs: int
    var handle: Handle
    var running: bool
    var expectedTickMs: int

    /** The source throws on an interval that is not positive. */
    constructor (interval: int)
      requires interval > 0
      ensures intervalMs == interval && !running && handle == Idle
    {
      intervalMs, handle, running, expectedTickMs := interval, Idle, false, 0;
    }

    /** `now` and `later` are the two clock readings that `start` makes. */
    method Start(now: int, later: int)
      requires intervalMs > 0
      modifies this
      ensures running
      ensures old(running) ==> handle == old(handle) && expectedTickMs == old(expectedTickMs)
      ensures !old(running) ==> expectedTickMs == now + intervalMs && handle == Pending(Delay(intervalMs, expectedTickMs, later))
    {
      if running { return; }
      running := true;
      expectedTickMs := now + intervalMs;
      ScheduleTick(later);
    }

    method Stop()
      modifies this
      ensures !running && handle == Idle && expectedTickMs == old(expectedTickMs)
    {
      running := false;
      handle := Idle;
    }

    method ScheduleTick(now: int)
      modifies this
      ensures running == old(running) && expectedTickMs == old(expectedTickMs)
      ensures handle == if running then Pending(Delay(intervalMs, expectedTickMs, now)) else old(handle)
    {
      if !running { return; }
      var drift := now - expectedTickMs;
      var adjustedDelay := Max(0, intervalMs - drift);
      handle := Pending(adjustedDelay);
    }

    /** The timeout's body up to the callback. */
    method BeginTick() returns (fires: bool)
      modifies this
      ensures fires == running == old(running)
      ensures expectedTickMs == old(expectedTickMs) + (if fires then intervalMs else 0)
      ensures handle == old(handle)
    {
      fires := running;
      if fires {
        expectedTickMs := expectedTickMs + intervalMs;
      }
    }
  }

  /** How long `scheduleTick` waits. */
  function Delay(interval: int, expected: int, now: int): (delay: nat)
    ensures now + delay == Max(now, expected + interval)
  {
    Max(0, interval - (now - expected))
  }

  // ---------------------------------------------------------------------------------------
  // Runs
  // ---------------------------------------------------------------------------------------

  /** Tick k: the clock when its timeout was set, and when it fired. */
  datatype Tick = Tick(setAt: int, firedAt: int)

  /** `expectedTickMs` while tick k is pending; ticks count from 0. */
  function Expected(start: int, interval: int, k: nat): int {
    if k == 0 then start + interval else Expected(start, interval, k - 1) + interval
  }

  /** The time tick k aims at. */
  function Target(start: int, interval: int, k: nat): int {
    Expected(start, interval, k) + interval
  }

  lemma {:induction false} TargetIs(start: int, interval: int, k: nat)
    ensures Target(start, interval, k) == start + (k + 2) * interval
  {
    if k == 0 {
    } else {
      TargetIs(start, interval, k - 1);
      assert (k + 2) * interval == (k + 1) * interval + interval;
    }
  }

  /** A run of the loop: timeouts never fire early, and the next one is set after the callback. */
  ghost predicate Runs(start: int, interval: int, ticks: seq<Tick>) {
    && interval > 0
    && (|ticks| > 0 ==> start <= ticks[0].setAt)
    && (forall k | 0 <= k < |ticks| :: ticks[k].firedAt >= ticks[k].setAt + Delay(interval, Expected(start, interval, k), ticks[k].setAt))
    && (forall k | 0 < k < |ticks| :: ticks[k].setAt >= ticks[k - 1].firedAt)
  }

  /** Timeouts from tick `first` on are at most `late` late, and the callbacks before them take at most `busy`. */
  ghost predicate Punctual(start: int, interval: int, ticks: seq<Tick>, first: nat, late: int, busy: int) {
    && (forall k | first <= k < |ticks| :: ticks[k].firedAt <= ticks[k].setAt + Delay(interval, Expected(start, interval, k), ticks[k].setAt) + late)
    && (forall k | first <= k < |ticks| && k > 0 :: ticks[k].setAt <= ticks[k - 1].firedAt + busy)
  }

  /** No tick fires before its target. The first target is two intervals after the start, not one: the delay of
      the first timeout compensates for a tick that is not due yet. */
  lemma NeverEarly(start: int, interval: int, ticks: seq<Tick>, k: nat)
    requires Runs(start, interval, ticks) && k < |ticks|
    ensures ticks[k].firedAt >= Target(start, interval, k) == start + (k + 2) * interval
  {
    TargetIs(start, interval, k);
  }

  /** A backlog B at tick m shrinks by the slack of every later cycle, down to the lateness of one timeout. */
  lemma {:induction false} BacklogShrinks(start: int, interval: int, ticks: seq<Tick>, m: nat, n: nat, late: int, busy: int, backlog: nat)
    requires Runs(start, interval, ticks) && m + n < |ticks|
    requires Punctual(start, interval, ticks, m + 1, late, busy) && late + busy <= interval
    requires ticks[m].firedAt <= Target(start, interval, m) + late + backlog
    ensures ticks[m + n].firedAt <= Target(start, interval, m + n) + late + Max(0, backlog - n * (interval - late - busy))
  {
    if n == 0 {
    } else {
      var k := m + n;
      BacklogShrinks(start, interval, ticks, m, n - 1, late, busy, backlog);
      var slack := interval - late - busy;
      assert (n - 1) * slack == n * slack - slack;
      assert ticks[k].setAt <= ticks[k - 1].firedAt + busy;
    }
  }

  lemma NoNegativeSlack(n: nat, slack: nat)
    ensures n * slack >= 0
  {
  }

  /** Drift never accumulates: if every timeout is at most `late` late and every callback takes at most `busy`, with
      late + busy within the interval, then every tick fires within `late` of its target, however many there are. */
  lemma NoAccumulatedDrift(start: int, interval: int, ticks: seq<Tick>, k: nat, late: int, busy: int)
    requires Runs(start, interval, ticks) && k < |ticks|
    requires Punctual(start, interval, ticks, 0, late, busy) && 0 <= late && 0 <= busy && late + busy <= interval
    requires ticks[0].setAt <= start + busy
    ensures Target(start, interval, k) <= ticks[k].firedAt <= Target(start, interval, k) + late
  {
    NeverEarly(start, interval, ticks, k);
    BacklogShrinks(start, interval, ticks, 0, k, late, busy, 0);
    NoNegativeSlack(k, interval - late - busy);
  }

  /** Tick k of an event loop in which timeout k fires lates[k] after its delay and its callback takes busies[k]. */
  ghost predicate Follows(start: int, interval: int, later: int, lates: seq<nat>, busies: seq<nat>, ticks: seq<Tick>, k: nat)
    requires |ticks| <= |lates| == |busies| && k < |ticks|
  {
    && ticks[k].setAt == (if k == 0 then later else ticks[k - 1].firedAt + busies[k - 1])
    && ticks[k].firedAt == ticks[k].setAt + Delay(interval, Expected(start, interval, k), ticks[k].setAt) + lates[k]
  }

  /** Driving the object through any number of ticks, whatever the environment, gives such a loop; so no tick fires
      before its target, and if the environment is punctual every tick fires within the lateness of one timeout. */
  method Drive(timer: JitterResistantTimerLoop, start: int, later: int, lates: seq<nat>, busies: seq<nat>) returns (ticks: seq<Tick>)
    requires timer.intervalMs > 0 && !timer.running
    requires |lates| == |busies|
    modifies timer
    ensures |ticks| == |lates|
    ensures forall k | 0 <= k < |ticks| :: Follows(start, timer.intervalMs, later, lates, busies, ticks, k)
    ensures start <= later ==> forall k | 0 <= k < |ticks| :: Target(start, timer.intervalMs, k) <= ticks[k].firedAt
    ensures forall late: nat, busy: nat, k: nat |
      start <= later <= start + busy && Environment(lates, busies, late, busy) && late + busy <= timer.intervalMs && k < |ticks| ::
      OnTime(start, timer.intervalMs, ticks, k, late)
  {
    timer.Start(start, later);
    var now := later;
    ticks := [];
    for k := 0 to |lates|
      invariant |ticks| == k && timer.running
      invariant timer.expectedTickMs == Expected(start, timer.intervalMs, k)
      invariant timer.handle == Pending(Delay(timer.intervalMs, timer.expectedTickMs, now))
      invariant now == if k == 0 then later else ticks[k - 1].firedAt + busies[k - 1]
      invariant forall j | 0 <= j < k :: Follows(start, timer.intervalMs, later, lates, busies, ticks, j)
    {
      var fired := now + timer.handle.delay + lates[k];
      ghost var before := ticks;
      ticks := ticks + [Tick(now, fired)];
      forall j | 0 <= j < k ensures Follows(start, timer.intervalMs, later, lates, busies, ticks, j) {
        assert Follows(start, timer.intervalMs, later, lates, busies, before, j);
      }
      assert Follows(start, timer.intervalMs, later, lates, busies, ticks, k);
      var _ := timer.BeginTick();
      now := fired + busies[k];
      timer.ScheduleTick(now);
    }
    FollowingOnTime(start, timer.intervalMs, later, lates, busies, ticks);
  }

  /** Every timeout is at most `late` late, and every callback takes at most `busy`. */
  ghost predicate Environment(lates: seq<nat>, busies: seq<nat>, late: nat, busy: nat)
    requires |lates| == |busies|
  {
    forall k | 0 <= k < |lates| :: lates[k] <= late && busies[k] <= busy
  }

  /** Tick k fires at its target or at most `late` after it. */
  ghost predicate OnTime(start: int, interval: int, ticks: seq<Tick>, k: nat, late: nat)
    requires k < |ticks|
  {
    Target(start, interval, k) <= ticks[k].firedAt <= Target(start, interval, k) + late
  }

  /** The two bounds, for every loop that the object can be driven through. */
  lemma FollowingOnTime(start: int, interval: int, later: int, lates: seq<nat>, busies: seq<nat>, ticks: seq<Tick>)
    requires interval > 0 && |ticks| == |lates| == |busies|
    requires forall k | 0 <= k < |ticks| :: Follows(start, interval, later, lates, busies, ticks, k)
    ensures start <= later ==> forall k | 0 <= k < |ticks| :: Target(start, interval, k) <= ticks[k].firedAt
    ensures forall late: nat, busy: nat, k: nat |
      start <= later <= start + busy && Environment(lates, busies, late, busy) && late + busy <= interval && k < |ticks| ::
      OnTime(start, interval, ticks, k, late)
  {
    if start <= later {
      FollowingRuns(start, interval, later, lates, busies, ticks);
      forall k | 0 <= k < |ticks| ensures Target(start, interval, k) <= ticks[k].firedAt {
        NeverEarly(start, interval, ticks, k);
      }
    }
    forall late: nat, busy: nat, k: nat |
      start <= later <= start + busy && Environment(lates, busies, late, busy) && late + busy <= interval && k < |ticks|
      ensures OnTime(start, interval, ticks, k, late)
    {
      FollowingIsPunctual(start, interval, later, lates, busies, ticks, late, busy);
      assert Follows(start, interval, later, lates, busies, ticks, 0);
      NoAccumulatedDrift(start, interval, ticks, k, late, busy);
    }
  }

  lemma FollowingRuns(start: int, interval: int, later: int, lates: seq<nat>, busies: seq<nat>, ticks: seq<Tick>)
    requires interval > 0 && start <= later && |ticks| == |lates| == |busies|
    requires forall k | 0 <= k < |ticks| :: Follows(start, interval, later, lates, busies, ticks, k)
    ensures Runs(start, interval, ticks)
  {
    if |ticks| > 0 {
      assert Follows(start, interval, later, lates, busies, ticks, 0);
    }
    forall k | 0 <= k < |ticks|
      ensures ticks[k].firedAt >= ticks[k].setAt + Delay(interval, Expected(start, interval, k), ticks[k].setAt)
    {
      assert Follows(start, interval, later, lates, busies, ticks, k);
    }
    forall k | 0 < k < |ticks| ensures ticks[k].setAt >= ticks[k - 1].firedAt {
      assert Follows(start, interval, later, lates, busies, ticks, k);
    }
  }

  lemma FollowingIsPunctual(start: int, interval: int, later: int, lates: seq<nat>, busies: seq<nat>, ticks: seq<Tick>, late: nat, busy: nat)
    requires |ticks| == |lates| == |busies|
    requires forall k | 0 <= k < |ticks| :: Follows(start, interval, later, lates, busies, ticks, k)
    requires forall k | 0 <= k < |ticks| :: lates[k] <= late && busies[k] <= busy
    ensures Punctual(start, interval, ticks, 0, late, busy)
  {
    forall k | 0 <= k < |ticks|
      ensures ticks[k].firedAt <= ticks[k].setAt + Delay(interval, Expected(start, interval, k), ticks[k].setAt) + late
      ensures k > 0 ==> ticks[k].setAt <= ticks[k - 1].firedAt + busy
    {
      assert Follows(start, interval, later, lates, busies, ticks, k);
    }
  }
}
