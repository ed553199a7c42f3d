/** What becomes of nonces when the adapter stores a write after it has rejected it. */
module NonceLateWrites {
  import opened Text
  import opened NonceEngine

  // ---------------------------------------------------------------------------------------
  // Late writes
  // ---------------------------------------------------------------------------------------

  /** When caller i is about to read, the counter has not passed a nonce already issued on its key. */
  ghost predicate ReadsStale(s: System, i: nat) {
    i < |s.callers| && exists j :: 0 <= j < |s.callers| && IssuedAtLeast(s.callers[j], s.callers[i].key, Lookup(s.cache, s.callers[i].key))
  }

  ghost predicate IssuedAtLeast(c: Caller, key: string, v: nat) {
    c.key == key && c.pc.Returned? && c.pc.v >= v
  }

  /** The callers whose `adapter.get` was answered with a stale counter. */
  ghost function StaleReads(s: System, steps: seq<Step>): set<nat>
    requires Legal(s, steps)
    decreases |steps|
  {
    if |steps| == 0 then {}
    else
      var n := |steps| - 1;
      var before := Exec(s, steps[..n]);
      StaleReads(s, steps[..n]) + (if steps[n].GetAnswers? && ReadsStale(before, steps[n].i) then {steps[n].i} else {})
  }

  /** Some earlier call on the key of caller j returned at least what j carries. */
  ghost predicate Overtaken(cs: seq<Caller>, j: nat)
    requires j < |cs| && cs[j].pc.Holds()
  {
    exists i :: 0 <= i < j && IssuedAtLeast(cs[i], cs[j].key, cs[j].pc.v)
  }

  ghost predicate StaleAt(cs: seq<Caller>, stale: set<nat>, j: nat)
    requires j < |cs|
  {
    && (j in stale ==> !cs[j].pc.Waiting? && !cs[j].pc.Reading?)
    && (cs[j].pc.Holds() ==> (j in stale <==> Overtaken(cs, j)))
  }

  ghost predicate StaleExactly(cs: seq<Caller>, stale: set<nat>) {
    && (forall j | j in stale :: j < |cs|)
    && forall j | 0 <= j < |cs| :: StaleAt(cs, stale, j)
  }

  /** Caller i moves on: what it carries stays, and nothing becomes of it that an inner caller could overtake. */
  lemma MoveKeepsStale(cs: seq<Caller>, stale: set<nat>, i: nat, c: Caller)
    requires StaleExactly(cs, stale) && InTurn(cs) && i < |cs| && c.key == cs[i].key && !c.pc.Waiting? && !c.pc.Reading?
    requires !cs[i].pc.Released() || c.pc == cs[i].pc
    requires c.pc.Holds() ==> cs[i].pc.Holds() && c.pc.v == cs[i].pc.v
    ensures StaleExactly(cs[i := c], stale)
  {
    var ds := cs[i := c];
    forall j | 0 <= j < |ds| ensures StaleAt(ds, stale, j) {
      assert StaleAt(cs, stale, j);
      if ds[j].pc.Holds() {
        SameOvertaken(cs, i, c, j);
      }
    }
  }

  lemma SameOvertaken(cs: seq<Caller>, i: nat, c: Caller, j: nat)
    requires InTurn(cs) && i < |cs| && j < |cs| && c.key == cs[i].key
    requires !cs[i].pc.Released() || c.pc == cs[i].pc
    requires cs[j].pc.Holds() && (i == j ==> c.pc.Holds() && c.pc.v == cs[j].pc.v)
    ensures Overtaken(cs[i := c], j) <==> Overtaken(cs, j)
  {
    var ds := cs[i := c];
    forall m | 0 <= m < j ensures IssuedAtLeast(ds[m], ds[j].key, ds[j].pc.v) <==> IssuedAtLeast(cs[m], cs[j].key, cs[j].pc.v) {
      if m == i && cs[m].key == cs[j].key {
        assert cs[i].pc.Released();
      }
    }
  }

  lemma EnterKeepsStale(cs: seq<Caller>, stale: set<nat>, c: Caller)
    requires StaleExactly(cs, stale) && c.pc == Waiting
    ensures StaleExactly(cs + [c], stale)
  {
    var ds := cs + [c];
    forall j | 0 <= j < |ds| ensures StaleAt(ds, stale, j) {
      if j < |cs| {
        assert StaleAt(cs, stale, j);
        assert ds[j].pc.Holds() ==> forall m | 0 <= m < j :: ds[m] == cs[m];
        if ds[j].pc.Holds() {
          assert Overtaken(ds, j) <==> Overtaken(cs, j) by {
            forall m | 0 <= m < j ensures IssuedAtLeast(ds[m], ds[j].key, ds[j].pc.v) <==> IssuedAtLeast(cs[m], cs[j].key, cs[j].pc.v) { }
          }
        }
      }
    }
  }

  lemma OvertakenIffReadStale(s: System, i: nat)
    requires Ordered(s) && Enabled(s, GetAnswers(i))
    ensures Overtaken(Apply(s, GetAnswers(i)).callers, i) <==> ReadsStale(s, i)
  {
    var cs, ds := s.callers, Apply(s, GetAnswers(i)).callers;
    var v := Lookup(s.cache, cs[i].key);
    if ReadsStale(s, i) {
      var m :| 0 <= m < |cs| && IssuedAtLeast(cs[m], cs[i].key, v);
      assert m < i && IssuedAtLeast(ds[m], ds[i].key, ds[i].pc.v);
    }
    if Overtaken(ds, i) {
      var m :| 0 <= m < i && IssuedAtLeast(ds[m], ds[i].key, ds[i].pc.v);
      assert IssuedAtLeast(cs[m], cs[i].key, v);
    }
  }

  lemma ReadKeepsStale(s: System, stale: set<nat>, i: nat)
    requires Ordered(s) && StaleExactly(s.callers, stale) && Enabled(s, GetAnswers(i))
    ensures StaleExactly(Apply(s, GetAnswers(i)).callers, stale + (if ReadsStale(s, i) then {i} else {}))
  {
    var cs, ds := s.callers, Apply(s, GetAnswers(i)).callers;
    var after := stale + (if ReadsStale(s, i) then {i} else {});
    OvertakenIffReadStale(s, i);
    forall j | 0 <= j < |ds| ensures StaleAt(ds, after, j) {
      assert StaleAt(cs, stale, j);
      if j != i && cs[j].pc.Holds() {
        SameOvertaken(cs, i, ds[i], j);
      }
    }
  }

  lemma StepKeepsStale(s: System, stale: set<nat>, step: Step)
    requires Ordered(s) && StaleExactly(s.callers, stale) && Enabled(s, step) && !step.GetAnswers?
    ensures StaleExactly(Apply(s, step).callers, stale)
  {
    match step
    case Enter(_) => EnterKeepsStale(s.callers, stale, Apply(s, step).callers[|s.callers|]);
    case Lands(_) =>
    case Wake(i) => WakeKeepsStale(s, stale, i);
    case _ => SettledOrMoved(s, stale, step);
  }

  lemma WakeKeepsStale(s: System, stale: set<nat>, i: nat)
    requires Ordered(s) && StaleExactly(s.callers, stale) && Enabled(s, Wake(i))
    ensures StaleExactly(Apply(s, Wake(i)).callers, stale)
  {
    var cs, ds := s.callers, Apply(s, Wake(i)).callers;
    forall j | 0 <= j < |ds| ensures StaleAt(ds, stale, j) {
      assert StaleAt(cs, stale, j);
      if cs[j].pc.Holds() {
        SameOvertaken(cs, i, ds[i], j);
      }
    }
  }

  lemma SettledOrMoved(s: System, stale: set<nat>, step: Step)
    requires Ordered(s) && StaleExactly(s.callers, stale) && Enabled(s, step)
    requires !step.GetAnswers? && !step.Enter? && !step.Lands? && !step.Wake?
    ensures StaleExactly(Apply(s, step).callers, stale)
  {
    MoveKeepsStale(s.callers, stale, step.i, Apply(s, step).callers[step.i]);
  }

  lemma {:induction false} AlwaysStaleExactly(base: map<string, nat>, steps: seq<Step>)
    requires Legal(Initial(base), steps)
    ensures StaleExactly(Exec(Initial(base), steps).callers, StaleReads(Initial(base), steps))
    decreases |steps|
  {
    if |steps| == 0 {
    } else {
      var n := |steps| - 1;
      var s := Exec(Initial(base), steps[..n]);
      AlwaysStaleExactly(base, steps[..n]);
      AlwaysOrdered(base, steps[..n]);
      if steps[n].GetAnswers? {
        ReadKeepsStale(s, StaleReads(Initial(base), steps[..n]), steps[n].i);
      } else {
        StepKeepsStale(s, StaleReads(Initial(base), steps[..n]), steps[n]);
        assert StaleReads(Initial(base), steps) == StaleReads(Initial(base), steps[..n]);
      }
    }
  }

  ghost predicate RisesAt(cs: seq<Caller>, key: string, j: nat)
    requires j < |cs|
  {
    cs[j].key == key && cs[j].pc.Returned? ==> !Overtaken(cs, j)
  }

  lemma {:induction false} NonceOf(cs: seq<Caller>, key: string, n: nat)
    ensures n in Nonces(cs, key) <==> exists i :: 0 <= i < |cs| && cs[i].key == key && cs[i].pc == Returned(n)
  {
    if |cs| == 0 {
    } else {
      NonceOf(cs[..|cs| - 1], key, n);
    }
  }

  lemma IncreasingSnoc(ns: seq<nat>, v: nat)
    ensures Increasing(ns + [v]) <==> Increasing(ns) && AllBelow(ns, v)
  {
    var ms := ns + [v];
    assert ms[|ns|] == v && forall m | 0 <= m < |ns| :: ms[m] == ns[m];
    if Increasing(ms) {
      forall m, n | 0 <= m < n < |ns| ensures ns[m] < ns[n] { assert ms[m] < ms[n]; }
      forall n | n in ns ensures n < v {
        var m :| 0 <= m < |ns| && ns[m] == n;
        assert ms[m] < ms[|ns|];
      }
    }
    if Increasing(ns) && AllBelow(ns, v) {
      forall m, n | 0 <= m < n < |ms| ensures ms[m] < ms[n] {
        assert ns[m] in ns;
      }
    }
  }

  ghost predicate Rising(cs: seq<Caller>, key: string) {
    forall j | 0 <= j < |cs| :: RisesAt(cs, key, j)
  }

  ghost predicate AllBelow(ns: seq<nat>, v: nat) {
    forall n | n in ns :: n < v
  }

  lemma RisesFront(cs: seq<Caller>, key: string)
    requires |cs| > 0
    ensures Rising(cs, key) <==> Rising(cs[..|cs| - 1], key) && RisesAt(cs, key, |cs| - 1)
  {
    var front := cs[..|cs| - 1];
    forall j | 0 <= j < |front| ensures RisesAt(front, key, j) <==> RisesAt(cs, key, j) {
      if cs[j].pc.Returned? {
        forall m | 0 <= m < j ensures IssuedAtLeast(front[m], front[j].key, front[j].pc.v) <==> IssuedAtLeast(cs[m], cs[j].key, cs[j].pc.v) { }
      }
    }
  }

  lemma {:induction false} IncreasingIffRising(cs: seq<Caller>, key: string)
    ensures Increasing(Nonces(cs, key)) <==> Rising(cs, key)
  {
    if |cs| == 0 {
    } else {
      var front, n := cs[..|cs| - 1], |cs| - 1;
      IncreasingIffRising(front, key);
      RisesFront(cs, key);
      if cs[n].key == key && cs[n].pc.Returned? {
        IncreasingSnoc(Nonces(front, key), cs[n].pc.v);
        LastRises(cs, key);
      } else {
        assert Nonces(cs, key) == Nonces(front, key);
      }
    }
  }

  lemma LastRises(cs: seq<Caller>, key: string)
    requires |cs| > 0 && cs[|cs| - 1].key == key && cs[|cs| - 1].pc.Returned?
    ensures RisesAt(cs, key, |cs| - 1) <==> AllBelow(Nonces(cs[..|cs| - 1], key), cs[|cs| - 1].pc.v)
  {
    var front, n := cs[..|cs| - 1], |cs| - 1;
    if RisesAt(cs, key, n) {
      forall v | v in Nonces(front, key) ensures v < cs[n].pc.v {
        NonceOf(front, key, v);
        var i :| 0 <= i < |front| && front[i].key == key && front[i].pc == Returned(v);
        assert !IssuedAtLeast(cs[i], cs[n].key, cs[n].pc.v);
      }
    } else {
      var i :| 0 <= i < n && IssuedAtLeast(cs[i], cs[n].key, cs[n].pc.v);
      assert front[i].pc == Returned(cs[i].pc.v);
      NonceOf(front, key, cs[i].pc.v);
    }
  }

  /** Whatever lands late, the nonces fulfilled on a key increase in arrival order if and only if no fulfilled call
      on it was answered by a counter that a nonce already issued had reached. */
  lemma IncreasingIffNoStaleRead(base: map<string, nat>, steps: seq<Step>, key: string)
    requires Legal(Initial(base), steps)
    ensures var cs := Exec(Initial(base), steps).callers;
      Increasing(Nonces(cs, key)) <==>
      forall j | j in StaleReads(Initial(base), steps) :: !(j < |cs| && cs[j].key == key && cs[j].pc.Returned?)
  {
    var cs, stale := Exec(Initial(base), steps).callers, StaleReads(Initial(base), steps);
    AlwaysStaleExactly(base, steps);
    IncreasingIffRising(cs, key);
    forall j | 0 <= j < |cs| ensures RisesAt(cs, key, j) <==> !(j in stale && cs[j].key == key && cs[j].pc.Returned?) {
      assert StaleAt(cs, stale, j);
    }
  }

  /** The nonce of this call has been written or returned. */
  predicate Issued(c: Caller) {
    c.pc.Wrote? || c.pc.Returned?
  }

  ghost predicate AheadAt(s: System, j: nat)
    requires j < |s.callers|
  {
    Issued(s.callers[j]) ==> s.callers[j].pc.v < Lookup(s.cache, s.callers[j].key)
  }

  /** Every counter is ahead of the nonces issued on its key. */
  ghost predicate Ahead(s: System) {
    forall j | 0 <= j < |s.callers| :: AheadAt(s, j)
  }

  lemma StoreKeepsAhead(s: System, step: Step)
    requires Ordered(s) && Ahead(s) && StaleExactly(s.callers, {}) && Enabled(s, step)
    requires step.SetAnswers? || step.SetRejects?
    ensures Ahead(Apply(s, step))
  {
    var t, i := Apply(s, step), step.i;
    assert StaleAt(s.callers, {}, i);
    forall j | 0 <= j < |t.callers| ensures AheadAt(t, j) {
      assert AheadAt(s, j);
      if j != i && s.callers[j].key == s.callers[i].key && (s.callers[j].pc.Wrote? || s.callers[j].pc.Returned?) {
        assert j < i && s.callers[j].pc.Returned?;
        assert !IssuedAtLeast(s.callers[j], s.callers[i].key, s.callers[i].pc.v);
      }
    }
  }

  /** The write is above every nonce written or issued on its key: what an adapter can test before it stores it. */
  ghost predicate Harmless(s: System, w: Write) {
    forall j | 0 <= j < |s.callers| && s.callers[j].key == w.key && Issued(s.callers[j]) :: s.callers[j].pc.v < w.value
  }

  /** Every late write that has landed was harmless when it did. */
  ghost predicate LandsHarmlessly(s: System, steps: seq<Step>)
    requires Legal(s, steps)
    decreases |steps|
  {
    |steps| > 0 ==>
      var n := |steps| - 1;
      && LandsHarmlessly(s, steps[..n])
      && (steps[n].Lands? ==> Harmless(Exec(s, steps[..n]), steps[n].w))
  }

  lemma LandingKeepsAheadIff(s: System, w: Write)
    requires Ahead(s) && w in s.late
    ensures Ahead(Apply(s, Lands(w))) <==> Harmless(s, w)
  {
    var t := Apply(s, Lands(w));
    forall j | 0 <= j < |s.callers|
      ensures AheadAt(t, j) <==> (s.callers[j].key == w.key && Issued(s.callers[j]) ==> s.callers[j].pc.v < w.value)
    {
      assert AheadAt(s, j);
    }
  }

  lemma StepKeepsAhead(s: System, step: Step)
    requires Ordered(s) && Ahead(s) && StaleExactly(s.callers, {}) && Enabled(s, step)
    requires step.Lands? ==> Harmless(s, step.w)
    ensures Ahead(Apply(s, step))
  {
    if step.SetAnswers? || step.SetRejects? {
      StoreKeepsAhead(s, step);
    } else if step.Lands? {
      LandingKeepsAheadIff(s, step.w);
    } else {
      var t := Apply(s, step);
      forall j | 0 <= j < |t.callers| ensures AheadAt(t, j) {
        if j < |s.callers| {
          assert AheadAt(s, j);
        }
      }
    }
  }

  /** As long as late writes land harmlessly, no read is stale and every counter is ahead of the nonces issued. */
  lemma {:induction false} HarmlessNeverStale(base: map<string, nat>, steps: seq<Step>)
    requires Legal(Initial(base), steps) && LandsHarmlessly(Initial(base), steps)
    ensures StaleReads(Initial(base), steps) == {} && Ahead(Exec(Initial(base), steps))
    decreases |steps|
  {
    if |steps| == 0 {
      assert Exec(Initial(base), steps) == Initial(base);
    } else {
      var n := |steps| - 1;
      var s := Exec(Initial(base), steps[..n]);
      HarmlessNeverStale(base, steps[..n]);
      AlwaysOrdered(base, steps[..n]);
      AlwaysStaleExactly(base, steps[..n]);
      StepKeepsAhead(s, steps[n]);
      AheadReadsFresh(s);
    }
  }

  /** So no nonce is issued twice. */
  lemma HarmlessIsIncreasing(base: map<string, nat>, steps: seq<Step>, key: string)
    requires Legal(Initial(base), steps) && LandsHarmlessly(Initial(base), steps)
    ensures Increasing(Nonces(Exec(Initial(base), steps).callers, key))
  {
    HarmlessNeverStale(base, steps);
    IncreasingIffNoStaleRead(base, steps, key);
  }

  lemma AheadReadsFresh(s: System)
    requires Ahead(s)
    ensures forall i :: !ReadsStale(s, i)
  {
    forall j, key | 0 <= j < |s.callers| ensures !IssuedAtLeast(s.callers[j], key, Lookup(s.cache, key)) {
      assert AheadAt(s, j);
    }
  }

  // ---------------------------------------------------------------------------------------
  // A call that is alone on its key
  // ---------------------------------------------------------------------------------------

  /** Caller i, the only one on its key, from arrival to release. */
  function WholeCall(key: string, i: nat, answer: Step): seq<Step> {
    [Enter(key), Wake(i), GetAnswers(i), CallSet(i), answer, Finish(i)]
  }

  lemma AnswerAlone(s: System, key: string, v: nat, answer: Step)
    requires var i := |s.callers|; (answer.SetAnswers? || answer.SetRejects?) && answer.i == i
    requires key !in s.locks
    ensures var i := |s.callers|; var c := Caller(key, None, Writing(v), false);
      var t := System(s.callers + [c], s.locks[key := i], s.cache, s.late);
      && Enabled(t, answer) && Enabled(Apply(t, answer), Finish(i))
      && Apply(Apply(t, answer), Finish(i)) == System(
           s.callers + [c.(pc := if answer.SetAnswers? then Returned(v) else Threw(answer.stored))], s.locks,
           if answer.SetAnswers? || answer.stored then s.cache[key := v + 1] else s.cache,
           if answer.SetAnswers? then s.late else s.late + {Write(key, v + 1)})
  {
    var i := |s.callers|;
    var t := System(s.callers + [Caller(key, None, Writing(v), false)], s.locks[key := i], s.cache, s.late);
    var u := Apply(Apply(t, answer), Finish(i));
    assert u.locks == s.locks;
    assert u.callers[..i] == s.callers;
  }

  lemma CallBegins(s: System, key: string)
    requires key !in s.locks
    ensures var i, v := |s.callers|, Lookup(s.cache, key);
      var begin := [Enter(key), Wake(i), GetAnswers(i), CallSet(i)];
      Legal(s, begin) && Exec(s, begin) == System(s.callers + [Caller(key, None, Writing(v), false)], s.locks[key := i], s.cache, s.late)
  {
    var i := |s.callers|;
    var a := [Enter(key)];
    ExecOne(s, Enter(key));
    ExecLast(s, a, Wake(i));
    ExecLast(s, a + [Wake(i)], GetAnswers(i));
    ExecLast(s, a + [Wake(i)] + [GetAnswers(i)], CallSet(i));
    assert a + [Wake(i)] + [GetAnswers(i)] + [CallSet(i)] == [Enter(key), Wake(i), GetAnswers(i), CallSet(i)];
  }

  lemma CallAlone(s: System, key: string, answer: Step)
    requires var i := |s.callers|; (answer.SetAnswers? || answer.SetRejects?) && answer.i == i
    requires key !in s.locks
    ensures var i, v := |s.callers|, Lookup(s.cache, key);
      && Legal(s, WholeCall(key, i, answer))
      && Exec(s, WholeCall(key, i, answer)) == System(
           s.callers + [Caller(key, None, if answer.SetAnswers? then Returned(v) else Threw(answer.stored), false)], s.locks,
           if answer.SetAnswers? || answer.stored then s.cache[key := v + 1] else s.cache,
           if answer.SetAnswers? then s.late else s.late + {Write(key, v + 1)})
  {
    var i := |s.callers|;
    var begin := [Enter(key), Wake(i), GetAnswers(i), CallSet(i)];
    CallBegins(s, key);
    AnswerAlone(s, key, Lookup(s.cache, key), answer);
    ExecLast(s, begin, answer);
    ExecLast(s, begin + [answer], Finish(i));
    assert begin + [answer] + [Finish(i)] == WholeCall(key, i, answer);
  }

  lemma NoncesSnoc(cs: seq<Caller>, c: Caller, key: string)
    ensures Nonces(cs + [c], key) == Nonces(cs, key) + (if c.key == key && c.pc.Returned? then [c.pc.v] else [])
  {
    assert (cs + [c])[..|cs + [c]| - 1] == cs;
  }

  // ---------------------------------------------------------------------------------------
  // Which landings do harm
  // ---------------------------------------------------------------------------------------

  /** A step that no counter notices. */
  predicate Quiet(step: Step) {
    !step.Enter? && !step.Lands? && !step.SetAnswers? && (step.SetRejects? ==> !step.stored)
  }

  ghost predicate AllQuiet(steps: seq<Step>) {
    forall k | 0 <= k < |steps| :: Quiet(steps[k])
  }

  /** Follows the chain of awaited promises back from `i` to a quiet step. */
  lemma {:induction false} QuietAdvances(s: System, i: nat) returns (step: Step)
    requires Ordered(s) && i < |s.callers|
    requires !s.callers[i].pc.Released() || !s.callers[i].settled
    ensures Enabled(s, step) && Quiet(step)
    decreases i
  {
    assert ChainedAt(s.callers, i);
    var c := s.callers[i];
    match c.pc
    case Reading => step := GetRejects(i);
    case Got(_) => step := CallSet(i);
    case Writing(_) => step := SetRejects(i, false);
    case Wrote(_) => step := Finish(i);
    case Broken(_) => step := Finish(i);
    case _ =>
      if PreviousSettled(s, i) {
        step := if c.pc.Waiting? then Wake(i) else Settle(i);
      } else {
        step := QuietAdvances(s, c.previous.value);
      }
  }

  /** The counters stay, and so does every nonce written or issued. */
  ghost predicate Undisturbed(s: System, t: System) {
    && t.cache == s.cache && |t.callers| == |s.callers|
    && forall j | 0 <= j < |s.callers| && Issued(s.callers[j]) :: StillIssued(s, t, j)
  }

  ghost predicate StillIssued(s: System, t: System, j: nat)
    requires j < |s.callers| == |t.callers| && Issued(s.callers[j])
  {
    t.callers[j].key == s.callers[j].key && Issued(t.callers[j]) && t.callers[j].pc.v == s.callers[j].pc.v
  }

  lemma QuietStepDisturbsNothing(s: System, step: Step)
    requires Enabled(s, step) && Quiet(step)
    ensures Undisturbed(s, Apply(s, step))
  {
  }

  lemma UndisturbedTwice(s: System, t: System, u: System)
    requires Undisturbed(s, t) && Undisturbed(t, u)
    ensures Undisturbed(s, u)
  {
    forall j | 0 <= j < |s.callers| && Issued(s.callers[j]) ensures StillIssued(s, u, j) {
      assert StillIssued(s, t, j) && StillIssued(t, u, j);
    }
  }

  /** Every pending call can be brought to its end without any counter noticing. */
  lemma {:induction false} DrainsQuietly(s: System) returns (more: seq<Step>, t: System)
    requires Ordered(s)
    ensures AllQuiet(more) && Reaches(s, more, t)
    ensures Quiescent(t) && Ordered(t) && Undisturbed(s, t)
    decreases Work(s.callers)
  {
    more, t := [], s;
    if i :| 0 <= i < |s.callers| && (!s.callers[i].pc.Released() || !s.callers[i].settled) {
      var step := QuietAdvances(s, i);
      StepWorks(s, step);
      StepKeepsOrder(s, step);
      QuietStepDisturbsNothing(s, step);
      var u, rest := Apply(s, step), [];
      rest, t := DrainsQuietly(u);
      ExecOne(s, step);
      ReachesAppend(s, [step], u, rest, t);
      UndisturbedTwice(s, u, t);
      more := [step] + rest;
    }
  }

  /** Caller j holds a nonce that the counter of its key has not passed. */
  ghost predicate BehindAt(s: System, key: string, j: nat) {
    j < |s.callers| && s.callers[j].key == key && !AheadAt(s, j)
  }

  /** When nobody is on the key, the next call repeats a nonce or goes back. */
  lemma NextCallGoesBack(s: System, key: string, j: nat)
    requires Quiescent(s) && Ordered(s) && BehindAt(s, key, j)
    ensures key !in s.locks
    ensures var call := WholeCall(key, |s.callers|, SetAnswers(|s.callers|));
      Legal(s, call) && !Increasing(Nonces(Exec(s, call).callers, key))
  {
    var n := |s.callers|;
    CallAlone(s, key, SetAnswers(n));
    var cs := Exec(s, WholeCall(key, n, SetAnswers(n))).callers;
    IncreasingIffRising(cs, key);
    assert cs[n].pc == Returned(Lookup(s.cache, key)) && IssuedAtLeast(cs[j], cs[n].key, cs[n].pc.v);
    assert Overtaken(cs, n) && !RisesAt(cs, key, n);
  }

  /** From every state whose counter on the key is not ahead of a nonce written or issued on it, a continuation
      without any further landing makes the nonces on the key go back or repeat. */
  lemma BehindGoesBack(s: System, key: string, j: nat) returns (more: seq<Step>)
    requires Ordered(s) && BehindAt(s, key, j)
    ensures Legal(s, more) && Prompt(more) && !Increasing(Nonces(Exec(s, more).callers, key))
  {
    var drain, t := DrainsQuietly(s);
    assert StillIssued(s, t, j);
    NextCallGoesBack(t, key, j);
    var call := WholeCall(key, |t.callers|, SetAnswers(|t.callers|));
    ExecAppend(s, drain, call);
    more := drain + call;
    QuietThenCallIsPrompt(drain, key, |t.callers|);
  }

  lemma QuietThenCallIsPrompt(drain: seq<Step>, key: string, i: nat)
    requires AllQuiet(drain)
    ensures Prompt(drain + WholeCall(key, i, SetAnswers(i)))
  {
    var more := drain + WholeCall(key, i, SetAnswers(i));
    forall k | 0 <= k < |more| ensures !more[k].Lands? {
      assert k < |drain| ==> Quiet(drain[k]);
    }
  }

  /** After the landing, some continuation without any further landing makes the nonces on the key go back or repeat. */
  ghost predicate CanGoBack(base: map<string, nat>, steps: seq<Step>, key: string, more: seq<Step>) {
    Prompt(more) && Legal(Initial(base), steps + more) && !Increasing(Nonces(Exec(Initial(base), steps + more).callers, key))
  }

  lemma {:induction false} StaysHarmless(s: System, steps: seq<Step>, more: seq<Step>)
    requires Legal(s, steps + more) && Legal(s, steps) && LandsHarmlessly(s, steps) && Prompt(more)
    ensures LandsHarmlessly(s, steps + more)
    decreases |more|
  {
    if |more| == 0 {
      assert steps + more == steps;
    } else {
      var n := |more| - 1;
      assert (steps + more)[..|steps + more| - 1] == steps + more[..n];
      StaysHarmless(s, steps, more[..n]);
      assert (steps + more)[|steps| + n] == more[n];
    }
  }

  /** In every run whose landings so far were harmless, one more landing makes it possible that nonces on its key go
      back or repeat, without any further landing, if and only if its value is at or below a nonce written or
      issued on the key. */
  lemma LandingHarmsIff(base: map<string, nat>, steps: seq<Step>, w: Write)
    requires Legal(Initial(base), steps) && LandsHarmlessly(Initial(base), steps) && w in Exec(Initial(base), steps).late
    ensures (exists more :: CanGoBack(base, steps + [Lands(w)], w.key, more)) <==> !Harmless(Exec(Initial(base), steps), w)
  {
    var s, landed := Exec(Initial(base), steps), steps + [Lands(w)];
    ExecLast(Initial(base), steps, Lands(w));
    if Harmless(s, w) {
      assert landed[..|landed| - 1] == steps;
      forall more ensures !CanGoBack(base, landed, w.key, more) {
        if Prompt(more) && Legal(Initial(base), landed + more) {
          StaysHarmless(Initial(base), landed, more);
          HarmlessIsIncreasing(base, landed + more, w.key);
        }
      }
    } else {
      var j :| 0 <= j < |s.callers| && s.callers[j].key == w.key && Issued(s.callers[j]) && s.callers[j].pc.v >= w.value;
      AlwaysOrdered(base, landed);
      assert BehindAt(Exec(Initial(base), landed), w.key, j);
      var more := BehindGoesBack(Exec(Initial(base), landed), w.key, j);
      ExecAppend(Initial(base), landed, more);
      assert CanGoBack(base, landed, w.key, more);
    }
  }

  // ---------------------------------------------------------------------------------------
  // Runs that lose and repeat nonces
  // ---------------------------------------------------------------------------------------

  /** After the steps nobody is on `key`, its counter is v, the write w may still land, and the nonces issued are `ns`. */
  ghost predicate Stands(steps: seq<Step>, key: string, v: nat, late: set<Write>, ns: seq<nat>) {
    && Legal(Initial(map[]), steps)
    && var s := Exec(Initial(map[]), steps);
       key !in s.locks && Lookup(s.cache, key) == v && s.late == late && Nonces(s.callers, key) == ns
  }

  /** One more call, alone. */
  lemma ThenCall(steps: seq<Step>, key: string, v: nat, late: set<Write>, ns: seq<nat>) returns (more: seq<Step>)
    requires Stands(steps, key, v, late, ns)
    ensures Stands(more, key, v + 1, late, ns + [v]) && (Prompt(steps) ==> Prompt(more))
  {
    var s := Exec(Initial(map[]), steps);
    var call := WholeCall(key, |s.callers|, SetAnswers(|s.callers|));
    CallAlone(s, key, SetAnswers(|s.callers|));
    ExecAppend(Initial(map[]), steps, call);
    more := steps + call;
    NoncesSnoc(s.callers, Caller(key, None, Returned(v), false), key);
  }

  lemma ThenLands(steps: seq<Step>, key: string, v: nat, late: set<Write>, ns: seq<nat>, value: nat) returns (more: seq<Step>)
    requires Stands(steps, key, v, late, ns) && Write(key, value) in late
    ensures Stands(more, key, value, late, ns)
  {
    ExecLast(Initial(map[]), steps, Lands(Write(key, value)));
    more := steps + [Lands(Write(key, value))];
  }

  /** The first call on `key`, rejected. */
  lemma FirstRejected(key: string, stored: bool) returns (steps: seq<Step>)
    ensures Prompt(steps)
    ensures Stands(steps, key, if stored then 1 else 0, {Write(key, 1)}, [])
  {
    steps := WholeCall(key, 0, SetRejects(0, stored));
    CallAlone(Initial(map[]), key, SetRejects(0, stored));
    NoncesSnoc([], Caller(key, None, Threw(stored), false), key);
  }

  /** A write that the adapter stores and then rejects loses its nonce. */
  lemma StoredRejectionLosesNonce(key: string) returns (steps: seq<Step>)
    ensures Legal(Initial(map[]), steps) && Prompt(steps)
    ensures Nonces(Exec(Initial(map[]), steps).callers, key) == [1]
  {
    var a := FirstRejected(key, true);
    steps := ThenCall(a, key, 1, {Write(key, 1)}, []);
  }

  /** A write that lands after its rejection, when two later calls have been fulfilled, makes a third repeat a nonce. */
  lemma LateWriteRepeatsNonce(key: string) returns (steps: seq<Step>)
    ensures Legal(Initial(map[]), steps)
    ensures Nonces(Exec(Initial(map[]), steps).callers, key) == [0, 1, 1]
  {
    var late := {Write(key, 1)};
    var a := FirstRejected(key, false);
    var b := ThenCall(a, key, 0, late, []);
    var c := ThenCall(b, key, 1, late, [0]);
    var d := ThenLands(c, key, 2, late, [0, 1], 1);
    steps := ThenCall(d, key, 1, late, [0, 1]);
  }
}
