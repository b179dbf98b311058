/** Where the round-robin and shortest-time-to-completion schedulers as coded keep the invariant: both
    put a blocked current process back on the ready queue, and the second can return a process that is
    blocked or finished when everything ready needs MAX_TC ticks or more. */
module SchedPreemptive {
  import opened Common
  import opened SchedModel
  import opened SchedInvariant
  import opened SchedStep

  predicate Preemptive(policy: Policy) { policy in {Stcf, Rr} }

  /** What dispatching owes the rest of the iteration. */
  ghost predicate Dispatched(d: Sched) {
    && Core(d) && Wakes(d, d.current)
    && (d.current.Some? ==> P(d, d.current.value).status == Running && Alive(P(d, d.current.value)))
    && (d.current.None? ==> d.ready == [])
  }

  /** When the schedulers as coded pay it. `f` is the state after forking. */
  predicate Fits(policy: Policy, f: Sched) {
    f.ready == [] || (Runnable(f) && CurrentAlive(f)) ||
    (!(f.current.Some? && P(f, f.current.value).status == Blocked)
     && (policy == Stcf ==> exists i :: i in f.ready && Remaining(P(f, i)) < MAX_TC))
  }

  /** A fitting choice is one of those the blocking-aware policies make. */
  lemma PreemptiveChoice(policy: Policy, f: Sched) returns (k: nat)
    requires Preemptive(policy) && Core(f) && Fits(policy, f)
    ensures var c := Schedule(policy, f);
      Chose(f, c, k) && c.s == f.(ready := c.s.ready)
  {
    k := 0;
    if f.current.Some? {
      assert Placed(f, f.current.value) && Sane(P(f, f.current.value));
    }
    if policy == Stcf && f.ready != [] {
      var bound := if Runnable(f) && CurrentAlive(f) then Remaining(P(f, f.current.value)) else MAX_TC;
      var pick := Shortest(f, f.ready, bound);
      if pick.None? {
        assert Runnable(f) && CurrentAlive(f) by {
          if i :| i in f.ready && Remaining(P(f, i)) < MAX_TC {
            var j :| 0 <= j < |f.ready| && f.ready[j] == i;
          }
        }
      } else {
        k := pick.value;
      }
    }
    if Runnable(f) && CurrentAlive(f) && f.ready != [] {
      assert f.ready[k] in f.ready && f.current.value !in f.ready;
    }
  }

  lemma ShortExists(f: Sched)
    ensures Shortest(f, f.ready, MAX_TC).Some? ==> exists i :: i in f.ready && Remaining(P(f, i)) < MAX_TC
  {
    var pick := Shortest(f, f.ready, MAX_TC);
    if pick.Some? {
      assert f.ready[pick.value] in f.ready;
    }
  }

  /** A blocked process ends up in a wait queue and on the ready queue, or in a wait queue and running. */
  lemma BlockedRequeued(policy: Policy, f: Sched, d: Sched)
    requires Preemptive(policy) && Core(f) && f.ready != []
    requires f.current.Some? && P(f, f.current.value).status == Blocked
    requires var c := Schedule(policy, f);
      var r := Retire(c.s, f.current).(current := c.next);
      d == if c.next.None? then r else SetStatus(r, c.next.value, Running)
    ensures var i := f.current.value; var w := WaitsFor(P(f, i));
      && w.Some? && i in d.res[w.value].waitq && (i in d.ready || P(d, i).status == Running)
      && !Dispatched(d)
  {
    var i := f.current.value;
    assert Placed(f, i) && Sane(P(f, i));
    var c := Schedule(policy, f);
    assert i !in f.ready;
    var pick := if policy == Rr then Some(0) else Shortest(f, f.ready, MAX_TC);
    if pick.Some? {
      var k := pick.value;
      var q := f.ready + [i];
      assert c.s.ready == Without(q, k) && c.next == Some(f.ready[k]) && f.ready[k] in f.ready;
      assert Without(q, k)[|q| - 2] == i;
      assert d.ready == c.s.ready && i in d.ready && P(d, i).status == Blocked;
    } else {
      assert c == Keep(f);
    }
  }

  /** A choice that does not fit leaves a blocked process running or ready, runs a finished one, or idles
      with processes ready. */
  lemma Misplaced(policy: Policy, f: Sched)
    requires Preemptive(policy) && Core(f) && !Fits(policy, f)
    ensures var c := Schedule(policy, f);
      var r := Retire(c.s, f.current).(current := c.next);
      !Dispatched(if c.next.None? then r else SetStatus(r, c.next.value, Running))
  {
    var c := Schedule(policy, f);
    var r := Retire(c.s, f.current).(current := c.next);
    var d := if c.next.None? then r else SetStatus(r, c.next.value, Running);
    if f.current.Some? {
      assert Placed(f, f.current.value) && Sane(P(f, f.current.value));
    }
    if f.current.Some? && P(f, f.current.value).status == Blocked {
      BlockedRequeued(policy, f, d);
    } else {
      ShortExists(f);
      assert c == Keep(f);
    }
  }

  lemma DispatchIff(policy: Policy, s: Sched)
    requires Preemptive(policy) && Inv(s)
    ensures Dispatched(Dispatch(policy, s)) <==> Fits(policy, ForkFrom(s, 0))
    ensures Fits(policy, ForkFrom(s, 0)) ==> |Dispatch(policy, s).procs| == |s.procs|
  {
    hide ForkFrom, Schedule;
    ForkKeeps(s, 0);
    var f := ForkFrom(s, 0);
    if Fits(policy, f) {
      var k := PreemptiveChoice(policy, f);
      DispatchCore(f, Schedule(policy, f), k);
    } else {
      Misplaced(policy, f);
    }
  }

  lemma DispatchedRuns(d: Sched)
    requires Dispatched(d)
    ensures d.current.Some? ==> RunsAs(d, d.current.value)
  {
  }

  /** A fitting iteration keeps the invariant under these policies too. */
  lemma FittingTickKeeps(policy: Policy, s: Sched)
    requires Preemptive(policy) && Inv(s) && Fits(policy, ForkFrom(s, 0))
    ensures Inv(Tick(policy, s)) && |Tick(policy, s).procs| == |s.procs|
  {
    hide RunCurrent, Dispatch, Core, Wakes;
    DispatchIff(policy, s);
    var d := Dispatch(policy, s);
    if !Halts(d) {
      if d.current.Some? {
        DispatchedRuns(d);
        RunKeeps(policy, d, d.current.value);
      }
      var ran := if d.current.None? then d else RunCurrent(policy, d, d.current.value);
      TicksDoNotMatter(ran, d.ticks + 1);
    }
  }

  // ---------------------------------------------------------------- both kinds of policy

  /** What the loop needs of the state after forking: nothing, or that the preemptive schedulers fit. */
  predicate Suits(policy: Policy, f: Sched) { BlockAware(policy) || Fits(policy, f) }

  lemma SuitingChoice(policy: Policy, f: Sched) returns (k: nat)
    requires Core(f) && Suits(policy, f)
    ensures Chose(f, Schedule(policy, f), k)
  {
    if BlockAware(policy) {
      ScheduleChoice(policy, f);
      k := if f.ready == [] then 0 else Pick(policy, f);
    } else {
      k := PreemptiveChoice(policy, f);
    }
  }

  lemma SuitingKeeps(policy: Policy, s: Sched)
    requires Inv(s) && Suits(policy, ForkFrom(s, 0))
    ensures Dispatched(Dispatch(policy, s)) && Inv(Tick(policy, s)) && |Tick(policy, s).procs| == |s.procs|
  {
    hide Dispatch, Tick, ForkFrom, Fits, Core, Wakes;
    if BlockAware(policy) {
      DispatchKeeps(policy, s);
      TickKeeps(policy, s);
    } else {
      DispatchIff(policy, s);
      FittingTickKeeps(policy, s);
    }
  }

  /** In every state the loop comes to, the scheduler suits. */
  ghost predicate SuitsAlong(policy: Policy, s: Sched) {
    BlockAware(policy) || forall n: nat :: Fits(policy, ForkFrom(Ticks(policy, s, n), 0))
  }

  lemma SuitsNext(policy: Policy, s: Sched)
    requires SuitsAlong(policy, s)
    ensures Suits(policy, ForkFrom(s, 0)) && SuitsAlong(policy, Tick(policy, s))
  {
    if !BlockAware(policy) {
      assert Ticks(policy, s, 0) == s;
      forall n: nat
        ensures Fits(policy, ForkFrom(Ticks(policy, Tick(policy, s), n), 0))
      {
        assert Ticks(policy, s, n + 1) == Ticks(policy, Tick(policy, s), n);
      }
    }
  }

  /** Every run in which the scheduler suits keeps the invariant. */
  lemma {:induction false} SuitingRunsKeep(policy: Policy, s: Sched, n: nat)
    requires Inv(s) && SuitsAlong(policy, s)
    ensures Inv(Ticks(policy, s, n)) && SuitsAlong(policy, Ticks(policy, s, n))
      && |Ticks(policy, s, n).procs| == |s.procs|
    decreases n
  {
    hide Tick, Fits, Inv, ForkFrom, SuitsAlong;
    if n > 0 {
      SuitsNext(policy, s);
      SuitingKeeps(policy, s);
      SuitingRunsKeep(policy, Tick(policy, s), n - 1);
    }
  }
}
