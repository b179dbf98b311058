/** What dispatching chooses, policy by policy, in every state of the invariant and whatever is claimed:
    who is forked, whether the current process goes on, who runs next, and where the others stand. */
module SchedDispatch {
  import opened Common
  import opened SchedModel
  import opened SchedInvariant
  import opened SchedStep
  import opened SchedPreemptive
  import opened SchedRuns
  import opened SchedAging
  import opened SchedSjf

  // ---------------------------------------------------------------- fork

  /** The processes of `q` whose start has come, or those whose start has not. */
  function Due(s: Sched, q: seq<nat>, yes: bool): seq<nat> {
    if q == [] then []
    else (if (P(s, q[0]).startsAt <= s.ticks) == yes then [q[0]] else []) + Due(s, q[1..], yes)
  }

  lemma {:induction false} DueSame(s: Sched, s': Sched, q: seq<nat>, yes: bool)
    requires s'.procs == s.procs && s'.ticks == s.ticks
    ensures Due(s', q, yes) == Due(s, q, yes)
    decreases |q|
  {
    if q != [] {
      assert P(s', q[0]) == P(s, q[0]);
      DueSame(s, s', q[1..], yes);
    }
  }

  lemma AroundWithout(q: seq<nat>, k: nat)
    requires k < |q|
    ensures Without(q, k)[..k] == q[..k] && Without(q, k)[k..] == q[k + 1..] == q[k..][1..]
    ensures q[k..][0] == q[k] && q[..k + 1] == q[..k] + [q[k]]
  {
  }

  function ForkedAt(s: Sched, k: nat): Sched
    requires k < |s.forkq|
  {
    SetStatus(s, s.forkq[k], Ready).(forkq := Without(s.forkq, k), ready := s.ready + [s.forkq[k]])
  }

  /** The scan, one position at a time. */
  lemma ForkUnfolds(s: Sched, k: nat)
    requires k <= |s.forkq|
    ensures ForkFrom(s, k) == if k == |s.forkq| then s
                              else if P(s, s.forkq[k]).startsAt <= s.ticks then ForkFrom(ForkedAt(s, k), k)
                              else ForkFrom(s, k + 1)
  {
  }

  /** Forking moves exactly the processes whose start has come, in their order, to the tail of the ready
      queue, although the scan goes over a list that shrinks under it. */
  lemma {:induction false} ForksWhatIsDue(s: Sched, k: nat)
    requires Core(s) && Wakes(s, None) && k <= |s.forkq|
    ensures var f := ForkFrom(s, k);
      && f.ready == s.ready + Due(s, s.forkq[k..], true)
      && f.forkq == s.forkq[..k] + Due(s, s.forkq[k..], false)
    decreases |s.forkq| - k
  {
    hide Core, Wakes, Without, ForkFrom;
    ForkUnfolds(s, k);
    if k < |s.forkq| {
      AroundWithout(s.forkq, k);
      if P(s, s.forkq[k]).startsAt <= s.ticks {
        var s1 := ForkedAt(s, k);
        ForkOne(s, k);
        ForksWhatIsDue(s1, k);
        DueSame(s, s1, s.forkq[k + 1..], true);
        DueSame(s, s1, s.forkq[k + 1..], false);
      } else {
        ForksWhatIsDue(s, k + 1);
      }
    } else {
      assert s.forkq[k..] == [] && s.forkq[..k] == s.forkq;
    }
  }

  // ---------------------------------------------------------------- who runs next

  /** There is a current process, it is not blocked and it has life left. */
  predicate CanGoOn(s: Sched) {
    s.current.Some? && var p := P(s, s.current.value); p.status != Blocked && p.age < p.lifespan
  }

  /** The current process is dispatched again, and nobody else moves. */
  predicate GoesOn(s: Sched, f: Sched, d: Sched) { d.current == s.current && d.ready == f.ready }

  predicate Idles(d: Sched) { d.current == None && d.ready == [] }

  /** Position `k` of the ready queue is dispatched; a current process that could go on waits at the tail. */
  predicate Runs(f: Sched, d: Sched, k: nat) {
    && k < |f.ready| && d.current == Some(f.ready[k])
    && d.ready == Without(f.ready, k) + if CanGoOn(f) then [f.current.value] else []
  }

  /** `q[k]` is the first of those with the shortest lifespan. */
  ghost predicate FirstShortest(s: Sched, q: seq<nat>, k: nat)
    requires k < |q|
  {
    && (forall j :: 0 <= j < |q| ==> P(s, q[k]).lifespan <= P(s, q[j]).lifespan)
    && (forall j :: 0 <= j < k ==> P(s, q[k]).lifespan < P(s, q[j]).lifespan)
  }

  /** `q[k]` is the first of those with the least time to completion. */
  ghost predicate FirstSoonest(s: Sched, q: seq<nat>, k: nat)
    requires k < |q|
  {
    && (forall j :: 0 <= j < |q| ==> Remaining(P(s, q[k])) <= Remaining(P(s, q[j])))
    && (forall j :: 0 <= j < k ==> Remaining(P(s, q[k])) < Remaining(P(s, q[j])))
  }

  lemma WithoutTail(q: seq<nat>, x: seq<nat>, k: nat)
    requires k < |q|
    ensures Without(q + x, k) == Without(q, k) + x
  {
  }

  lemma TakesTail(f: Sched, k: nat)
    requires k < |f.ready| && f.current.Some?
    ensures Take(Requeue(f), k).s.ready == Without(f.ready, k) + [f.current.value]
    ensures Take(Requeue(f), k).next == Some(f.ready[k])
  {
    WithoutTail(f.ready, [f.current.value], k);
  }

  lemma ForkedSame(s: Sched)
    requires Inv(s)
    ensures var f := ForkFrom(s, 0); Core(f) && f == s.(forkq := f.forkq, ready := f.ready)
    ensures forall i: nat :: P(ForkFrom(s, 0), i) == P(s, i)
  {
    hide ForkFrom, Core, Wakes;
    ForkKeeps(s, 0);
  }

  /** FIFO: the current process is not interrupted; then the head of the queue runs. */
  lemma FifoRule(s: Sched)
    requires Inv(s)
    ensures var f, d := ForkFrom(s, 0), Dispatch(Fifo, s);
      if CanGoOn(s) then GoesOn(s, f, d)
      else if f.ready == [] then Idles(d)
      else Runs(f, d, 0)
  {
    hide ForkFrom, Dispatch, Inv;
    ForkedSame(s);
    DispatchTakes(Fifo, s);
  }

  /** SJF: the current process is not interrupted; then the first of the shortest runs. */
  lemma SjfRule(s: Sched)
    requires Inv(s)
    ensures var f, d := ForkFrom(s, 0), Dispatch(Sjf, s);
      if CanGoOn(s) then GoesOn(s, f, d)
      else if f.ready == [] then Idles(d)
      else exists k :: 0 <= k < |f.ready| && FirstShortest(s, f.ready, k) && Runs(f, d, k)
  {
    hide ForkFrom, Dispatch, Inv, Best;
    ForkedSame(s);
    DispatchTakes(Sjf, s);
    var f := ForkFrom(s, 0);
    if !CanGoOn(s) && f.ready != [] {
      var k := Best(Brevity(f, f.ready));
      assert FirstShortest(s, f.ready, k) && Runs(f, Dispatch(Sjf, s), k);
    }
  }

  /** Round robin, where it suits: the head of the queue runs, and the current process goes to its tail. */
  lemma RrRule(s: Sched)
    requires Inv(s) && Suits(Rr, ForkFrom(s, 0))
    ensures var f, d := ForkFrom(s, 0), Dispatch(Rr, s);
      if f.ready != [] then Runs(f, d, 0)
      else if CanGoOn(s) then GoesOn(s, f, d)
      else Idles(d)
  {
    hide ForkFrom, Dispatch, Inv;
    ForkedSame(s);
    DispatchTakes(Rr, s);
    if CanGoOn(s) && ForkFrom(s, 0).ready != [] {
      TakesTail(ForkFrom(s, 0), 0);
    }
  }

  lemma StcfScan(f: Sched, k: Option<nat>)
    requires Suits(Stcf, f) && f.ready != []
    requires k == Shortest(f, f.ready, if CanGoOn(f) then Remaining(P(f, f.current.value)) else MAX_TC)
    ensures k.None? <==> CanGoOn(f) && forall i ::
      i in f.ready ==> Remaining(P(f, i)) >= Remaining(P(f, f.current.value))
    ensures k.Some? ==> k.value < |f.ready| && FirstSoonest(f, f.ready, k.value) && CurrentAlive(f) == CanGoOn(f)
  {
    if k.Some? {
      assert f.ready[k.value] in f.ready;
    } else {
      forall i | i in f.ready
        ensures Remaining(P(f, i)) >= if CanGoOn(f) then Remaining(P(f, f.current.value)) else MAX_TC
      {
        var j :| 0 <= j < |f.ready| && f.ready[j] == i;
      }
    }
  }

  lemma SameSoonest(s: Sched, f: Sched, k: nat)
    requires k < |f.ready| && FirstSoonest(f, f.ready, k) && forall i: nat :: P(f, i) == P(s, i)
    ensures FirstSoonest(s, f.ready, k)
  {
  }

  /** STCF, where it suits: the current process goes on unless somebody ready has less time to completion;
      otherwise the first of those with the least runs. */
  lemma StcfRule(s: Sched)
    requires Inv(s) && Suits(Stcf, ForkFrom(s, 0))
    ensures var f, d := ForkFrom(s, 0), Dispatch(Stcf, s);
      if CanGoOn(s) && (forall i :: i in f.ready ==> Remaining(P(s, i)) >= Remaining(P(s, s.current.value)))
      then GoesOn(s, f, d)
      else if f.ready == [] then Idles(d)
      else exists k :: 0 <= k < |f.ready| && FirstSoonest(s, f.ready, k) && Runs(f, d, k)
  {
    hide ForkFrom, Dispatch, Inv, Shortest, Suits, Core, FirstSoonest, Without;
    ForkedSame(s);
    DispatchTakes(Stcf, s);
    var f := ForkFrom(s, 0);
    if f.ready != [] {
      var k := Shortest(f, f.ready, if CanGoOn(f) then Remaining(P(f, f.current.value)) else MAX_TC);
      StcfScan(f, k);
      if k.Some? {
        if CanGoOn(s) {
          TakesTail(f, k.value);
        } else {
          assert Without(f.ready, k.value) + [] == Without(f.ready, k.value);
        }
        SameSoonest(s, f, k.value);
        assert Runs(f, Dispatch(Stcf, s), k.value);
      }
    }
  }

  /** The scan by priority ends at the first of the most important; they are all below `x` if it is. */
  lemma PrioScan(f: Sched, k: nat, x: int)
    requires f.ready != [] && k == Best(Prios(f, f.ready))
    ensures k < |f.ready| && FirstHighest(f, f.ready, k)
    ensures (forall i :: i in f.ready ==> P(f, i).prio < x) <==> P(f, f.ready[k]).prio < x
  {
    assert forall j :: 0 <= j < |f.ready| ==> Prios(f, f.ready)[j] == P(f, f.ready[j]).prio;
    assert f.ready[k] in f.ready;
    forall i | i in f.ready
      ensures P(f, i).prio <= P(f, f.ready[k]).prio
    {
      var j :| 0 <= j < |f.ready| && f.ready[j] == i;
    }
  }

  lemma CurrentIsNotReady(f: Sched)
    requires Core(f)
    ensures ReadyOk(f) && (f.current.Some? ==> f.current.value !in f.ready)
  {
  }

  /** The three policies that schedule by fixed priorities: the current process goes on if and only if it can
      and is strictly more important than everybody ready; otherwise the first of the most important runs. */
  lemma PriorityRule(policy: Policy, s: Sched)
    requires policy in {Prio, Pcp, Pip} && Inv(s)
    ensures var f, d := ForkFrom(s, 0), Dispatch(policy, s);
      if CanGoOn(s) && (forall i :: i in f.ready ==> P(s, i).prio < P(s, s.current.value).prio)
      then GoesOn(s, f, d)
      else
        && (s.current.Some? ==> d.current != s.current)
        && if f.ready == [] then Idles(d)
           else exists k :: 0 <= k < |f.ready| && FirstHighest(s, f.ready, k) && Runs(f, d, k)
  {
    hide ForkFrom, Dispatch, Inv, Best, Core;
    ForkedSame(s);
    DispatchTakes(policy, s);
    var f := ForkFrom(s, 0);
    CurrentIsNotReady(f);
    if f.ready != [] {
      var k := Best(Prios(f, f.ready));
      PrioScan(f, k, if CanGoOn(f) then P(f, f.current.value).prio else 0);
      assert f.ready[k] in f.ready;
      if CanGoOn(s) {
        TakesTail(f, k);
      }
      assert FirstHighest(s, f.ready, k);
    }
  }

  lemma BoostedScan(f: Sched, k: nat, x: int)
    requires f.ready != [] && ReadyOk(f) && k == Best(Prios(Boost(f), f.ready))
    ensures k < |f.ready| && FirstHighest(f, f.ready, k)
    ensures P(Boost(f), f.ready[k]).prio == P(f, f.ready[k]).prio + 1
    ensures (forall i :: i in f.ready ==> P(f, i).prio + 1 < x) <==> P(Boost(f), f.ready[k]).prio < x
  {
    hide Best, Boost;
    BoostFacts(f);
    var b := Boost(f);
    PrioScan(b, k, x);
    assert forall j :: 0 <= j < |f.ready| ==> f.ready[j] in f.ready;
    assert forall i :: i in f.ready ==> P(b, i).prio == P(f, i).prio + 1;
  }

  /** Aging: everybody ready gains one priority, and the chosen one is reset to its original one. */
  lemma AgingPriorities(s: Sched)
    requires Inv(s)
    ensures var f, d := ForkFrom(s, 0), Dispatch(Pa, s);
      forall i: nat :: P(d, i).prio == if i !in f.ready then P(s, i).prio
                                       else if d.current == Some(i) then P(s, i).prioOrig
                                       else P(s, i).prio + 1
  {
    hide ForkFrom, Dispatch, Inv, PaChose;
    PaDispatch(s);
    ForkedSame(s);
  }

  /** Aging: the current process goes on if and only if it can and its priority exceeds every ready one by
      more than the one they gain; otherwise the first of the most important runs. */
  lemma AgingRule(s: Sched)
    requires Inv(s)
    ensures var f, d := ForkFrom(s, 0), Dispatch(Pa, s);
      if CanGoOn(s) && (forall i :: i in f.ready ==> P(s, i).prio + 1 < P(s, s.current.value).prio)
      then GoesOn(s, f, d)
      else
        && (s.current.Some? ==> d.current != s.current)
        && if f.ready == [] then Idles(d)
           else exists k :: 0 <= k < |f.ready| && FirstHighest(s, f.ready, k) && Runs(f, d, k)
  {
    hide ForkFrom, Dispatch, Inv, Best, Core, Boost;
    ForkedSame(s);
    DispatchTakes(Pa, s);
    var f := ForkFrom(s, 0);
    CurrentIsNotReady(f);
    if f.ready != [] {
      BoostFacts(f);
      var b := Boost(f);
      var k := Best(Prios(b, f.ready));
      BoostedScan(f, k, if CanGoOn(f) then P(f, f.current.value).prio else 0);
      assert f.ready[k] in f.ready;
      if CanGoOn(s) {
        TakesTail(b, k);
      }
      assert FirstHighest(s, f.ready, k);
    }
  }

  // ---------------------------------------------------------------- no interruption

  /** An iteration in which `c` runs: `c` ages by a tick or gets blocked, and is current afterwards. */
  lemma RunningTick(policy: Policy, s: Sched, c: nat)
    requires Inv(s) && Suits(policy, ForkFrom(s, 0)) && Dispatch(policy, s).current == Some(c)
    ensures var e := Tick(policy, s);
      && Inv(e) && e.current == Some(c) && P(e, c).lifespan == P(s, c).lifespan
      && (if P(e, c).status == Blocked then P(e, c).age == P(s, c).age
          else P(e, c).status == Running && P(e, c).age == P(s, c).age + 1)
  {
    hide Dispatch, RunCurrent, Core, Wakes, Suits, ForkFrom, AcquireFrom;
    SuitingKeeps(policy, s);
    DispatchLives(policy, s);
    var d, e := Dispatch(policy, s), Tick(policy, s);
    DispatchedRuns(d);
    RunKeeps(policy, d, c);
    RunLives(policy, d, c);
    assert SameClock(P(s, c), P(d, c)) && P(e, c) == P(RunCurrent(policy, d, c), c);
  }

  /** `c` is blocked after one of the next `n` iterations. */
  ghost predicate BlockedWithin(policy: Policy, s: Sched, c: nat, n: nat) {
    exists m :: 0 < m <= n && P(Ticks(policy, s, m), c).status == Blocked
  }

  lemma BlockedLater(policy: Policy, s: Sched, c: nat, n: nat)
    requires BlockedWithin(policy, Tick(policy, s), c, n)
    ensures BlockedWithin(policy, s, c, n + 1)
  {
    hide Tick;
    var e := Tick(policy, s);
    var m :| 0 < m <= n && P(Ticks(policy, e, m), c).status == Blocked;
    assert Ticks(policy, s, m + 1) == Ticks(policy, e, m);
  }

  /** Under FIFO and SJF a process that started runs on, whatever it claims and whoever arrives, until it gets
      blocked or its life is over. */
  lemma {:induction false} Uninterrupted(policy: Policy, s: Sched, n: nat)
    requires policy in {Fifo, Sjf} && Inv(s) && CanGoOn(s)
    requires n <= P(s, s.current.value).lifespan - P(s, s.current.value).age
    ensures var c, e := s.current.value, Ticks(policy, s, n);
      BlockedWithin(policy, s, c, n)
      || (e.current == Some(c) && P(e, c).status != Blocked && P(e, c).age == P(s, c).age + n)
    decreases n
  {
    hide Tick, Inv, Dispatch, ForkFrom;
    var c := s.current.value;
    if n > 0 {
      if policy == Fifo {
        FifoRule(s);
      } else {
        SjfRule(s);
      }
      ForkedSame(s);
      RunningTick(policy, s, c);
      var e := Tick(policy, s);
      if P(e, c).status == Blocked {
        assert Ticks(policy, s, 1) == e;
      } else if n > 1 {
        Uninterrupted(policy, e, n - 1);
        if BlockedWithin(policy, e, c, n - 1) {
          BlockedLater(policy, s, c, n - 1);
        }
      }
    }
  }
}
