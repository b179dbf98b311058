/** Priority inheritance over whole runs in which each process uses one resource at a time. */
module SchedPriority {
  import opened Common
  import opened SchedModel
  import opened SchedInvariant
  import opened SchedStep
  import opened SchedRuns

  // ---------------------------------------------------------------- who is dispatched

  predicate FixedPriority(policy: Policy) { policy in {Prio, Pcp, Pip} }

  /** The process about to run is at least as important as every process on the ready queue. */
  ghost predicate Top(d: Sched) {
    d.current.Some? ==> forall w :: w in d.ready ==> P(d, w).prio <= P(d, d.current.value).prio
  }

  lemma CurrentJoins(f: Sched)
    requires Core(f)
    ensures NoDup(f.ready)
    ensures Runnable(f) && CurrentAlive(f) ==> NoDup(f.ready + [f.current.value])
  {
    hide Owners, AllSane, WaitqOk;
    if Runnable(f) && CurrentAlive(f) {
      assert Placed(f, f.current.value) && f.current.value !in f.ready;
    }
  }

  lemma PrioScheduleTop(f: Sched)
    requires Core(f)
    ensures var c := PrioSchedule(f);
      && c.s == f.(ready := c.s.ready)
      && (c.next.Some? ==> forall w :: w in c.s.ready ==> P(f, w).prio <= P(f, c.next.value).prio)
      && (forall w :: w in f.ready ==> w in c.s.ready || c.next == Some(w))
  {
    hide Core, NoDup;
    CurrentJoins(f);
    if f.ready != [] {
      var k := Best(Prios(f, f.ready));
      WithoutMembers(f.ready, k);
      if Runnable(f) && CurrentAlive(f) {
        var q := f.ready + [f.current.value];
        assert q[k] == f.ready[k];
        WithoutMembers(q, k);
        assert forall w :: w in q <==> w in f.ready || w == f.current.value;
        assert f.current.value in q;
      }
      forall w | w in f.ready
        ensures P(f, w).prio <= P(f, f.ready[k]).prio
      {
        var j :| 0 <= j < |f.ready| && f.ready[j] == w;
        assert Prios(f, f.ready)[j] <= Prios(f, f.ready)[k];
      }
    }
  }

  lemma DispatchTop(policy: Policy, s: Sched)
    requires FixedPriority(policy) && Inv(s)
    ensures var d := Dispatch(policy, s);
      && Top(d)
      && (forall i: nat :: P(d, i).prio == P(s, i).prio)
      && (forall w :: w in s.ready ==> w in d.ready || d.current == Some(w))
  {
    hide Core, Wakes, PrioSchedule, ForkFrom, Retire;
    ForkKeeps(s, 0);
    var f := ForkFrom(s, 0);
    PrioScheduleTop(f);
    var c := PrioSchedule(f);
    RetirePrio(c.s, s.current);
    var r, d := Retire(c.s, s.current), Dispatch(policy, s);
    assert forall i: nat :: P(d, i).prio == P(r, i).prio && P(r, i).prio == P(c.s, i).prio && P(c.s, i) == P(f, i);
    assert forall w :: w in s.ready ==> w in f.ready by {
      assert forall w :: w in f.ready[..|s.ready|] ==> w in f.ready;
    }
  }

  // ---------------------------------------------------------------- priority inheritance

  /** Process `o` runs at the larger of its own priority and those of the processes waiting for `r`. */
  ghost predicate InheritsFrom(s: Sched, o: nat, r: ResId) {
    && P(s, o).prio >= P(s, o).prioOrig
    && (forall w :: w in s.res[r].waitq ==> P(s, w).prio <= P(s, o).prio)
    && (P(s, o).prio == P(s, o).prioOrig || exists w :: w in s.res[r].waitq && P(s, w).prio == P(s, o).prio)
  }

  /** A process at least as important as every waiter of the free resource `r` is about to acquire it. */
  ghost predicate Reserved(s: Sched, about: Option<nat>, r: ResId) {
    exists w :: (w in s.ready || about == Some(w)) && WaitsFor(P(s, w)) == Some(r)
                && forall x :: x in s.res[r].waitq ==> P(s, x).prio <= P(s, w).prio
  }

  ghost predicate BaseUnlessHolding(s: Sched) {
    forall i :: 0 <= i < |s.procs| && P(s, i).holding == [] ==> P(s, i).prio == P(s, i).prioOrig
  }

  ghost predicate AllInherit(s: Sched) {
    forall r: ResId :: s.res[r].owner.Some? ==> InheritsFrom(s, s.res[r].owner.value, r)
  }

  ghost predicate AllReserved(s: Sched, about: Option<nat>) {
    forall r: ResId :: s.res[r].owner.None? && s.res[r].waitq != [] ==> Reserved(s, about, r)
  }

  /** Exact priority inheritance. */
  ghost predicate Pips(s: Sched, about: Option<nat>) {
    BaseUnlessHolding(s) && AllInherit(s) && AllReserved(s, about)
  }

  lemma DueProcessHoldsNothing(s: Sched, i: nat)
    requires AllSane(s) && Obey(OneByOne, s) && i < |s.procs| && WaitsFor(P(s, i)).Some?
    ensures P(s, i).holding == []
  {
    DueExists(P(s, i), 0);
    var k :| 0 <= k < |P(s, i).pending| && P(s, i).pending[k].at == P(s, i).age;
    assert Sane(P(s, i)) && OneAtATime(P(s, i));
    DueHoldsNothing(P(s, i), k);
  }

  lemma LoadedPips(s: Sched)
    requires Loaded(s)
    ensures Pips(s, None)
  {
  }

  lemma DispatchPips(s: Sched)
    requires Inv(s) && Pips(s, None)
    ensures var d := Dispatch(Pip, s); Pips(d, d.current) && Top(d)
  {
    hide Dispatch, Core, Wakes, Top;
    DispatchTop(Pip, s);
    DispatchLives(Pip, s);
    var d := Dispatch(Pip, s);
    forall i: nat
      ensures WaitsFor(P(d, i)) == WaitsFor(P(s, i))
    {
      assert SameClock(P(s, i), P(d, i));
      DueIgnoresPrio(P(s, i), P(d, i), 0);
    }
    forall i | 0 <= i < |d.procs| && P(d, i).holding == []
      ensures P(d, i).prio == P(d, i).prioOrig
    {
      assert SameClock(P(s, i), P(d, i));
    }
    forall r: ResId | d.res[r].owner.Some?
      ensures InheritsFrom(d, d.res[r].owner.value, r)
    {
      assert InheritsFrom(s, s.res[r].owner.value, r);
      assert SameClock(P(s, s.res[r].owner.value), P(d, s.res[r].owner.value));
    }
    forall r: ResId | d.res[r].owner.None? && d.res[r].waitq != []
      ensures Reserved(d, d.current, r)
    {
      assert Reserved(s, None, r);
    }
  }

  lemma OwnPips(s: Sched, c: nat, k: nat)
    requires Core(s) && Obey(OneByOne, s) && RunsAs(s, c) && Alive(P(s, c)) && Pips(s, Some(c)) && Top(s)
    requires NoneDueBefore(P(s, c), k) && k < |P(s, c).pending| && P(s, c).pending[k].at == P(s, c).age
    requires s.res[P(s, c).pending[k].res].owner == None
    ensures Pips(Own(Pip, s, c, k), Some(c)) && Top(Own(Pip, s, c, k))
  {
    hide Own, Queues;
    OwnFacts(Pip, s, c, k);
    var s', r := Own(Pip, s, c, k), P(s, c).pending[k].res;
    assert Sane(P(s, c)) && OneAtATime(P(s, c));
    DueHoldsNothing(P(s, c), k);
    DueIsPending(P(s, c), k);
    assert forall i: nat :: P(s', i).prio == P(s, i).prio && P(s', i).prioOrig == P(s, i).prioOrig;
    assert forall x: ResId :: s'.res[x].waitq == s.res[x].waitq;
    forall x: ResId | s'.res[x].owner.Some?
      ensures InheritsFrom(s', s'.res[x].owner.value, x)
    {
      if x == r {
        assert s.res[r].waitq != [] ==> Reserved(s, Some(c), r);
      } else {
        assert InheritsFrom(s, s.res[x].owner.value, x);
      }
    }
    forall x: ResId | s'.res[x].owner.None? && s'.res[x].waitq != []
      ensures Reserved(s', Some(c), x)
    {
      assert x != r && Reserved(s, Some(c), x);
      var w :| (w in s.ready || Some(c) == Some(w)) && WaitsFor(P(s, w)) == Some(x)
                && forall y :: y in s.res[x].waitq ==> P(s, y).prio <= P(s, w).prio;
      assert w != c && P(s', w) == P(s, w);
    }
  }

  /** A failed acquire under PIP: the owner is raised to the blocked process's priority if that is higher. */
  lemma BlockFacts(s: Sched, c: nat, r: ResId)
    requires c < |s.procs| && s.res[r].owner.Some? && s.res[r].owner.value < |s.procs| && s.res[r].owner.value != c
    ensures var s' := Acquire(Pip, s, c, r).0; var o := s.res[r].owner.value;
      && |s'.procs| == |s.procs| && s'.ready == s.ready && s'.forkq == s.forkq && s'.current == s.current
      && s'.res == s.res[r := Resource(Some(o), s.res[r].waitq + [c])]
      && P(s', c) == P(s, c).(status := Blocked)
      && P(s', o) == P(s, o).(prio := if P(s, o).prio < P(s, c).prio then P(s, c).prio else P(s, o).prio)
      && forall i :: i != c && i != o ==> P(s', i) == P(s, i)
  {
  }

  lemma BlockInherits(s: Sched, s': Sched, c: nat, r: ResId, x: ResId)
    requires Core(s) && Obey(OneByOne, s) && RunsAs(s, c) && AllInherit(s) && P(s, c).holding == []
    requires BaseUnlessHolding(s)
    requires s.res[r].owner.Some? && s.res[x].owner.Some? && WaitsFor(P(s, c)) == Some(r)
    requires var o := s.res[r].owner.value;
      && s'.res == s.res[r := Resource(Some(o), s.res[r].waitq + [c])]
      && P(s', c) == P(s, c).(status := Blocked)
      && P(s', o) == P(s, o).(prio := if P(s, o).prio < P(s, c).prio then P(s, c).prio else P(s, o).prio)
      && forall i :: i != c && i != o ==> P(s', i) == P(s, i)
    ensures InheritsFrom(s', s.res[x].owner.value, x)
  {
    hide AllSane, WaitsFor;
    var o, ox := s.res[r].owner.value, s.res[x].owner.value;
    assert Holds(s, o, r) && Holds(s, ox, x) && InheritsFrom(s, ox, x);
    assert OneAtATime(P(s, o)) && OneAtATime(P(s, ox));
    assert x != r ==> ox != o;
    forall w | w in s.res[x].waitq
      ensures w != o && P(s', w).prio == P(s, w).prio
    {
      assert WaitsFor(P(s, w)) == Some(x);
      DueProcessHoldsNothing(s, w);
    }
    if x == r {
      assert s'.res[r].waitq[|s.res[r].waitq|] == c;
      assert forall w :: w in s'.res[r].waitq <==> w in s.res[r].waitq || w == c;
    } else {
      assert s'.res[x] == s.res[x];
    }
  }

  lemma BlockPips(s: Sched, c: nat, k: nat)
    requires Core(s) && Obey(OneByOne, s) && RunsAs(s, c) && Alive(P(s, c)) && Pips(s, Some(c))
    requires NoneDueBefore(P(s, c), k) && k < |P(s, c).pending| && P(s, c).pending[k].at == P(s, c).age
    requires s.res[P(s, c).pending[k].res].owner.Some?
    ensures Pips(Acquire(Pip, s, c, P(s, c).pending[k].res).0, None)
  {
    var r := P(s, c).pending[k].res;
    var o := s.res[r].owner.value;
    var s' := Acquire(Pip, s, c, r).0;
    assert Holds(s, o, r) && Sane(P(s, c)) && OneAtATime(P(s, c));
    DueHoldsNothing(P(s, c), k);
    DueIsPending(P(s, c), k);
    BlockFacts(s, c, r);
    hide Acquire;
    forall i: nat
      ensures WaitsFor(P(s', i)) == WaitsFor(P(s, i))
    {
      DueIgnoresPrio(P(s, i), P(s', i), 0);
    }
    assert InheritsFrom(s, o, r);
    forall x: ResId | s'.res[x].owner.Some?
      ensures InheritsFrom(s', s'.res[x].owner.value, x)
    {
      BlockInherits(s, s', c, r, x);
    }
    forall x: ResId | s'.res[x].owner.None? && s'.res[x].waitq != []
      ensures Reserved(s', None, x)
    {
      assert x != r && Reserved(s, Some(c), x);
      var w :| (w in s.ready || Some(c) == Some(w)) && WaitsFor(P(s, w)) == Some(x)
                && forall y :: y in s.res[x].waitq ==> P(s, y).prio <= P(s, w).prio;
      assert w in s'.ready && P(s', w).prio >= P(s, w).prio;
      forall y | y in s'.res[x].waitq
        ensures P(s', y).prio <= P(s', w).prio
      {
        assert WaitsFor(P(s, y)) == Some(x);
        DueProcessHoldsNothing(s, y);
      }
    }
  }

  lemma {:induction false} AcquirePips(s: Sched, c: nat, k: nat)
    requires Core(s) && Wakes(s, Some(c)) && RunsAs(s, c) && Alive(P(s, c)) && NoneDueBefore(P(s, c), k)
    requires Obey(OneByOne, s) && Pips(s, Some(c)) && Top(s)
    ensures Pips(AcquireFrom(Pip, s, c, k).0, None)
    decreases |P(s, c).pending| - k
  {
    hide Queues, Owners, Wakes, Obey;
    var p := P(s, c);
    if k >= |p.pending| {
      DueSkips(p, 0, |p.pending|);
      forall r: ResId | s.res[r].owner.None? && s.res[r].waitq != []
        ensures Reserved(s, None, r)
      {
        assert Reserved(s, Some(c), r);
      }
    } else if p.pending[k].at != p.age {
      AcquirePips(s, c, k + 1);
    } else if s.res[p.pending[k].res].owner.None? {
      OwnKeeps(Pip, s, c, k);
      OwnObeys(OneByOne, Pip, s, c, k);
      OwnFacts(Pip, s, c, k);
      OwnPips(s, c, k);
      AcquirePips(Own(Pip, s, c, k), c, k);
    } else {
      BlockPips(s, c, k);
    }
  }

  lemma GiveBackInherits(s: Sched, c: nat, k: nat)
    requires Queues(s) && Owners(s) && RunsAs(s, c) && k < |P(s, c).holding| && Obey(OneByOne, s) && AllInherit(s)
    ensures AllInherit(GiveBack(Pip, s, c, k))
  {
    hide GiveBack;
    GiveBackFacts(Pip, s, c, k);
    var s', r := GiveBack(Pip, s, c, k), P(s, c).holding[k].res;
    assert OneAtATime(P(s, c));
    assert forall i: nat :: i != c ==> P(s', i).prio == P(s, i).prio && P(s', i).prioOrig == P(s, i).prioOrig;
    forall x: ResId | s'.res[x].owner.Some?
      ensures InheritsFrom(s', s'.res[x].owner.value, x)
    {
      var o := s.res[x].owner.value;
      assert InheritsFrom(s, o, x) && Holds(s, o, x);
      assert o != c;
      assert forall w :: w in s.res[x].waitq ==> P(s, w).status == Blocked;
    }
  }

  lemma WokenReserves(s: Sched, s': Sched, c: nat, r: ResId, j: nat)
    requires Queues(s) && RunsAs(s, c) && j < |s.res[r].waitq| && Woken(Pip, s, s', c, r, j)
    requires forall i: nat :: WaitsFor(P(s', i)) == WaitsFor(P(s, i))
    ensures Reserved(s', None, r)
  {
    var q := s.res[r].waitq;
    var w := q[j];
    assert w in q && s'.ready[|s.ready|] == w;
    WithoutMembers(q, j);
    forall x | x in s'.res[r].waitq
      ensures P(s', x).prio <= P(s', w).prio
    {
      assert x in q && P(s, x).status == Blocked;
      var y :| 0 <= y < |q| && q[y] == x;
    }
  }

  lemma GiveBackReserves(s: Sched, c: nat, k: nat)
    requires Queues(s) && RunsAs(s, c) && k < |P(s, c).holding| && AllReserved(s, None)
    ensures AllReserved(GiveBack(Pip, s, c, k), None)
  {
    hide GiveBack;
    GiveBackFacts(Pip, s, c, k);
    var s', r := GiveBack(Pip, s, c, k), P(s, c).holding[k].res;
    var q := s.res[r].waitq;
    forall i: nat
      ensures WaitsFor(P(s', i)) == WaitsFor(P(s, i)) && (i != c ==> P(s', i).prio == P(s, i).prio)
    {
      DueIgnoresPrio(P(s, i), P(s', i), 0);
    }
    forall x: ResId | s'.res[x].owner.None? && s'.res[x].waitq != []
      ensures Reserved(s', None, x)
    {
      if x == r {
        var j :| 0 <= j < |q| && Woken(Pip, s, s', c, r, j);
        WokenReserves(s, s', c, r, j);
      } else {
        assert Reserved(s, None, x);
        var w :| w in s.ready && WaitsFor(P(s, w)) == Some(x)
                && forall y :: y in s.res[x].waitq ==> P(s, y).prio <= P(s, w).prio;
        assert w != c && w in s'.ready;
        assert forall y :: y in s.res[x].waitq ==> P(s, y).status == Blocked;
      }
    }
  }

  lemma GiveBackPips(s: Sched, c: nat, k: nat)
    requires Releasing(s, c, k) && k < |P(s, c).holding| && Obey(OneByOne, s) && Pips(s, None)
    ensures Pips(GiveBack(Pip, s, c, k), None)
  {
    hide GiveBack, Queues, Owners, Wakes, AllInherit, AllReserved;
    GiveBackFacts(Pip, s, c, k);
    GiveBackInherits(s, c, k);
    GiveBackReserves(s, c, k);
    assert OneAtATime(P(s, c));
  }

  /** Pips does not depend on ages of processes that are not due, nor on how much of a claim is left. */
  lemma PipsFrame(s: Sched, s': Sched)
    requires Pips(s, None) && s' == s.(procs := s'.procs, ticks := s'.ticks) && |s'.procs| == |s.procs|
    requires forall i: nat :: P(s', i).prio == P(s, i).prio && P(s', i).prioOrig == P(s, i).prioOrig
    requires forall i: nat :: P(s, i).holding == [] <==> P(s', i).holding == []
    requires forall i :: i in s.ready ==> WaitsFor(P(s', i)) == WaitsFor(P(s, i))
    ensures Pips(s', None)
  {
    forall x: ResId | s'.res[x].owner.Some?
      ensures InheritsFrom(s', s'.res[x].owner.value, x)
    {
      assert InheritsFrom(s, s.res[x].owner.value, x);
    }
    forall x: ResId | s'.res[x].owner.None? && s'.res[x].waitq != []
      ensures Reserved(s', None, x)
    {
      assert Reserved(s, None, x);
    }
  }

  lemma CountPips(s: Sched, c: nat, k: nat)
    requires c < |s.procs| && k < |P(s, c).holding| && P(s, c).holding[k].left > 1 && Obey(OneByOne, s) && Pips(s, None)
    ensures var p := P(s, c);
      var s' := SetP(s, c, p.(holding := p.holding[k := p.holding[k].(left := p.holding[k].left - 1)]));
      Obey(OneByOne, s') && Pips(s', None)
  {
    var p := P(s, c);
    var s' := SetP(s, c, p.(holding := p.holding[k := p.holding[k].(left := p.holding[k].left - 1)]));
    DueIgnoresPrio(p, P(s', c), 0);
    PipsFrame(s, s');
    forall i | 0 <= i < |s.procs|
      ensures OneAtATime(P(s', i))
    {
      assert OneAtATime(P(s, i));
    }
  }

  lemma {:induction false} ReleasePips(s: Sched, c: nat, k: nat)
    requires Releasing(s, c, k) && k <= |P(s, c).holding| && Obey(OneByOne, s) && Pips(s, None)
    ensures Pips(ReleaseFrom(Pip, s, c, k), None)
    decreases |P(s, c).holding| - k
  {
    hide ReleaseFrom, GiveBack, Queues, Owners, Wakes;
    ReleaseUnfolds(Pip, s, c, k);
    var p := P(s, c);
    if k < |p.holding| {
      if p.holding[k].left > 1 {
        CountKeeps(s, c, k);
        CountPips(s, c, k);
        ReleasePips(SetP(s, c, p.(holding := p.holding[k := p.holding[k].(left := p.holding[k].left - 1)])), c, k + 1);
      } else {
        GiveBackFacts(Pip, s, c, k);
        GiveBackKeeps(Pip, s, c, k);
        GiveBackPips(s, c, k);
        GiveBackObeys(OneByOne, Pip, s, c, k);
        ReleasePips(GiveBack(Pip, s, c, k), c, k);
      }
    }
  }

  lemma RunPips(d: Sched, c: nat)
    requires Core(d) && Wakes(d, Some(c)) && RunsAs(d, c) && Alive(P(d, c)) && Obey(OneByOne, d)
    requires Pips(d, Some(c)) && Top(d)
    ensures Pips(RunCurrent(Pip, d, c), None)
  {
    hide AcquireFrom, ReleaseFrom, Core, Wakes, Releasing;
    AcquireKeeps(Pip, d, c, 0);
    AcquireObeys(OneByOne, Pip, d, c, 0);
    AcquirePips(d, c, 0);
    var (s1, ok) := AcquireFrom(Pip, d, c, 0);
    if ok {
      AgeKeeps(s1, c);
      var s2 := SetP(s1, c, P(s1, c).(age := P(s1, c).age + 1));
      assert Obey(OneByOne, s2) by {
        assert forall i ::
          0 <= i < |s1.procs| ==>
            && OneAtATime(P(s1, i))
            && P(s2, i).pending == P(s1, i).pending && P(s2, i).holding == P(s1, i).holding;
      }
      RunningIsDetached(s1, c);
      PipsFrame(s1, s2);
      ReleasePips(s2, c, 0);
    }
  }

  lemma TickPips(s: Sched)
    requires Inv(s) && Obey(OneByOne, s) && Pips(s, None)
    ensures Pips(Tick(Pip, s), None)
  {
    hide Dispatch, AcquireFrom, ReleaseFrom, Core, Wakes, Releasing, Obey;
    DispatchKeeps(Pip, s);
    DispatchObeys(OneByOne, Pip, s);
    DispatchPips(s);
    var d := Dispatch(Pip, s);
    if d.current.Some? {
      var c := d.current.value;
      RunPips(d, c);
      var ran := RunCurrent(Pip, d, c);
      PipsFrame(ran, ran.(ticks := d.ticks + 1));
    } else if !Halts(d) {
      PipsFrame(d, d.(ticks := d.ticks + 1));
    }
  }

  /** Exact priority inheritance holds in every reachable state of a one-at-a-time run under PIP. */
  lemma {:induction false} RunsInherit(s: Sched, n: nat)
    requires Inv(s) && Obey(OneByOne, s) && Pips(s, None)
    ensures var e := Ticks(Pip, s, n); Inv(e) && Obey(OneByOne, e) && Pips(e, None)
    decreases n
  {
    if n > 0 {
      TickKeeps(Pip, s);
      TickObeys(OneByOne, Pip, s);
      TickPips(s);
      RunsInherit(Tick(Pip, s), n - 1);
    }
  }

  /** The process a PIP dispatch picks has at least the original priority of `w`; if it holds nothing, its
      own original priority is no lower. */
  ghost predicate RunsAbove(s: Sched, w: nat) {
    var d := Dispatch(Pip, s);
    && d.current.Some? && P(s, d.current.value).prio >= P(s, w).prioOrig
    && (P(s, d.current.value).holding == [] ==> P(s, d.current.value).prioOrig >= P(s, w).prioOrig)
  }

  /** The owner of what `w` waits for is at least as important and not blocked itself. */
  lemma WaiterBelowOwner(s: Sched, r: ResId, w: nat, o: nat)
    requires Core(s) && Obey(OneByOne, s) && Pips(s, None)
    requires s.res[r].owner == Some(o) && w in s.res[r].waitq
    ensures o < |s.procs| && P(s, o).holding != [] && P(s, o).status != Blocked && P(s, o).prio >= P(s, w).prioOrig
  {
    assert InheritsFrom(s, o, r) && Holds(s, o, r);
    assert WaitsFor(P(s, w)) == Some(r);
    DueProcessHoldsNothing(s, w);
    hide InheritsFrom, AllInherit, AllReserved;
    if P(s, o).status == Blocked {
      assert Placed(s, o);
      DueProcessHoldsNothing(s, o);
    }
  }

  lemma HolderCanRun(d: Sched, o: nat)
    requires Core(d) && o < |d.procs| && P(d, o).holding != [] && P(d, o).status != Blocked
    ensures o in d.ready || d.current == Some(o)
  {
    assert Placed(d, o) && Sane(P(d, o));
  }

  lemma BaseOf(s: Sched, i: nat)
    requires Core(s) && BaseUnlessHolding(s)
    ensures P(s, i).holding == [] ==> P(s, i).prio == P(s, i).prioOrig
  {
  }

  /** No priority inversion: while `w` waits for an owned resource, some process is dispatched, at a
      priority no lower than that of `w`; and when it holds nothing, its own priority is no lower. */
  lemma NoInversion(s: Sched, r: ResId, w: nat)
    requires Inv(s) && Obey(OneByOne, s) && Pips(s, None)
    requires s.res[r].owner.Some? && w in s.res[r].waitq
    ensures RunsAbove(s, w)
  {
    hide Dispatch, Core, Wakes, Obey, AllInherit, AllReserved, BaseUnlessHolding, ForkFrom;
    DispatchKeeps(Pip, s);
    DispatchTop(Pip, s);
    DispatchLives(Pip, s);
    var d, o := Dispatch(Pip, s), s.res[r].owner.value;
    WaiterBelowOwner(s, r, w, o);
    assert P(d, o).status != Blocked;
    HolderCanRun(d, o);
    BaseOf(s, d.current.value);
  }

  /** From a loaded script: inheritance is exact in every reachable state, and while anyone waits for an
      owned resource, whoever runs next is at least as important. */
  lemma NeverInverted(s: Sched, n: nat)
    requires Loaded(s) && Obey(OneByOne, s)
    ensures var e := Ticks(Pip, s, n);
      && Pips(e, None)
      && forall r: ResId, w: nat :: e.res[r].owner.Some? && w in e.res[r].waitq ==> RunsAbove(e, w)
  {
    hide Dispatch, Ticks, Inv, Pips;
    LoadedInv(s);
    LoadedPips(s);
    RunsInherit(s, n);
    var e := Ticks(Pip, s, n);
    forall r: ResId, w: nat | e.res[r].owner.Some? && w in e.res[r].waitq
      ensures RunsAbove(e, w)
    {
      NoInversion(e, r, w);
    }
  }
}
