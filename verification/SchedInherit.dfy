/** Priority inheritance with any number of resources held at once: what exact inheritance means then, at
    which of its three steps the code keeps it, and a script on which it does not. */
module SchedInherit {
  import opened Common
  import opened SchedModel
  import opened SchedInvariant
  import opened SchedStep
  import opened SchedRuns
  import opened SchedPriority

  /** `w` waits for a resource that `i` owns. */
  ghost predicate WaitsOn(s: Sched, w: nat, i: nat) {
    exists r: ResId :: s.res[r].owner == Some(i) && w in s.res[r].waitq
  }

  /** `i` runs at the largest of its own priority and those of all who wait for a resource it owns. */
  ghost predicate Inherits(s: Sched, i: nat) {
    && P(s, i).prio >= P(s, i).prioOrig
    && (forall w: nat :: WaitsOn(s, w, i) ==> P(s, w).prio <= P(s, i).prio)
    && (P(s, i).prio == P(s, i).prioOrig || exists w: nat :: WaitsOn(s, w, i) && P(s, w).prio == P(s, i).prio)
  }

  ghost predicate AllInherits(s: Sched) { forall i :: 0 <= i < |s.procs| ==> Inherits(s, i) }

  lemma LoadedInherits(s: Sched)
    requires Loaded(s)
    ensures AllInherits(s)
  {
  }

  // ---------------------------------------------------------------- release

  /** Nobody above the releasing process's own priority waits for a resource it keeps. */
  ghost predicate ReleaseFair(s: Sched, c: nat, r: ResId) {
    forall x: ResId, w: nat :: x != r && s.res[x].owner == Some(c) && w in s.res[x].waitq ==>
      P(s, w).prio <= P(s, c).prioOrig
  }

  lemma NotWaiting(s: Sched, c: nat)
    requires Queues(s) && RunsAs(s, c)
    ensures forall r: ResId :: c !in s.res[r].waitq
  {
  }

  lemma SameInherits(s: Sched, s': Sched, i: nat)
    requires Inherits(s, i) && P(s', i).prio == P(s, i).prio && P(s', i).prioOrig == P(s, i).prioOrig
    requires forall w: nat :: WaitsOn(s', w, i) <==> WaitsOn(s, w, i)
    requires forall w: nat :: WaitsOn(s, w, i) ==> P(s', w).prio == P(s, w).prio
    ensures Inherits(s', i)
  {
  }

  lemma ReleaseInherits(s: Sched, c: nat, r: ResId)
    requires Queues(s) && RunsAs(s, c) && AllInherits(s) && s.res[r].owner == Some(c)
    ensures AllInherits(Release(Pip, s, c, r)) <==> ReleaseFair(s, c, r)
  {
    ReleaseFacts(Pip, s, c, r);
    NotWaiting(s, c);
    var s' := Release(Pip, s, c, r);
    hide Release, Queues;
    forall i: nat, w: nat
      ensures WaitsOn(s', w, i) <==> exists x: ResId :: x != r && s.res[x].owner == Some(i) && w in s.res[x].waitq
      ensures WaitsOn(s, w, i) ==> w != c
      ensures i != c ==> (WaitsOn(s', w, i) <==> WaitsOn(s, w, i))
    {
    }
    assert forall i: nat :: i != c ==> P(s', i).prio == P(s, i).prio && P(s', i).prioOrig == P(s, i).prioOrig;
    forall i: nat | i < |s.procs| && i != c
      ensures Inherits(s', i)
    {
      SameInherits(s, s', i);
    }
    assert P(s', c).prio == P(s', c).prioOrig == P(s, c).prioOrig;
    if ReleaseFair(s, c, r) {
      assert forall w: nat :: WaitsOn(s', w, c) ==> P(s', w).prio <= P(s', c).prio;
      assert Inherits(s', c);
    } else {
      var x: ResId, w: nat :| x != r && s.res[x].owner == Some(c) && w in s.res[x].waitq
        && P(s, w).prio > P(s, c).prioOrig;
      assert WaitsOn(s', w, c) && WaitsOn(s, w, c) && !Inherits(s', c);
    }
  }

  // ---------------------------------------------------------------- acquire

  /** Nobody above the process that takes the free resource waits for it. */
  ghost predicate TakeFair(s: Sched, c: nat, r: ResId) {
    forall w: nat :: w in s.res[r].waitq ==> P(s, w).prio <= P(s, c).prio
  }

  lemma TakeInherits(s: Sched, c: nat, r: ResId)
    requires Core(s) && RunsAs(s, c) && AllInherits(s) && s.res[r].owner == None
    ensures AllInherits(Acquire(Pip, s, c, r).0) <==> TakeFair(s, c, r)
  {
    NotWaiting(s, c);
    var s' := Acquire(Pip, s, c, r).0;
    assert s'.procs == s.procs && s'.res == s.res[r := s.res[r].(owner := Some(c))];
    hide Acquire, Core;
    forall i: nat, w: nat
      ensures WaitsOn(s', w, i) <==> WaitsOn(s, w, i) || (i == c && w in s.res[r].waitq)
    {
      if x: ResId :| s.res[x].owner == Some(i) && w in s.res[x].waitq {
        assert s'.res[x] == s.res[x];
      }
      if x: ResId :| s'.res[x].owner == Some(i) && w in s'.res[x].waitq {
        assert x != r ==> s'.res[x] == s.res[x];
      }
      assert s'.res[r].owner == Some(c) && s'.res[r].waitq == s.res[r].waitq;
    }
    forall i: nat | i < |s.procs| && i != c
      ensures Inherits(s', i)
    {
      SameInherits(s, s', i);
    }
    if TakeFair(s, c, r) {
      assert Inherits(s, c);
      assert Inherits(s', c);
    } else {
      var w: nat :| w in s.res[r].waitq && P(s, w).prio > P(s, c).prio;
      assert WaitsOn(s', w, c) && !Inherits(s', c);
    }
  }

  /** The owner is not raised, or whoever it waits for in turn is already as important. */
  ghost predicate BlockFair(s: Sched, c: nat, r: ResId)
    requires s.res[r].owner.Some?
  {
    var o := s.res[r].owner.value;
    P(s, o).prio < P(s, c).prio ==> forall i: nat :: WaitsOn(s, o, i) && i != o ==> P(s, i).prio >= P(s, c).prio
  }

  /** A failed acquire as the lemmas below see it. */
  ghost predicate Raises(s: Sched, s': Sched, c: nat, o: nat) {
    && (forall i: nat :: P(s', i).prio == (if i == o && P(s, o).prio < P(s, c).prio then P(s, c).prio else P(s, i).prio)
                         && P(s', i).prioOrig == P(s, i).prioOrig)
    && (forall i: nat, w: nat :: WaitsOn(s', w, i) <==> WaitsOn(s, w, i) || (i == o && w == c))
    && (forall i: nat, w: nat :: WaitsOn(s, w, i) ==> w != c)
  }

  lemma RaiseFacts(s: Sched, c: nat, r: ResId)
    requires Core(s) && RunsAs(s, c) && s.res[r].owner.Some?
    ensures var s' := Acquire(Pip, s, c, r).0; |s'.procs| == |s.procs| && Raises(s, s', c, s.res[r].owner.value)
  {
    NotWaiting(s, c);
    var o := s.res[r].owner.value;
    assert Holds(s, o, r);
    var s' := Acquire(Pip, s, c, r).0;
    assert s'.res == s.res[r := Resource(Some(o), s.res[r].waitq + [c])];
    hide Core, Acquire;
    forall i: nat, w: nat
      ensures WaitsOn(s', w, i) <==> WaitsOn(s, w, i) || (i == o && w == c)
    {
      if x: ResId :| s.res[x].owner == Some(i) && w in s.res[x].waitq {
        assert s'.res[x].owner == Some(i) && w in s'.res[x].waitq;
      }
      if x: ResId :| s'.res[x].owner == Some(i) && w in s'.res[x].waitq {
        assert x != r ==> s'.res[x] == s.res[x];
      }
      assert s'.res[r].owner == Some(o) && c in s'.res[r].waitq;
    }
  }

  lemma OwnersExist(s: Sched, w: nat, i: nat)
    requires Owners(s) && WaitsOn(s, w, i)
    ensures i < |s.procs|
  {
    var r: ResId :| s.res[r].owner == Some(i) && w in s.res[r].waitq;
    assert Holds(s, s.res[r].owner.value, r);
  }

  lemma OwnerInherits(s: Sched, s': Sched, c: nat, o: nat)
    requires Raises(s, s', c, o) && Inherits(s, o)
    ensures Inherits(s', o)
  {
    if P(s, o).prio < P(s, c).prio {
      assert WaitsOn(s', c, o);
    } else if P(s, o).prio != P(s, o).prioOrig {
      var w: nat :| WaitsOn(s, w, o) && P(s, w).prio == P(s, o).prio;
      assert WaitsOn(s', w, o);
    }
  }

  lemma OtherInherits(s: Sched, s': Sched, c: nat, o: nat, i: nat)
    requires Raises(s, s', c, o) && Inherits(s, i) && i != o
    ensures Inherits(s', i) <==> (WaitsOn(s, o, i) && P(s, o).prio < P(s, c).prio ==> P(s, i).prio >= P(s, c).prio)
  {
    if WaitsOn(s, o, i) && P(s, o).prio < P(s, c).prio {
      assert WaitsOn(s', o, i) && P(s', o).prio == P(s, c).prio;
    }
    if P(s, i).prio != P(s, i).prioOrig {
      var w: nat :| WaitsOn(s, w, i) && P(s, w).prio == P(s, i).prio;
      assert WaitsOn(s', w, i);
    }
  }

  lemma WaitInherits(s: Sched, c: nat, r: ResId)
    requires Core(s) && RunsAs(s, c) && AllInherits(s) && s.res[r].owner.Some?
    ensures AllInherits(Acquire(Pip, s, c, r).0) <==> BlockFair(s, c, r)
  {
    var o := s.res[r].owner.value;
    RaiseFacts(s, c, r);
    assert Holds(s, o, r);
    var s' := Acquire(Pip, s, c, r).0;
    hide Acquire, Core, Inherits, WaitsOn;
    assert Inherits(s, o);
    OwnerInherits(s, s', c, o);
    forall i: nat | i < |s.procs| && i != o
      ensures Inherits(s', i) <==> (WaitsOn(s, o, i) && P(s, o).prio < P(s, c).prio ==> P(s, i).prio >= P(s, c).prio)
    {
      assert Inherits(s, i);
      OtherInherits(s, s', c, o, i);
    }
    forall i: nat | WaitsOn(s, o, i)
      ensures i < |s.procs|
    {
      OwnersExist(s, o, i);
    }
  }

  // ---------------------------------------------------------------- iterations and runs

  /** Nothing that exact inheritance depends on has changed. */
  lemma FrameInherits(s: Sched, s': Sched)
    requires AllInherits(s) && s'.res == s.res && |s'.procs| == |s.procs|
    requires forall i: nat :: P(s', i).prio == P(s, i).prio && P(s', i).prioOrig == P(s, i).prioOrig
    ensures AllInherits(s')
  {
    forall i: nat | i < |s.procs|
      ensures Inherits(s', i)
    {
      assert forall w: nat :: WaitsOn(s', w, i) <==> WaitsOn(s, w, i);
      SameInherits(s, s', i);
    }
  }

  /** Every acquire of the loop from claim `k` on is fair. */
  ghost predicate AcquiresFair(s: Sched, c: nat, k: nat)
    decreases |P(s, c).pending| - k
  {
    var p := P(s, c);
    if k >= |p.pending| || c >= |s.procs| then true
    else if p.pending[k].at != p.age then AcquiresFair(s, c, k + 1)
    else
      var r := p.pending[k].res;
      if s.res[r].owner.Some? then BlockFair(s, c, r)
      else
        OwnFacts(Pip, s, c, k);
        TakeFair(s, c, r) && AcquiresFair(Own(Pip, s, c, k), c, k)
  }

  lemma TakenInherits(s: Sched, c: nat, k: nat)
    requires c < |s.procs| && k < |P(s, c).pending| && s.res[P(s, c).pending[k].res].owner == None
    requires AllInherits(Acquire(Pip, s, c, P(s, c).pending[k].res).0)
    ensures AllInherits(Own(Pip, s, c, k))
  {
    FrameInherits(Acquire(Pip, s, c, P(s, c).pending[k].res).0, Own(Pip, s, c, k));
  }

  lemma OwnIsStep(s: Sched, c: nat, k: nat)
    requires c < |s.procs| && k < |P(s, c).pending| && P(s, c).pending[k].at == P(s, c).age
    requires s.res[P(s, c).pending[k].res].owner == None
    ensures AcquireFrom(Pip, s, c, k) == AcquireFrom(Pip, Own(Pip, s, c, k), c, k)
  {
    OwnFacts(Pip, s, c, k);
  }

  lemma FailedIsEnd(s: Sched, c: nat, k: nat)
    requires k < |P(s, c).pending| && P(s, c).pending[k].at == P(s, c).age && s.res[P(s, c).pending[k].res].owner.Some?
    ensures AcquireFrom(Pip, s, c, k).0 == Acquire(Pip, s, c, P(s, c).pending[k].res).0
  {
  }

  lemma {:induction false} AcquiresInherit(s: Sched, c: nat, k: nat)
    requires Core(s) && Wakes(s, Some(c)) && RunsAs(s, c) && Alive(P(s, c)) && NoneDueBefore(P(s, c), k)
    requires AllInherits(s) && AcquiresFair(s, c, k)
    ensures AllInherits(AcquireFrom(Pip, s, c, k).0)
    decreases |P(s, c).pending| - k
  {
    hide Core, Wakes, AllInherits, TakeFair, BlockFair, Acquire, Own;
    var p := P(s, c);
    if k < |p.pending| {
      var r := p.pending[k].res;
      if p.pending[k].at != p.age {
        AcquiresInherit(s, c, k + 1);
      } else if s.res[r].owner.None? {
        OwnFacts(Pip, s, c, k);
        OwnKeeps(Pip, s, c, k);
        TakeInherits(s, c, r);
        TakenInherits(s, c, k);
        OwnIsStep(s, c, k);
        AcquiresInherit(Own(Pip, s, c, k), c, k);
      } else {
        WaitInherits(s, c, r);
        FailedIsEnd(s, c, k);
      }
    }
  }

  /** Every release of the loop from held claim `k` on is fair. */
  ghost predicate ReleasesFair(s: Sched, c: nat, k: nat)
    requires Releasing(s, c, k) && k <= |P(s, c).holding|
    decreases |P(s, c).holding| - k
  {
    var p := P(s, c);
    if k == |p.holding| then true
    else if p.holding[k].left > 1 then
      CountKeeps(s, c, k);
      ReleasesFair(SetP(s, c, p.(holding := p.holding[k := p.holding[k].(left := p.holding[k].left - 1)])), c, k + 1)
    else
      GiveBackFacts(Pip, s, c, k);
      GiveBackKeeps(Pip, s, c, k);
      ReleaseFair(s, c, p.holding[k].res) && ReleasesFair(GiveBack(Pip, s, c, k), c, k)
  }

  lemma GivenBackInherits(s: Sched, c: nat, k: nat)
    requires Releasing(s, c, k) && k < |P(s, c).holding| && AllInherits(s) && ReleaseFair(s, c, P(s, c).holding[k].res)
    ensures AllInherits(GiveBack(Pip, s, c, k))
  {
    hide Inherits, ReleaseFair;
    var r := P(s, c).holding[k].res;
    ReleaseFacts(Pip, s, c, r);
    ReleaseInherits(s, c, r);
    FrameInherits(Release(Pip, s, c, r), GiveBack(Pip, s, c, k));
  }

  lemma {:induction false} ReleasesInherit(s: Sched, c: nat, k: nat)
    requires Releasing(s, c, k) && k <= |P(s, c).holding| && AllInherits(s) && ReleasesFair(s, c, k)
    ensures AllInherits(ReleaseFrom(Pip, s, c, k))
    decreases |P(s, c).holding| - k
  {
    hide ReleaseFrom, GiveBack, Queues, Owners, Wakes, AllInherits, ReleaseFair;
    ReleaseUnfolds(Pip, s, c, k);
    var p := P(s, c);
    if k < |p.holding| {
      if p.holding[k].left > 1 {
        CountKeeps(s, c, k);
        var s1 := SetP(s, c, p.(holding := p.holding[k := p.holding[k].(left := p.holding[k].left - 1)]));
        FrameInherits(s, s1);
        ReleasesInherit(s1, c, k + 1);
      } else {
        GiveBackFacts(Pip, s, c, k);
        GiveBackKeeps(Pip, s, c, k);
        GivenBackInherits(s, c, k);
        ReleasesInherit(GiveBack(Pip, s, c, k), c, k);
      }
    }
  }

  ghost predicate RunFair(d: Sched, c: nat)
    requires Core(d) && Wakes(d, d.current) && d.current == Some(c) && P(d, c).status == Running && Alive(P(d, c))
  {
    AcquireKeeps(Pip, d, c, 0);
    var (s1, ok) := AcquireFrom(Pip, d, c, 0);
    && AcquiresFair(d, c, 0)
    && (if !ok then true
        else
          AgeKeeps(s1, c);
          ReleasesFair(SetP(s1, c, P(s1, c).(age := P(s1, c).age + 1)), c, 0))
  }

  /** Every acquire and release of the coming iteration is fair. */
  ghost predicate TickFair(s: Sched)
    requires Inv(s)
  {
    DispatchKeeps(Pip, s);
    var d := Dispatch(Pip, s);
    d.current.None? || RunFair(d, d.current.value)
  }

  lemma RunInherits(d: Sched, c: nat)
    requires Core(d) && Wakes(d, d.current) && d.current == Some(c) && P(d, c).status == Running && Alive(P(d, c))
    requires AllInherits(d) && RunFair(d, c)
    ensures AllInherits(RunCurrent(Pip, d, c))
  {
    hide AcquireFrom, ReleaseFrom, Core, Wakes, Releasing, AllInherits, AcquiresFair, ReleasesFair;
    AcquireKeeps(Pip, d, c, 0);
    AcquiresInherit(d, c, 0);
    var (s1, ok) := AcquireFrom(Pip, d, c, 0);
    if ok {
      AgeKeeps(s1, c);
      var s2 := SetP(s1, c, P(s1, c).(age := P(s1, c).age + 1));
      FrameInherits(s1, s2);
      ReleasesInherit(s2, c, 0);
    }
  }

  lemma TickInherits(s: Sched)
    requires Inv(s) && AllInherits(s) && TickFair(s)
    ensures AllInherits(Tick(Pip, s))
  {
    hide Dispatch, RunCurrent, Core, Wakes, AllInherits, RunFair;
    DispatchKeeps(Pip, s);
    DispatchLives(Pip, s);
    DispatchTop(Pip, s);
    var d := Dispatch(Pip, s);
    FrameInherits(s, d);
    if d.current.Some? {
      RunInherits(d, d.current.value);
    }
    var ran := if d.current.None? then d else RunCurrent(Pip, d, d.current.value);
    FrameInherits(ran, ran.(ticks := d.ticks + 1));
  }

  ghost predicate FairFor(s: Sched, n: nat)
    requires Inv(s)
    decreases n
  {
    n == 0 || (TickKeeps(Pip, s); TickFair(s) && FairFor(Tick(Pip, s), n - 1))
  }

  /** Exact inheritance in every state of a run whose steps are fair, whatever is held at once. */
  lemma {:induction false} FairRunsInherit(s: Sched, n: nat)
    requires Inv(s) && AllInherits(s) && FairFor(s, n)
    ensures Inv(Ticks(Pip, s, n)) && AllInherits(Ticks(Pip, s, n))
    decreases n
  {
    hide Tick, Inv, AllInherits, TickFair;
    if n > 0 {
      TickKeeps(Pip, s);
      TickInherits(s);
      FairRunsInherit(Tick(Pip, s), n - 1);
    }
  }

  /** From a loaded script. */
  lemma FairScriptsInherit(s: Sched, n: nat)
    requires Inv(s) && Loaded(s) && FairFor(s, n)
    ensures AllInherits(Ticks(Pip, s, n))
  {
    hide Inv, Loaded, FairFor, Ticks, AllInherits;
    LoadedInherits(s);
    FairRunsInherit(s, n);
  }

  /** With one resource at a time this is the inheritance proved there, resource by resource. */
  lemma SinglesInherit(s: Sched)
    requires Core(s) && Obey(OneByOne, s)
    ensures AllInherits(s) <==> BaseUnlessHolding(s) && AllInherit(s)
  {
    hide Queues, AllSane;
    forall i | 0 <= i < |s.procs|
      ensures P(s, i).holding == [] ==> forall w: nat :: !WaitsOn(s, w, i)
      ensures P(s, i).holding != [] ==>
        var r := P(s, i).holding[0].res;
        s.res[r].owner == Some(i) && forall w: nat :: WaitsOn(s, w, i) <==> w in s.res[r].waitq
    {
      assert OneAtATime(P(s, i));
      forall x: ResId | s.res[x].owner == Some(i)
        ensures P(s, i).holding != [] && P(s, i).holding[0].res == x
      {
        assert Holds(s, i, x);
      }
    }
    forall i | 0 <= i < |s.procs|
      ensures P(s, i).holding == [] ==> (Inherits(s, i) <==> P(s, i).prio == P(s, i).prioOrig)
      ensures P(s, i).holding != [] ==> (Inherits(s, i) <==> InheritsFrom(s, i, P(s, i).holding[0].res))
    {
    }
    forall r: ResId | s.res[r].owner.Some?
      ensures var o := s.res[r].owner.value; o < |s.procs| && P(s, o).holding != [] && P(s, o).holding[0].res == r
    {
      assert Holds(s, s.res[r].owner.value, r) && OneAtATime(P(s, s.res[r].owner.value));
    }
    hide Inherits, InheritsFrom;
    if AllInherits(s) {
      forall r: ResId | s.res[r].owner.Some?
        ensures InheritsFrom(s, s.res[r].owner.value, r)
      {
        assert Inherits(s, s.res[r].owner.value);
      }
    }
    if BaseUnlessHolding(s) && AllInherit(s) {
      forall i | 0 <= i < |s.procs|
        ensures Inherits(s, i)
      {
        assert P(s, i).holding != [] ==> InheritsFrom(s, i, P(s, i).holding[0].res);
      }
    }
  }
}
