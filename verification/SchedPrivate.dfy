/** Scripts in which no resource is claimed by two processes, nor twice at a time by one: nobody ever blocks,
    so round robin and shortest time to completion keep the invariant and end with everyone exited. */
module SchedPrivate {
  import opened Common
  import opened SchedModel
  import opened SchedInvariant
  import opened SchedStep
  import opened SchedPreemptive
  import opened SchedRuns

  /** Nobody waits, and every lifespan is below the bound the STCF scan starts from. */
  ghost predicate Calm(s: Sched) {
    && (forall r: ResId :: s.res[r].waitq == [])
    && (forall i :: 0 <= i < |s.procs| ==> P(s, i).lifespan < MAX_TC)
  }

  lemma NobodyIsBlocked(s: Sched, i: nat)
    requires Core(s) && Calm(s) && i < |s.procs|
    ensures P(s, i).status != Blocked
  {
    assert Placed(s, i);
  }

  lemma CalmSuits(policy: Policy, s: Sched)
    requires Inv(s) && Calm(s)
    ensures Suits(policy, ForkFrom(s, 0))
  {
    ForkKeeps(s, 0);
    var f := ForkFrom(s, 0);
    assert forall i: nat :: P(f, i) == P(s, i);
    if f.current.Some? {
      NobodyIsBlocked(f, f.current.value);
    }
    if f.ready != [] {
      assert f.ready[0] in f.ready && Remaining(P(f, f.ready[0])) < MAX_TC;
    }
  }

  lemma HeldIsNotDue(users: seq<nat>, c: nat, p: Proc, h: nat, k: nat)
    requires Sane(p) && Obeys(Private(users), c, p) && h < |p.holding|
    requires k < |p.pending| && p.pending[k].at == p.age
    ensures p.holding[h].res != p.pending[k].res
  {
    var x, y := p.holding[h], p.pending[k];
    assert 1 <= x.left <= x.span && x.left + p.age == x.at + x.span && y.span >= 1;
    assert InOrder(Private(users), x, y);
  }

  lemma SetCalm(s: Sched, c: nat, p: Proc)
    requires Calm(s) && p.lifespan == P(s, c).lifespan
    ensures Calm(SetP(s, c, p))
  {
    assert forall i: nat :: P(SetP(s, c, p), i) == if i == c && i < |s.procs| then p else P(s, i);
  }

  /** A resource that is due is free: its user is the one who is due it, and does not hold it. */
  lemma DueIsFree(users: seq<nat>, s: Sched, c: nat, k: nat)
    requires Core(s) && Obey(Private(users), s) && RunsAs(s, c) && Alive(P(s, c))
    requires k < |P(s, c).pending| && P(s, c).pending[k].at == P(s, c).age
    ensures s.res[P(s, c).pending[k].res].owner == None
  {
    var r := P(s, c).pending[k].res;
    if s.res[r].owner.Some? {
      var o := s.res[r].owner.value;
      assert Holds(s, o, r);
      var h :| 0 <= h < |P(s, o).holding| && P(s, o).holding[h].res == r;
      assert Obeys(Private(users), o, P(s, o)) && Obeys(Private(users), c, P(s, c)) && Sane(P(s, c));
      assert Allowed(Private(users), o, P(s, o).holding[h]) && Allowed(Private(users), c, P(s, c).pending[k]);
      HeldIsNotDue(users, c, P(s, c), h, k);
    }
  }

  lemma {:induction false} AcquireCalm(users: seq<nat>, policy: Policy, s: Sched, c: nat, k: nat)
    requires Core(s) && Wakes(s, Some(c)) && RunsAs(s, c) && Alive(P(s, c)) && NoneDueBefore(P(s, c), k)
    requires Obey(Private(users), s) && Calm(s)
    ensures AcquireFrom(policy, s, c, k).1 && Calm(AcquireFrom(policy, s, c, k).0)
    decreases |P(s, c).pending| - k
  {
    hide Obey, Queues, Owners, Wakes;
    var p := P(s, c);
    if k < |p.pending| {
      if p.pending[k].at != p.age {
        AcquireCalm(users, policy, s, c, k + 1);
      } else {
        DueIsFree(users, s, c, k);
        OwnKeeps(policy, s, c, k);
        OwnObeys(Private(users), policy, s, c, k);
        OwnFacts(policy, s, c, k);
        AcquireCalm(users, policy, Own(policy, s, c, k), c, k);
      }
    }
  }

  lemma {:induction false} ReleaseCalm(policy: Policy, s: Sched, c: nat, k: nat)
    requires Releasing(s, c, k) && k <= |P(s, c).holding| && Calm(s)
    ensures Calm(ReleaseFrom(policy, s, c, k))
    decreases |P(s, c).holding| - k
  {
    hide ReleaseFrom, GiveBack, Queues, Owners, Wakes;
    ReleaseUnfolds(policy, s, c, k);
    var p := P(s, c);
    if k < |p.holding| {
      if p.holding[k].left > 1 {
        CountKeeps(s, c, k);
        var h := p.holding[k].(left := p.holding[k].left - 1);
        SetCalm(s, c, p.(holding := p.holding[k := h]));
        ReleaseCalm(policy, SetP(s, c, p.(holding := p.holding[k := h])), c, k + 1);
      } else {
        GiveBackKeeps(policy, s, c, k);
        GiveBackFacts(policy, s, c, k);
        ReleaseCalm(policy, GiveBack(policy, s, c, k), c, k);
      }
    }
  }

  lemma DispatchCalm(policy: Policy, s: Sched)
    requires Inv(s) && Calm(s)
    ensures Calm(Dispatch(policy, s))
  {
    hide Dispatch, ForkFrom, Suits, Inv;
    CalmSuits(policy, s);
    DispatchLives(policy, s);
    assert forall i: nat :: SameClock(P(s, i), P(Dispatch(policy, s), i));
  }

  lemma TickCalm(users: seq<nat>, policy: Policy, s: Sched)
    requires Inv(s) && Obey(Private(users), s) && Calm(s)
    ensures Calm(Tick(policy, s))
  {
    hide Dispatch, AcquireFrom, ReleaseFrom, Core, Wakes, Releasing, Suits, ForkFrom, Obey;
    CalmSuits(policy, s);
    SuitingKeeps(policy, s);
    DispatchCalm(policy, s);
    DispatchObeys(Private(users), policy, s);
    var d := Dispatch(policy, s);
    DispatchedRuns(d);
    if !Halts(d) && d.current.Some? {
      var c := d.current.value;
      AcquireKeeps(policy, d, c, 0);
      AcquireCalm(users, policy, d, c, 0);
      var s1 := AcquireFrom(policy, d, c, 0).0;
      AgeKeeps(s1, c);
      SetCalm(s1, c, P(s1, c).(age := P(s1, c).age + 1));
      ReleaseCalm(policy, SetP(s1, c, P(s1, c).(age := P(s1, c).age + 1)), c, 0);
      assert forall i :: P(Tick(policy, s), i) == P(RunCurrent(policy, d, c), i);
    } else {
      assert forall i :: P(Tick(policy, s), i) == P(d, i);
    }
  }

  lemma {:induction false} TicksCalm(users: seq<nat>, policy: Policy, s: Sched, n: nat)
    requires Inv(s) && Obey(Private(users), s) && Calm(s)
    ensures var e := Ticks(policy, s, n); Inv(e) && Calm(e) && |e.procs| == |s.procs|
    decreases n
  {
    hide Tick, Inv, Calm, Obey, Suits, ForkFrom;
    if n > 0 {
      CalmSuits(policy, s);
      SuitingKeeps(policy, s);
      TickObeys(Private(users), policy, s);
      TickCalm(users, policy, s);
      TicksCalm(users, policy, Tick(policy, s), n - 1);
    }
  }

  lemma LoadedCalm(s: Sched)
    requires Loaded(s) && forall i :: 0 <= i < |s.procs| ==> P(s, i).lifespan < MAX_TC
    ensures Inv(s) && Calm(s)
  {
    LoadedInv(s);
  }

  lemma AlongFromEach(policy: Policy, s: Sched)
    requires forall n: nat :: Suits(policy, ForkFrom(Ticks(policy, s, n), 0))
    ensures SuitsAlong(policy, s)
  {
    hide Fits, Ticks, ForkFrom;
  }

  /** A loaded script of this kind suits every policy, at every dispatch. */
  lemma PrivateAlong(users: seq<nat>, policy: Policy, s: Sched)
    requires Loaded(s) && Obey(Private(users), s) && forall i :: 0 <= i < |s.procs| ==> P(s, i).lifespan < MAX_TC
    ensures Inv(s) && SuitsAlong(policy, s)
  {
    hide Loaded, Inv, Calm, Obey, Ticks, Suits, ForkFrom;
    LoadedCalm(s);
    forall n: nat
      ensures Suits(policy, ForkFrom(Ticks(policy, s, n), 0))
    {
      TicksCalm(users, policy, s, n);
      CalmSuits(policy, Ticks(policy, s, n));
    }
    AlongFromEach(policy, s);
  }

  lemma AllExited(e: Sched)
    requires Inv(e) && Halts(e) && Calm(e)
    ensures forall i :: 0 <= i < |e.procs| ==> P(e, i).status == Exited && P(e, i).age == P(e, i).lifespan
  {
    forall i | 0 <= i < |e.procs|
      ensures P(e, i).status == Exited && P(e, i).age == P(e, i).lifespan
    {
      NobodyIsBlocked(e, i);
      if P(e, i).status != Exited {
        EndedWaits(e, i);
      }
      assert Sane(P(e, i));
    }
  }

  /** Nobody ever waits, and the loop ends with everyone exited at the age of its lifespan. */
  lemma PrivateEnds(users: seq<nat>, policy: Policy, s: Sched)
    requires Inv(s) && Loaded(s) && Obey(Private(users), s) && SuitsAlong(policy, s)
    requires forall i :: 0 <= i < |s.procs| ==> P(s, i).lifespan < MAX_TC
    ensures forall n: nat, r: ResId :: Ticks(policy, s, n).res[r].waitq == []
    ensures var e := Dispatch(policy, Ticks(policy, s, TicksToEnd(policy, s)));
      && Halts(e) && |e.procs| == |s.procs|
      && forall i :: 0 <= i < |s.procs| ==> P(e, i).status == Exited && P(e, i).age == P(e, i).lifespan
  {
    hide Loaded, Inv, Obey, Ticks, Dispatch, SuitsAlong, TicksToEnd, Suits;
    LoadedCalm(s);
    forall n: nat, r: ResId
      ensures Ticks(policy, s, n).res[r].waitq == []
    {
      TicksCalm(users, policy, s, n);
    }
    var n := TicksToEnd(policy, s);
    RunsEnd(policy, s);
    TicksCalm(users, policy, s, n);
    DispatchCalm(policy, Ticks(policy, s, n));
    AllExited(Dispatch(policy, Ticks(policy, s, n)));
  }
}
