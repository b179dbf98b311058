/** The wait queues over whole runs: who blocks stands behind everybody who waits already, who is woken is
    the first one under the first-come-first-served callbacks and the first of the most important ones under
    the priority callbacks, and nobody else gets past a waiter. */
module SchedWaiting {
  import opened Common
  import opened SchedModel
  import opened SchedInvariant
  import opened SchedStep
  import opened SchedPreemptive
  import opened SchedRuns
  import opened SchedAging
  import opened SchedClaims
  import opened SchedDispatch

  /** The processes other than `c` keep all but their status and priority. */
  ghost predicate Aside(s: Sched, s': Sched, c: nat) {
    && |s'.procs| == |s.procs|
    && forall i: nat :: i != c ==> P(s', i) == P(s, i).(status := P(s', i).status, prio := P(s', i).prio)
  }

  ghost predicate SamePrios(s: Sched, s': Sched) { forall i: nat :: P(s', i).prio == P(s, i).prio }

  // ---------------------------------------------------------------- one iteration

  /** What a process that acquires leaves of a resource: it owns it if it was free, or waits at the tail. */
  ghost predicate Acquired(s: Sched, s': Sched, c: nat, ok: bool, r: ResId) {
    var x, x' := s.res[r], s'.res[r];
    && (x'.owner == x.owner || (x.owner == None && x'.owner == Some(c)))
    && (x'.waitq == x.waitq || (!ok && x'.owner.Some? && x'.waitq == x.waitq + [c]))
  }

  /** What the acquire loop does, to every resource and to those who do not run. */
  ghost predicate Acquires(policy: Policy, s: Sched, s': Sched, c: nat, ok: bool) {
    && (forall r: ResId :: Acquired(s, s', c, ok, r))
    && Aside(s, s', c) && s'.ready == s.ready
    && (ok ==> forall i: nat :: i != c ==> P(s', i) == P(s, i))
    && (policy !in {Pcp, Pip} ==> SamePrios(s, s'))
  }

  /** A process that finds a resource owned stands behind all who wait for it, whatever the policy; PIP
      raises the owner to its priority if that is higher, and no other priority changes. */
  lemma BlocksBehind(policy: Policy, s: Sched, c: nat, r: ResId)
    requires c < |s.procs| && s.res[r].owner.Some?
    ensures var (s', ok) := Acquire(policy, s, c, r);
      && !ok && Acquires(policy, s, s', c, ok)
      && (forall i :: 0 <= i < |s.procs| ==>
            P(s', i).prio == if policy == Pip && s.res[r].owner == Some(i) && P(s, i).prio < P(s, c).prio
                             then P(s, c).prio else P(s, i).prio)
      && s'.res == s.res[r := Resource(s.res[r].owner, s.res[r].waitq + [c])] && P(s', c).status == Blocked
  {
  }

  lemma OwnAcquires(policy: Policy, s: Sched, c: nat, k: nat, s': Sched, ok: bool)
    requires c < |s.procs| && k < |P(s, c).pending| && s.res[P(s, c).pending[k].res].owner == None
    requires Acquires(policy, Own(policy, s, c, k), s', c, ok)
    ensures Acquires(policy, s, s', c, ok) && s'.res[P(s, c).pending[k].res].owner == Some(c)
  {
    hide Own;
    OwnFacts(policy, s, c, k);
    var s1, x := Own(policy, s, c, k), P(s, c).pending[k].res;
    forall r: ResId
      ensures Acquired(s, s', c, ok, r)
    {
      assert Acquired(s1, s', c, ok, r) && (r != x ==> s1.res[r] == s.res[r]);
    }
    assert Acquired(s1, s', c, ok, x);
  }

  lemma {:induction false} AcquireWaits(policy: Policy, s: Sched, c: nat, k: nat)
    requires c < |s.procs|
    ensures var (s', ok) := AcquireFrom(policy, s, c, k);
      && Acquires(policy, s, s', c, ok)
      && var r := DueFrom(P(s, c), k); r.Some? && s.res[r.value].owner == None ==> s'.res[r.value].owner == Some(c)
    decreases |P(s, c).pending| - k
  {
    var p := P(s, c);
    if k < |p.pending| {
      if p.pending[k].at != p.age {
        AcquireWaits(policy, s, c, k + 1);
      } else if s.res[p.pending[k].res].owner.None? {
        hide Own, Acquires;
        OwnFacts(policy, s, c, k);
        OwnUnfolds(policy, s, c, k);
        var s1 := Own(policy, s, c, k);
        AcquireWaits(policy, s1, c, k);
        var (s', ok) := AcquireFrom(policy, s1, c, k);
        OwnAcquires(policy, s, c, k, s', ok);
      } else {
        hide Acquire, Acquires;
        BlocksBehind(policy, s, c, p.pending[k].res);
      }
    }
  }

  /** Waiter `j` has left the queue for the ready queue: the first one, or the first of the most important. */
  ghost predicate Leaves(policy: Policy, s: Sched, s': Sched, r: ResId, j: nat)
    requires j < |s.res[r].waitq|
  {
    var q := s.res[r].waitq;
    && s'.res[r].waitq == Without(q, j) && q[j] in s'.ready
    && if policy in {Prio, Pa, Pcp, Pip} then FirstHighest(s, q, j) else policy in {Fifo, Sjf, Stcf, Rr} && j == 0
  }

  /** The resource is free again, and one waiter less waits for it. */
  ghost predicate Freed(policy: Policy, s: Sched, s': Sched, r: ResId) {
    && s'.res[r].owner == None
    && if s.res[r].waitq == [] then s'.res[r].waitq == []
       else exists j :: 0 <= j < |s.res[r].waitq| && Leaves(policy, s, s', r, j)
  }

  /** What one release does to a resource and to those who do not run. */
  lemma GiveBackWaits(policy: Policy, s: Sched, c: nat, k: nat, r: ResId)
    requires Queues(s) && RunsAs(s, c) && k < |P(s, c).holding|
    ensures var s' := GiveBack(policy, s, c, k);
      && (if P(s, c).holding[k].res == r then Freed(policy, s, s', r) else s'.res[r] == s.res[r])
      && Aside(s, s', c) && (forall i: nat :: i != c ==> P(s', i).prio == P(s, i).prio)
      && P(s', c).holding == Without(P(s, c).holding, k)
      && (policy !in {Pcp, Pip} ==> SamePrios(s, s'))
      && forall w :: w in s.ready ==> w in s'.ready
  {
    hide GiveBack, Queues, FirstHighest;
    GiveBackFacts(policy, s, c, k);
    var s', x := GiveBack(policy, s, c, k), P(s, c).holding[k].res;
    var q := s.res[x].waitq;
    if q != [] {
      var j :| 0 <= j < |q| && Woken(policy, s, s', c, x, j);
      assert s'.ready[|s.ready|] == q[j];
      assert r == x ==> Leaves(policy, s, s', r, j);
    }
  }

  /** What the release loop does: a resource it gives back is freed once, the others are left alone. */
  ghost predicate Releases(policy: Policy, s: Sched, s': Sched, c: nat, r: ResId) {
    && (s'.res[r] == s.res[r] || Freed(policy, s, s', r))
    && Aside(s, s', c) && (forall i: nat :: i != c ==> P(s', i).prio == P(s, i).prio)
    && (policy !in {Pcp, Pip} ==> SamePrios(s, s'))
    && forall w :: w in s.ready ==> w in s'.ready
  }

  ghost predicate NoneHolds(p: Proc, k: nat, r: ResId) {
    forall j :: k <= j < |p.holding| ==> p.holding[j].res != r
  }

  lemma WaitersSame(s: Sched, s1: Sched, q: seq<nat>, j: nat)
    requires j < |q| && forall i :: i in q ==> P(s1, i).prio == P(s, i).prio
    ensures FirstHighest(s1, q, j) == FirstHighest(s, q, j)
  {
    assert forall x :: 0 <= x < |q| ==> q[x] in q;
  }

  lemma CountWaits(policy: Policy, s: Sched, s1: Sched, c: nat, k: nat, r: ResId, s': Sched)
    requires RunsAs(s, c) && k < |P(s, c).holding|
    requires var p := P(s, c);
      s1 == SetP(s, c, p.(holding := p.holding[k := p.holding[k].(left := Dec32(p.holding[k].left))]))
    requires Releases(policy, s1, s', c, r) && c !in s.res[r].waitq
    ensures Releases(policy, s, s', c, r)
    ensures NoneHolds(P(s, c), k, r) ==> NoneHolds(P(s1, c), k + 1, r)
  {
    assert forall i: nat :: i != c ==> P(s1, i) == P(s, i);
    var q := s.res[r].waitq;
    if s'.res[r] != s.res[r] && q != [] {
      var j :| 0 <= j < |q| && Leaves(policy, s1, s', r, j);
      WaitersSame(s, s1, q, j);
      assert Leaves(policy, s, s', r, j);
    }
  }

  /** The release of another resource comes first. */
  lemma FreedElsewhere(policy: Policy, s: Sched, s1: Sched, s': Sched, c: nat, r: ResId)
    requires s1.res[r] == s.res[r] && c !in s.res[r].waitq && forall i: nat :: i != c ==> P(s1, i).prio == P(s, i).prio
    requires s'.res[r] == s1.res[r] || Freed(policy, s1, s', r)
    ensures s'.res[r] == s.res[r] || Freed(policy, s, s', r)
  {
    hide FirstHighest;
    var q := s.res[r].waitq;
    if s'.res[r] != s.res[r] && q != [] {
      var j :| 0 <= j < |q| && Leaves(policy, s1, s', r, j);
      WaitersSame(s, s1, q, j);
      assert Leaves(policy, s, s', r, j);
    }
  }

  /** The release of `r` itself comes first, and no other of `r` follows. */
  lemma FreedHere(policy: Policy, s: Sched, s1: Sched, s': Sched, r: ResId)
    requires Freed(policy, s, s1, r) && s'.res[r] == s1.res[r] && forall w :: w in s1.ready ==> w in s'.ready
    ensures Freed(policy, s, s', r)
  {
    hide FirstHighest;
    var q := s.res[r].waitq;
    if q != [] {
      var j :| 0 <= j < |q| && Leaves(policy, s, s1, r, j);
      assert Leaves(policy, s, s', r, j);
    }
  }

  lemma WithoutNone(s: Sched, s1: Sched, c: nat, k: nat, r: ResId)
    requires HoldingOk(P(s, c), k) && k < |P(s, c).holding| && P(s1, c).holding == Without(P(s, c).holding, k)
    ensures P(s, c).holding[k].res == r ==> NoneHolds(P(s1, c), k, r)
    ensures NoneHolds(P(s, c), k, r) ==> P(s, c).holding[k].res != r && NoneHolds(P(s1, c), k, r)
  {
  }

  lemma NotWaiting(s: Sched, c: nat, r: ResId)
    requires Queues(s) && RunsAs(s, c)
    ensures c !in s.res[r].waitq
  {
  }

  lemma FreedWaits(policy: Policy, s: Sched, s1: Sched, c: nat, k: nat, r: ResId, s': Sched)
    requires Queues(s) && RunsAs(s, c) && k < |P(s, c).holding| && HoldingOk(P(s, c), k)
    requires s1 == GiveBack(policy, s, c, k) && Releases(policy, s1, s', c, r)
    requires NoneHolds(P(s1, c), k, r) ==> s'.res[r] == s1.res[r]
    ensures Releases(policy, s, s', c, r)
    ensures NoneHolds(P(s, c), k, r) ==> s'.res[r] == s.res[r]
  {
    hide GiveBack, Queues, FirstHighest, Freed, NoneHolds, HoldingOk;
    GiveBackWaits(policy, s, c, k, r);
    WithoutNone(s, s1, c, k, r);
    NotWaiting(s, c, r);
    if P(s, c).holding[k].res == r {
      FreedHere(policy, s, s1, s', r);
    } else {
      FreedElsewhere(policy, s, s1, s', c, r);
    }
  }

  lemma NoRelease(policy: Policy, s: Sched, c: nat, r: ResId)
    ensures Releases(policy, s, s, c, r)
  {
  }

  lemma {:induction false} ReleaseWaits(policy: Policy, s: Sched, c: nat, k: nat, r: ResId)
    requires Releasing(s, c, k) && k <= |P(s, c).holding|
    ensures var s' := ReleaseFrom(policy, s, c, k);
      Releases(policy, s, s', c, r) && (NoneHolds(P(s, c), k, r) ==> s'.res[r] == s.res[r])
    decreases |P(s, c).holding| - k
  {
    hide ReleaseFrom, GiveBack, Queues, Owners, Wakes, Releases, NoneHolds;
    ReleaseUnfolds(policy, s, c, k);
    var p := P(s, c);
    if k == |p.holding| {
      NoRelease(policy, s, c, r);
    } else if p.holding[k].left > 1 {
      CountKeeps(s, c, k);
      var s1 := SetP(s, c, p.(holding := p.holding[k := p.holding[k].(left := p.holding[k].left - 1)]));
      ReleaseWaits(policy, s1, c, k + 1, r);
      NotWaiting(s, c, r);
      CountWaits(policy, s, s1, c, k, r, ReleaseFrom(policy, s, c, k));
    } else {
      GiveBackFacts(policy, s, c, k);
      GiveBackKeeps(policy, s, c, k);
      var s1 := GiveBack(policy, s, c, k);
      ReleaseWaits(policy, s1, c, k, r);
      FreedWaits(policy, s, s1, c, k, r, ReleaseFrom(policy, s, c, k));
    }
  }

  /** What one iteration, in which `c` runs, can do to a resource: nothing; `c` takes it; `c` gets blocked and
      joins its queue at the tail; or `c` gives it back, and at most one waiter leaves. */
  ghost predicate Moves(policy: Policy, s: Sched, s': Sched, c: nat, r: ResId) {
    var x, x' := s.res[r], s'.res[r];
    || x' == x
    || (x.owner == None && x' == Resource(Some(c), x.waitq))
    || (x'.owner.Some? && P(s', c).status == Blocked && x'.waitq == x.waitq + [c])
    || Freed(policy, s, s', r)
  }

  /** The running process takes what it is due if that is free; it may be done with it at once. */
  ghost predicate Taken(s: Sched, s': Sched, c: nat) {
    var r := WaitsFor(P(s, c));
    r.Some? && s.res[r.value].owner == None && s.res[r.value].waitq != [] ==> s'.res[r.value] != s.res[r.value]
  }

  /** What an iteration in which `c` runs does to the resources and to the other processes. */
  ghost predicate RunMoves(policy: Policy, s: Sched, s': Sched, c: nat, r: ResId) {
    && Moves(policy, s, s', c, r) && Aside(s, s', c)
    && (policy !in {Pcp, Pip} ==> SamePrios(s, s'))
    && forall w :: w in s.ready ==> w in s'.ready
  }

  lemma FreedAfter(policy: Policy, s: Sched, s1: Sched, s2: Sched, s': Sched, c: nat, r: ResId)
    requires Acquired(s, s1, c, true, r) && s2.res == s1.res && c !in s.res[r].waitq
    requires forall i: nat :: i != c ==> P(s2, i).prio == P(s, i).prio
    requires s'.res[r] == s2.res[r] || Freed(policy, s2, s', r)
    ensures Moves(policy, s, s', c, r)
    ensures s1.res[r].owner.Some? && s.res[r].owner == None && s.res[r].waitq != [] ==> s'.res[r] != s.res[r]
  {
    hide FirstHighest;
    var q := s.res[r].waitq;
    if s'.res[r] != s2.res[r] && q != [] {
      var j :| 0 <= j < |q| && Leaves(policy, s2, s', r, j);
      WaitersSame(s, s2, q, j);
      assert Leaves(policy, s, s', r, j);
    }
  }

  lemma DueIsWaited(p: Proc)
    ensures DueFrom(p, 0) == WaitsFor(p)
  {
  }

  lemma NotJoined(s: Sched, c: nat, r: ResId)
    requires Core(s) && RunsAs(s, c)
    ensures c !in s.res[r].waitq
  {
  }

  lemma SamePriosTwice(policy: Policy, d: Sched, s1: Sched, s2: Sched, s': Sched)
    requires policy !in {Pcp, Pip} ==> SamePrios(d, s1) && SamePrios(s2, s')
    requires forall i: nat :: P(s2, i).prio == P(s1, i).prio
    ensures policy !in {Pcp, Pip} ==> SamePrios(d, s')
  {
  }

  lemma RunWaits(policy: Policy, d: Sched, c: nat, r: ResId)
    requires Core(d) && Wakes(d, Some(c)) && RunsAs(d, c) && Alive(P(d, c))
    ensures var s' := RunCurrent(policy, d, c);
      RunMoves(policy, d, s', c, r) && (WaitsFor(P(d, c)) == Some(r) ==> Taken(d, s', c))
  {
    hide AcquireFrom, ReleaseFrom, Core, Wakes, Releasing, Freed, WaitsFor, DueFrom, SamePrios;
    AcquireKeeps(policy, d, c, 0);
    AcquireWaits(policy, d, c, 0);
    DueIsWaited(P(d, c));
    NotJoined(d, c, r);
    var (s1, ok) := AcquireFrom(policy, d, c, 0);
    assert Acquired(d, s1, c, ok, r);
    if ok {
      AgeKeeps(s1, c);
      var s2 := SetP(s1, c, P(s1, c).(age := P(s1, c).age + 1));
      ReleaseWaits(policy, s2, c, 0, r);
      var s' := ReleaseFrom(policy, s2, c, 0);
      assert forall i: nat :: i != c ==> P(s2, i) == P(s1, i);
      assert P(s2, c).prio == P(s1, c).prio;
      FreedAfter(policy, d, s1, s2, s', c, r);
      SamePriosTwice(policy, d, s1, s2, s');
    }
  }

  lemma SchedulePrios(policy: Policy, f: Sched)
    requires policy != Pa
    ensures Schedule(policy, f).s.procs == f.procs
  {
    hide Best, Shortest;
  }

  lemma AgedPrios(s: Sched)
    requires Inv(s)
    ensures forall i: nat :: P(s, i).status == Blocked ==> P(Dispatch(Pa, s), i).prio == P(s, i).prio
  {
    hide Dispatch, ForkFrom, PaChose, Wakes;
    PaDispatch(s);
    var f := ForkFrom(s, 0);
    assert forall i: nat :: P(f, i) == P(s, i);
    assert ReadyOk(f);
  }

  /** Dispatching changes the priority of nobody, or under aging of nobody who waits. */
  lemma DispatchPrios(policy: Policy, s: Sched)
    requires Inv(s)
    ensures policy != Pa ==> SamePrios(s, Dispatch(policy, s))
    ensures forall i: nat :: P(s, i).status == Blocked ==> P(Dispatch(policy, s), i).prio == P(s, i).prio
  {
    hide Schedule, ForkFrom, Core, Wakes, Retire;
    if policy == Pa {
      AgedPrios(s);
    } else {
      ForkKeeps(s, 0);
      var f := ForkFrom(s, 0);
      SchedulePrios(policy, f);
      var c := Schedule(policy, f);
      RetirePrio(c.s, s.current);
      var r, d := Retire(c.s, s.current), Dispatch(policy, s);
      assert forall i: nat :: P(d, i).prio == P(r, i).prio && P(r, i).prio == P(c.s, i).prio && P(c.s, i) == P(f, i);
    }
  }

  lemma MovesFrame(policy: Policy, s: Sched, d: Sched, s': Sched, e: Sched, c: nat, r: ResId)
    requires Moves(policy, d, s', c, r) && d.res == s.res && e == s'.(ticks := e.ticks)
    requires forall i :: i in s.res[r].waitq ==> P(d, i).prio == P(s, i).prio
    ensures Moves(policy, s, e, c, r)
  {
    hide FirstHighest;
    var q := s.res[r].waitq;
    if Freed(policy, d, s', r) && q != [] {
      var j :| 0 <= j < |q| && Leaves(policy, d, s', r, j);
      WaitersSame(s, d, q, j);
      assert Leaves(policy, s, e, r, j);
    }
  }

  lemma WaitersAreBlocked(s: Sched, r: ResId)
    requires Core(s)
    ensures forall i :: i in s.res[r].waitq ==> P(s, i).status == Blocked && WaitsFor(P(s, i)) == Some(r)
  {
  }

  /** In one iteration a resource stays as it is, or is taken, or the process that ran joins its queue at the
      tail, or it is freed and the waiter the policy picks, judged by the priorities before, becomes ready. */
  lemma TickMoves(policy: Policy, s: Sched, r: ResId)
    requires Inv(s) && Suits(policy, ForkFrom(s, 0))
    ensures var e := Tick(policy, s);
      e.res[r] == s.res[r] || (e.current.Some? && Moves(policy, s, e, e.current.value, r))
  {
    hide Dispatch, RunCurrent, Core, Wakes, Suits, ForkFrom, Moves, WaitsFor;
    SuitingKeeps(policy, s);
    DispatchLives(policy, s);
    DispatchPrios(policy, s);
    var d, e := Dispatch(policy, s), Tick(policy, s);
    DispatchedRuns(d);
    WaitersAreBlocked(s, r);
    if d.current.Some? {
      var c := d.current.value;
      RunKeeps(policy, d, c);
      RunWaits(policy, d, c, r);
      MovesFrame(policy, s, d, RunCurrent(policy, d, c), e, c, r);
    }
  }

  lemma RunnerWasNotBlocked(policy: Policy, s: Sched)
    requires Inv(s) && Suits(policy, ForkFrom(s, 0))
    ensures var d := Dispatch(policy, s); d.current.Some? ==> P(s, d.current.value).status != Blocked
  {
    hide Dispatch, Suits, ForkFrom, Core, Wakes;
    SuitingKeeps(policy, s);
    DispatchLives(policy, s);
  }

  lemma NobodyRuns(policy: Policy, s: Sched)
    ensures Dispatch(policy, s).current == None ==> Tick(policy, s).current == None
  {
    hide Dispatch;
  }

  lemma BlockedWaits(e: Sched, c: nat)
    requires Core(e) && c < |e.procs| && P(e, c).status == Blocked
    ensures var w := WaitsFor(P(e, c)); w.Some? && c in e.res[w.value].waitq
  {
    assert Placed(e, c);
  }

  lemma FreedShrinks(policy: Policy, s: Sched, e: Sched, r: ResId)
    requires Freed(policy, s, e, r)
    ensures forall i :: i in e.res[r].waitq ==> i in s.res[r].waitq
  {
    hide FirstHighest;
    var q := s.res[r].waitq;
    if q != [] {
      var j :| 0 <= j < |q| && Leaves(policy, s, e, r, j);
      assert e.res[r].waitq == Without(q, j);
    }
  }

  lemma OnlyJoinersAreNew(policy: Policy, s: Sched, e: Sched, c: nat, r: ResId)
    requires e.res[r] == s.res[r] || Moves(policy, s, e, c, r)
    requires c in e.res[r].waitq && c !in s.res[r].waitq
    ensures e.res[r].owner.Some? && e.res[r].waitq == s.res[r].waitq + [c]
  {
    hide Freed;
    if Freed(policy, s, e, r) {
      FreedShrinks(policy, s, e, r);
    }
  }

  lemma CurrentInRange(e: Sched)
    requires Core(e)
    ensures e.current.Some? ==> e.current.value < |e.procs|
  {
  }

  /** A process that gets blocked stands behind all who were waiting for the same resource, whatever the
      policy; and the resource has an owner. */
  lemma BlockedIsLast(policy: Policy, s: Sched)
    requires Inv(s) && Suits(policy, ForkFrom(s, 0))
    ensures var e := Tick(policy, s);
      e.current.Some? && P(e, e.current.value).status == Blocked ==>
        var w := WaitsFor(P(e, e.current.value));
        w.Some? && e.res[w.value].owner.Some? && e.res[w.value].waitq == s.res[w.value].waitq + [e.current.value]
  {
    hide Dispatch, Tick, Suits, ForkFrom, Core, Wakes, Moves, WaitsFor;
    SuitingKeeps(policy, s);
    RunnerWasNotBlocked(policy, s);
    NobodyRuns(policy, s);
    var d, e := Dispatch(policy, s), Tick(policy, s);
    if d.current.Some? {
      var c := d.current.value;
      RunningTick(policy, s, c);
      if P(e, c).status == Blocked {
        CurrentInRange(e);
        BlockedWaits(e, c);
        var r := WaitsFor(P(e, c)).value;
        WaitersAreBlocked(s, r);
        TickMoves(policy, s, r);
        OnlyJoinersAreNew(policy, s, e, c, r);
      }
    }
  }

  // ---------------------------------------------------------------- nobody gets past a waiter

  lemma BeforeWithoutOne(q: seq<nat>, j: nat, a: nat, b: nat)
    requires NoDup(q) && a < b < |q| && j < |q|
    ensures j != a && j != b ==> Before(Without(q, j), q[a], q[b])
    ensures q[j] !in Without(q, j)
    ensures j != b ==> q[b] in Without(q, j)
  {
    var w := Without(q, j);
    assert j != b ==> w[if b < j then b else b - 1] == q[b];
    assert j != a ==> w[if a < j then a else a - 1] == q[a];
    WithoutMembers(q, j);
  }

  lemma BeforeLeaves(policy: Policy, s: Sched, e: Sched, r: ResId, j: nat, x: nat, y: nat)
    requires j < |s.res[r].waitq| && Leaves(policy, s, e, r, j)
    requires Before(s.res[r].waitq, x, y) && NoDup(s.res[r].waitq) && x in e.res[r].waitq
    ensures y in e.res[r].waitq ==> Before(e.res[r].waitq, x, y)
    ensures y !in e.res[r].waitq ==> policy in {Prio, Pa, Pcp, Pip} && P(s, x).prio < P(s, y).prio
  {
    hide NoDup, Without;
    var q := s.res[r].waitq;
    var a, b :| 0 <= a < b < |q| && q[a] == x && q[b] == y;
    BeforeWithoutOne(q, j, a, b);
  }

  /** While `x` waits, whoever stands behind it stays behind it, or is woken for being more important. */
  lemma BeforeNext(policy: Policy, s: Sched, e: Sched, c: nat, r: ResId, x: nat, y: nat)
    requires Moves(policy, s, e, c, r) || e.res[r] == s.res[r]
    requires Before(s.res[r].waitq, x, y) && NoDup(s.res[r].waitq) && x in e.res[r].waitq
    ensures y in e.res[r].waitq ==> Before(e.res[r].waitq, x, y)
    ensures y !in e.res[r].waitq ==> policy in {Prio, Pa, Pcp, Pip} && P(s, x).prio < P(s, y).prio
  {
    hide Leaves, NoDup, FirstHighest;
    var q, q' := s.res[r].waitq, e.res[r].waitq;
    var a, b :| 0 <= a < b < |q| && q[a] == x && q[b] == y;
    if q' == q + [c] {
      assert q'[a] == x && q'[b] == y;
    } else if q' != q {
      var j :| 0 <= j < |q| && Leaves(policy, s, e, r, j);
      BeforeLeaves(policy, s, e, r, j, x, y);
    }
  }

  ghost predicate WaitsAt(policy: Policy, s: Sched, n: nat, r: ResId, x: nat) {
    x in Ticks(policy, s, n).res[r].waitq
  }

  lemma QueueNoDup(s: Sched, r: ResId)
    requires Inv(s)
    ensures NoDup(s.res[r].waitq)
  {
  }

  lemma TickBefore(policy: Policy, s: Sched, r: ResId, x: nat, y: nat)
    requires Inv(s) && Suits(policy, ForkFrom(s, 0)) && Before(s.res[r].waitq, x, y)
    ensures var e := Tick(policy, s);
      x in e.res[r].waitq ==>
        if y in e.res[r].waitq then Before(e.res[r].waitq, x, y)
        else policy in {Prio, Pa, Pcp, Pip} && P(s, x).prio < P(s, y).prio
  {
    hide Tick, ForkFrom, Suits, Moves, Before;
    TickMoves(policy, s, r);
    var e := Tick(policy, s);
    QueueNoDup(s, r);
    if x in e.res[r].waitq {
      BeforeNext(policy, s, e, if e.current.Some? then e.current.value else 0, r, x, y);
    }
  }

  lemma WaitsShift(policy: Policy, s: Sched, m: nat, r: ResId, x: nat)
    ensures WaitsAt(policy, Tick(policy, s), m, r, x) == WaitsAt(policy, s, m + 1, r, x)
  {
    hide Tick;
  }

  /** Two processes that go on waiting for the same resource keep their order. */
  lemma {:induction false} OrderOfArrival(policy: Policy, s: Sched, n: nat, r: ResId, x: nat, y: nat)
    requires Inv(s) && SuitsAlong(policy, s) && Before(s.res[r].waitq, x, y)
    requires forall m :: 0 <= m <= n ==> WaitsAt(policy, s, m, r, x) && WaitsAt(policy, s, m, r, y)
    ensures Before(Ticks(policy, s, n).res[r].waitq, x, y)
    decreases n
  {
    hide Tick, Inv, Suits, SuitsAlong, ForkFrom, Before;
    if n > 0 {
      SuitsNext(policy, s);
      SuitingKeeps(policy, s);
      TickBefore(policy, s, r, x, y);
      assert WaitsAt(policy, s, 1, r, x) && WaitsAt(policy, s, 1, r, y);
      assert Ticks(policy, s, 1) == Tick(policy, s);
      forall m | 0 <= m <= n - 1
        ensures WaitsAt(policy, Tick(policy, s), m, r, x) && WaitsAt(policy, Tick(policy, s), m, r, y)
      {
        WaitsShift(policy, s, m, r, x);
        WaitsShift(policy, s, m, r, y);
      }
      OrderOfArrival(policy, Tick(policy, s), n - 1, r, x, y);
    }
  }

  /** After `m` iterations both wait, and `y`, the more important one, is woken by the next one. */
  ghost predicate PassedBy(policy: Policy, s: Sched, m: nat, r: ResId, x: nat, y: nat) {
    && WaitsAt(policy, s, m, r, x) && WaitsAt(policy, s, m, r, y) && !WaitsAt(policy, s, m + 1, r, y)
    && P(Ticks(policy, s, m), x).prio < P(Ticks(policy, s, m), y).prio
  }

  ghost predicate WokenBefore(policy: Policy, s: Sched, n: nat, r: ResId, x: nat) {
    exists m :: 0 < m < n && !WaitsAt(policy, s, m, r, x)
  }

  ghost predicate PassedBefore(policy: Policy, s: Sched, n: nat, r: ResId, x: nat, y: nat) {
    exists m :: 0 <= m < n && PassedBy(policy, s, m, r, x, y)
  }

  lemma WokenShift(policy: Policy, s: Sched, n: nat, r: ResId, x: nat, y: nat)
    requires n > 0
    ensures WokenBefore(policy, Tick(policy, s), n - 1, r, x) ==> WokenBefore(policy, s, n, r, x)
    ensures PassedBefore(policy, Tick(policy, s), n - 1, r, x, y) ==> PassedBefore(policy, s, n, r, x, y)
  {
    hide Tick, WaitsAt;
    var e := Tick(policy, s);
    if WokenBefore(policy, e, n - 1, r, x) {
      var m :| 0 < m < n - 1 && !WaitsAt(policy, e, m, r, x);
      WaitsShift(policy, s, m, r, x);
    }
    if PassedBefore(policy, e, n - 1, r, x, y) {
      var m :| 0 <= m < n - 1 && PassedBy(policy, e, m, r, x, y);
      WaitsShift(policy, s, m, r, x);
      WaitsShift(policy, s, m, r, y);
      WaitsShift(policy, s, m + 1, r, y);
      assert Ticks(policy, e, m) == Ticks(policy, s, m + 1);
      assert PassedBy(policy, s, m + 1, r, x, y);
    }
  }

  lemma OnlyOneLeaves(policy: Policy, s: Sched, r: ResId, x: nat, y: nat)
    requires Inv(s) && Suits(policy, ForkFrom(s, 0)) && Before(s.res[r].waitq, x, y)
    ensures var q := Tick(policy, s).res[r].waitq; x in q || y in q
  {
    hide Tick, ForkFrom, Suits, FirstHighest;
    TickMoves(policy, s, r);
    QueueNoDup(s, r);
    hide Inv;
    var q, e := s.res[r].waitq, Tick(policy, s);
    var a, b :| 0 <= a < b < |q| && q[a] == x && q[b] == y;
    if e.res[r] != s.res[r] && Freed(policy, s, e, r) {
      var j :| 0 <= j < |q| && Leaves(policy, s, e, r, j);
      BeforeWithoutOne(q, j, a, b);
      WithoutMembers(q, j);
    }
  }

  /** First come, first served: a process is woken after all that were waiting before it; under the policies
      that wake by priority only a strictly more important one is woken while an earlier one waits on. */
  lemma {:induction false} FirstComeFirstServed(policy: Policy, s: Sched, n: nat, r: ResId, x: nat, y: nat)
    requires Inv(s) && SuitsAlong(policy, s) && Before(s.res[r].waitq, x, y)
    requires !WaitsAt(policy, s, n, r, y)
    ensures WokenBefore(policy, s, n, r, x)
            || (policy in {Prio, Pa, Pcp, Pip} && PassedBefore(policy, s, n, r, x, y))
    decreases n
  {
    hide Tick, Inv, Suits, SuitsAlong, ForkFrom;
    assert WaitsAt(policy, s, 0, r, x) && WaitsAt(policy, s, 0, r, y);
    SuitsNext(policy, s);
    SuitingKeeps(policy, s);
    TickBefore(policy, s, r, x, y);
    assert Ticks(policy, s, 1) == Tick(policy, s);
    hide Before;
    if !WaitsAt(policy, s, 1, r, y) {
      if WaitsAt(policy, s, 1, r, x) {
        assert PassedBy(policy, s, 0, r, x, y);
      } else {
        OnlyOneLeaves(policy, s, r, x, y);
      }
    } else if WaitsAt(policy, s, 1, r, x) {
      FirstComeFirstServed(policy, Tick(policy, s), n - 1, r, x, y);
      WokenShift(policy, s, n, r, x, y);
    }
  }

  // ---------------------------------------------------------------- priorities, and whom a free resource is for

  lemma WaitsForSame(s: Sched, d: Sched)
    requires SameLives(s, d, None) && forall i: nat :: P(d, i).pending == P(s, i).pending
    ensures forall i: nat :: WaitsFor(P(d, i)) == WaitsFor(P(s, i))
  {
    forall i: nat
      ensures WaitsFor(P(d, i)) == WaitsFor(P(s, i))
    {
      assert SameClock(P(s, i), P(d, i));
      DueIgnoresPrio(P(s, i), P(d, i), 0);
    }
  }

  lemma WaitsForAside(d: Sched, e: Sched, c: nat)
    requires Aside(d, e, c)
    ensures forall i: nat :: i != c ==> WaitsFor(P(e, i)) == WaitsFor(P(d, i))
  {
    forall i: nat | i != c
      ensures WaitsFor(P(e, i)) == WaitsFor(P(d, i))
    {
      DueIgnoresPrio(P(d, i), P(e, i), 0);
    }
  }

  /** Dispatching takes nobody off the ready queue but the one that runs. */
  lemma ReadyStays(policy: Policy, s: Sched)
    requires Inv(s) && Suits(policy, ForkFrom(s, 0))
    ensures var d := Dispatch(policy, s); forall i :: i in s.ready && d.current != Some(i) ==> i in d.ready
  {
    hide Dispatch, Suits, ForkFrom, Wakes, Owners, WaitqOk;
    SuitingKeeps(policy, s);
    DispatchLives(policy, s);
    ForkLeaves(s, 0);
    var d := Dispatch(policy, s);
    forall i | i in s.ready && d.current != Some(i)
      ensures i in d.ready
    {
      assert Placed(d, i) && Sane(P(d, i)) && Sane(P(s, i)) && SameClock(P(s, i), P(d, i));
    }
  }

  /** The processes that do not run keep what they wait for; nobody leaves the ready queue but the one that
      runs; and that one takes what it waits for. */
  lemma TickAside(policy: Policy, s: Sched, r: ResId)
    requires Inv(s) && Suits(policy, ForkFrom(s, 0))
    ensures var d, e := Dispatch(policy, s), Tick(policy, s);
      && (forall i: nat :: d.current != Some(i) ==> WaitsFor(P(e, i)) == WaitsFor(P(s, i)))
      && (forall i :: i in s.ready && d.current != Some(i) ==> i in e.ready)
      && (d.current.Some? && WaitsFor(P(s, d.current.value)) == Some(r) ==> Taken(s, e, d.current.value))
      && (policy !in {Pa, Pcp, Pip} ==> SamePrios(s, e))
  {
    hide Dispatch, RunCurrent, Core, Wakes, Suits, ForkFrom, Moves, WaitsFor;
    SuitingKeeps(policy, s);
    DispatchLives(policy, s);
    DispatchPrios(policy, s);
    var d, e := Dispatch(policy, s), Tick(policy, s);
    DispatchedRuns(d);
    ReadyStays(policy, s);
    WaitsForSame(s, d);
    if d.current.Some? {
      var c := d.current.value;
      var ran := RunCurrent(policy, d, c);
      RunWaits(policy, d, c, r);
      WaitsForAside(d, ran, c);
      assert forall i: nat :: P(e, i) == P(ran, i);
    } else {
      assert forall i: nat :: P(e, i) == P(d, i);
    }
  }

  /** No policy but aging, the ceiling and inheritance touches a priority. */
  lemma {:induction false} PrioritiesStand(policy: Policy, s: Sched, n: nat)
    requires policy in {Fifo, Sjf, Stcf, Rr, Prio} && Inv(s) && SuitsAlong(policy, s)
    ensures SamePrios(s, Ticks(policy, s, n))
    decreases n
  {
    hide Tick, Inv, Suits, SuitsAlong, ForkFrom;
    if n > 0 {
      SuitsNext(policy, s);
      SuitingKeeps(policy, s);
      TickAside(policy, s, 0);
      PrioritiesStand(policy, Tick(policy, s), n - 1);
    }
  }

  /** The free resource `r` is what a ready process waits for that is at least as important as all who are
      left in its queue. */
  ghost predicate Promised(s: Sched, r: ResId) {
    exists w :: w in s.ready && WaitsFor(P(s, w)) == Some(r)
                && forall x :: x in s.res[r].waitq ==> P(s, x).prioOrig <= P(s, w).prioOrig
  }

  ghost predicate AllPromised(s: Sched) {
    forall r: ResId :: s.res[r].owner == None && s.res[r].waitq != [] ==> Promised(s, r)
  }

  /** Whoever waits has its original priority. */
  ghost predicate Settled(policy: Policy, s: Sched) {
    if policy == Pa then Aged(s) else forall i: nat :: P(s, i).prio == P(s, i).prioOrig
  }

  lemma TickOrigs(policy: Policy, s: Sched)
    requires policy in {Prio, Pa} && Inv(s)
    ensures forall i: nat :: P(Tick(policy, s), i).prioOrig == P(s, i).prioOrig
  {
    hide Dispatch, RunCurrent, Core, Wakes, ForkFrom, AcquireFrom;
    SuitingKeeps(policy, s);
    DispatchLives(policy, s);
    var d, e := Dispatch(policy, s), Tick(policy, s);
    DispatchedRuns(d);
    assert forall i: nat :: SameClock(P(s, i), P(d, i));
    if d.current.Some? {
      var c := d.current.value;
      RunLives(policy, d, c);
      assert forall i: nat :: P(e, i) == P(RunCurrent(policy, d, c), i);
    } else {
      assert forall i: nat :: P(e, i) == P(d, i);
    }
  }

  lemma TickSettled(policy: Policy, s: Sched)
    requires policy in {Prio, Pa} && Inv(s) && Settled(policy, s)
    ensures Settled(policy, Tick(policy, s))
  {
    hide Tick, Inv, ForkFrom;
    if policy == Pa {
      TickAged(s);
    } else {
      TickOrigs(policy, s);
      TickAside(policy, s, 0);
    }
  }

  /** The waiters of a resource have their original priorities. */
  lemma WaitersSettled(policy: Policy, s: Sched, r: ResId)
    requires Inv(s) && Settled(policy, s)
    ensures forall x :: x in s.res[r].waitq ==> P(s, x).prio == P(s, x).prioOrig
  {
  }

  lemma LeaverIsPromised(policy: Policy, s: Sched, e: Sched, r: ResId, j: nat)
    requires policy in {Prio, Pa} && j < |s.res[r].waitq| && Leaves(policy, s, e, r, j) && NoDup(s.res[r].waitq)
    requires forall x :: x in s.res[r].waitq ==> P(s, x).prio == P(s, x).prioOrig
    requires forall x: nat :: P(e, x).prioOrig == P(s, x).prioOrig
    requires WaitsFor(P(e, s.res[r].waitq[j])) == Some(r)
    ensures Promised(e, r)
  {
    hide WaitsFor;
    var q := s.res[r].waitq;
    WithoutMembers(q, j);
    forall x | x in e.res[r].waitq
      ensures P(e, x).prioOrig <= P(e, q[j]).prioOrig
    {
      assert x in q;
      var a :| 0 <= a < |q| && q[a] == x;
    }
  }

  lemma PromiseStays(s: Sched, e: Sched, r: ResId, w: nat)
    requires e.res[r] == s.res[r] && w in e.ready && WaitsFor(P(e, w)) == Some(r)
    requires forall x :: x in s.res[r].waitq ==> P(s, x).prioOrig <= P(s, w).prioOrig
    requires forall x: nat :: P(e, x).prioOrig == P(s, x).prioOrig
    ensures Promised(e, r)
  {
  }

  lemma PromisedTo(s: Sched, r: ResId) returns (w: nat)
    requires Promised(s, r)
    ensures w in s.ready && WaitsFor(P(s, w)) == Some(r)
    ensures forall x :: x in s.res[r].waitq ==> P(s, x).prioOrig <= P(s, w).prioOrig
  {
    w :| w in s.ready && WaitsFor(P(s, w)) == Some(r)
         && forall x :: x in s.res[r].waitq ==> P(s, x).prioOrig <= P(s, w).prioOrig;
  }

  /** An iteration keeps the promise of `r`, or makes one to the process it wakes. */
  lemma TickPromise(policy: Policy, s: Sched, r: ResId)
    requires policy in {Prio, Pa} && Inv(s) && Settled(policy, s) && AllPromised(s)
    ensures var e := Tick(policy, s); e.res[r].owner == None && e.res[r].waitq != [] ==> Promised(e, r)
  {
    hide Tick, ForkFrom, Dispatch, Promised, WaitsFor, FirstHighest, Core, Settled;
    TickMoves(policy, s, r);
    TickAside(policy, s, r);
    TickOrigs(policy, s);
    WaitersSettled(policy, s, r);
    WaitersAreBlocked(s, r);
    QueueNoDup(s, r);
    RunnerWasNotBlocked(policy, s);
    var d, e, q := Dispatch(policy, s), Tick(policy, s), s.res[r].waitq;
    if e.res[r].owner == None && e.res[r].waitq != [] {
      if e.res[r] == s.res[r] {
        var w := PromisedTo(s, r);
        PromiseStays(s, e, r, w);
      } else {
        var j :| 0 <= j < |q| && Leaves(policy, s, e, r, j);
        assert q[j] in q;
        LeaverIsPromised(policy, s, e, r, j);
      }
    }
  }

  /** Under the priority policy and under aging, from a loaded script on: while a free resource is waited for,
      a ready process is about to take it that is at least as important as all who wait on. */
  lemma {:induction false} RunsPromise(policy: Policy, s: Sched, n: nat)
    requires policy in {Prio, Pa} && Inv(s) && Settled(policy, s) && AllPromised(s)
    ensures var e := Ticks(policy, s, n); Inv(e) && Settled(policy, e) && AllPromised(e)
    decreases n
  {
    hide Tick, Inv, Settled, Promised;
    if n > 0 {
      TickKeeps(policy, s);
      TickSettled(policy, s);
      forall r: ResId | Tick(policy, s).res[r].owner == None && Tick(policy, s).res[r].waitq != []
        ensures Promised(Tick(policy, s), r)
      {
        TickPromise(policy, s, r);
      }
      RunsPromise(policy, Tick(policy, s), n - 1);
    }
  }

  lemma LoadedPromises(policy: Policy, s: Sched, n: nat)
    requires policy in {Prio, Pa} && Loaded(s)
    ensures AllPromised(Ticks(policy, s, n))
  {
    hide Ticks, Inv;
    LoadedInv(s);
    LoadedAged(s);
    RunsPromise(policy, s, n);
  }
}
