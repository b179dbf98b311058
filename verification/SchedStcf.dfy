/** Shortest time to completion first, on processes without resources and with any start times: at every
    tick as few processes are unfinished as under any preemptive plan, so the sum of the completion times
    is the least. */
module SchedStcf {
  import opened Common
  import opened SchedModel
  import opened SchedInvariant
  import opened SchedStep
  import opened SchedRuns
  import opened SchedPreemptive
  import opened SchedTurns

  // ---------------------------------------------------------------- what is left outside a set

  /** The work `w` outside the positions `skip`. */
  ghost function Rest(w: seq<nat>, skip: set<nat>): nat {
    if w == [] then 0
    else var n := |w| - 1; Rest(w[..n], skip) + if n in skip then 0 else w[n]
  }

  ghost function Plus(w: seq<nat>, p: seq<nat>): (r: seq<nat>)
    requires |w| == |p|
    ensures |r| == |w| && forall i :: 0 <= i < |w| ==> r[i] == w[i] + p[i]
  {
    seq(|w|, i requires 0 <= i < |w| => w[i] + p[i])
  }

  lemma {:induction false} RestUpdate(w: seq<nat>, i: nat, x: nat, skip: set<nat>)
    requires i < |w|
    ensures Rest(w[i := x], skip) == if i in skip then Rest(w, skip) else Rest(w, skip) - w[i] + x
  {
    var n := |w| - 1;
    if i < n {
      RestUpdate(w[..n], i, x, skip);
      assert w[i := x][..n] == w[..n][i := x];
    } else {
      assert w[i := x][..n] == w[..n];
    }
  }

  lemma {:induction false} RestPlus(w: seq<nat>, p: seq<nat>, skip: set<nat>)
    requires |w| == |p|
    ensures Rest(Plus(w, p), skip) == Rest(w, skip) + Rest(p, skip)
  {
    if w != [] {
      var n := |w| - 1;
      RestPlus(w[..n], p[..n], skip);
      assert Plus(w, p)[..n] == Plus(w[..n], p[..n]);
    }
  }

  /** What is skipped at positions without work does not matter, and skipping more leaves less. */
  lemma {:induction false} RestMonotone(w: seq<nat>, skip: set<nat>, skip': set<nat>)
    requires forall i :: 0 <= i < |w| && w[i] > 0 && i in skip ==> i in skip'
    ensures Rest(w, skip') <= Rest(w, skip)
  {
    if w != [] {
      RestMonotone(w[..|w| - 1], skip, skip');
    }
  }

  lemma {:induction false} RestNone(w: seq<nat>, skip: set<nat>)
    ensures Rest(w, skip) == 0 <==> forall i :: 0 <= i < |w| && w[i] > 0 ==> i in skip
  {
    if w != [] {
      var n := |w| - 1;
      RestNone(w[..n], skip);
      assert forall i :: 0 <= i < n ==> w[..n][i] == w[i];
    }
  }

  lemma {:induction false} RestSkipOne(w: seq<nat>, skip: set<nat>, i: nat)
    requires i < |w| && i !in skip
    ensures Rest(w, skip + {i}) == Rest(w, skip) - w[i]
  {
    var n := |w| - 1;
    if i < n {
      RestSkipOne(w[..n], skip, i);
    } else {
      RestMonotone(w[..n], skip, skip + {i});
      RestMonotone(w[..n], skip + {i}, skip);
    }
  }

  lemma {:induction false} RestSwap(w: seq<nat>, skip: set<nat>, i: nat, j: nat)
    requires i < |w| && j < |w| && i in skip && j !in skip
    ensures Rest(w, skip - {i} + {j}) == Rest(w, skip) + w[i] - w[j]
  {
    var n := |w| - 1;
    if i < n && j < n {
      RestSwap(w[..n], skip, i, j);
    } else {
      RestSkipOne(w, skip - {i}, i);
      RestSkipOne(w, skip - {i}, j);
      assert skip - {i} + {i} == skip;
    }
  }

  // ---------------------------------------------------------------- being ahead

  ghost predicate Covers(w: seq<nat>, n: nat, most: nat) {
    exists skip: set<nat> :: |skip| <= n && Rest(w, skip) <= most
  }

  lemma Covering(w: seq<nat>, n: nat, most: nat) returns (skip: set<nat>)
    requires Covers(w, n, most)
    ensures |skip| <= n && Rest(w, skip) <= most
  {
    skip :| |skip| <= n && Rest(w, skip) <= most;
  }

  lemma CoversBy(w: seq<nat>, n: nat, most: nat, skip: set<nat>)
    requires |skip| <= n && Rest(w, skip) <= most
    ensures Covers(w, n, most)
  {
  }

  /** However many processes are left out of `w'`, leaving as many out of `w` leaves no more work. */
  ghost predicate Ahead(w: seq<nat>, w': seq<nat>) {
    |w| == |w'| && forall skip: set<nat> :: Covers(w, |skip|, Rest(w', skip))
  }

  /** A tick spent on a process with the least work left, if there is any work. */
  ghost predicate ServesLeast(w: seq<nat>, v: seq<nat>) {
    if exists i :: 0 <= i < |w| && w[i] > 0
    then exists i ::
      0 <= i < |w| && w[i] > 0 && (forall j :: 0 <= j < |w| && w[j] > 0 ==> w[i] <= w[j]) && v == w[i := w[i] - 1]
    else v == w
  }

  /** A tick spent on any process with work left, or on none. */
  ghost predicate ServesSome(w: seq<nat>, v: seq<nat>) {
    v == w || exists i :: 0 <= i < |w| && w[i] > 0 && v == w[i := w[i] - 1]
  }

  lemma AheadOfItself(w: seq<nat>)
    ensures Ahead(w, w)
  {
    forall skip: set<nat>
      ensures Covers(w, |skip|, Rest(w, skip))
    {
      CoversBy(w, |skip|, Rest(w, skip), skip);
    }
  }

  lemma AtMostOneLess(w: seq<nat>, v: seq<nat>, skip: set<nat>)
    requires ServesSome(w, v)
    ensures Rest(v, skip) >= Rest(w, skip) - 1
  {
    if v != w {
      var i :| 0 <= i < |w| && w[i] > 0 && v == w[i := w[i] - 1];
      RestUpdate(w, i, w[i] - 1, skip);
    }
  }

  /** Some set of the same size leaves one less after the least is served, unless nothing is left. */
  lemma OneLess(w: seq<nat>, v: seq<nat>, skip: set<nat>) returns (t: set<nat>)
    requires ServesLeast(w, v)
    ensures |t| <= |skip| && (Rest(v, t) == 0 || Rest(v, t) <= Rest(w, skip) - 1)
  {
    hide Rest;
    t := skip;
    if exists i :: 0 <= i < |w| && w[i] > 0 {
      var i :| 0 <= i < |w| && w[i] > 0 && (forall j :: 0 <= j < |w| && w[j] > 0 ==> w[i] <= w[j])
        && v == w[i := w[i] - 1];
      if i in skip {
        if j :| 0 <= j < |w| && w[j] > 0 && j !in skip {
          t := skip - {i} + {j};
          RestSwap(w, skip, i, j);
        } else {
          RestNone(v, skip);
        }
      }
      RestUpdate(w, i, w[i] - 1, t);
    } else {
      RestNone(w, skip);
    }
  }

  /** Serving the least never falls behind: the exchange argument. */
  lemma ServingKeepsAhead(w: seq<nat>, v: seq<nat>, w': seq<nat>, v': seq<nat>)
    requires Ahead(w, w') && ServesLeast(w, v) && ServesSome(w', v')
    ensures Ahead(v, v')
  {
    hide Rest, Covers;
    forall skip': set<nat>
      ensures Covers(v, |skip'|, Rest(v', skip'))
    {
      var skip := Covering(w, |skip'|, Rest(w', skip'));
      AtMostOneLess(w', v', skip');
      var t := OneLess(w, v, skip);
      CoversBy(v, |skip'|, Rest(v', skip'), t);
    }
  }

  lemma SmallUnion(a: set<nat>, b: set<nat>, c: set<nat>)
    requires c <= b && |a| <= |c|
    ensures |a + (b - c)| <= |b|
  {
    assert |a + (b - c)| <= |a| + |b - c| && b == c + (b - c);
  }

  /** With newcomers `p` on both sides: those in `skip'` are skipped on both. */
  lemma SkipNewcomers(w: seq<nat>, w': seq<nat>, p: seq<nat>, skip': set<nat>, known: set<nat>, skip: set<nat>)
    requires |w| == |w'| == |p| && forall i :: 0 <= i < |w| && p[i] > 0 ==> w'[i] == 0
    requires known == set i | i in skip' && !(i < |p| && p[i] > 0)
    requires |skip| <= |known| && Rest(w, skip) <= Rest(w', known)
    ensures var t := skip + (skip' - known);
      |t| <= |skip'| && Rest(Plus(w, p), t) <= Rest(Plus(w', p), skip')
  {
    hide Rest, Plus;
    var t := skip + (skip' - known);
    RestMonotone(w, skip, t);
    RestMonotone(p, skip', t);
    RestMonotone(w', skip', known);
    RestPlus(w, p, t);
    RestPlus(w', p, skip');
    SmallUnion(skip, skip', known);
  }

  /** The same newcomers on both sides change nothing. */
  lemma ArrivalsKeepAhead(w: seq<nat>, w': seq<nat>, p: seq<nat>)
    requires Ahead(w, w') && |p| == |w| && forall i :: 0 <= i < |w| && p[i] > 0 ==> w'[i] == 0
    ensures Ahead(Plus(w, p), Plus(w', p))
  {
    hide Rest, Plus, Covers;
    forall skip': set<nat>
      ensures Covers(Plus(w, p), |skip'|, Rest(Plus(w', p), skip'))
    {
      var known := set i | i in skip' && !(i < |p| && p[i] > 0);
      var skip := Covering(w, |known|, Rest(w', known));
      SkipNewcomers(w, w', p, skip', known, skip);
      CoversBy(Plus(w, p), |skip'|, Rest(Plus(w', p), skip'), skip + (skip' - known));
    }
  }

  // ---------------------------------------------------------------- how many are unfinished

  function Unfinished(w: seq<nat>): nat {
    if w == [] then 0
    else var n := |w| - 1; Unfinished(w[..n]) + if w[n] > 0 then 1 else 0
  }

  lemma {:induction false} UnfinishedAreSkipped(w: seq<nat>, skip: set<nat>)
    requires Rest(w, skip) == 0
    ensures Unfinished(w) <= |skip|
  {
    if w != [] {
      var n := |w| - 1;
      RestMonotone(w[..n], skip, skip - {n});
      UnfinishedAreSkipped(w[..n], skip - {n});
      assert n in skip ==> |skip| == |skip - {n}| + 1;
      assert n !in skip ==> skip - {n} == skip;
    }
  }

  lemma {:induction false} UnfinishedSet(w: seq<nat>) returns (skip: set<nat>)
    ensures |skip| == Unfinished(w) && Rest(w, skip) == 0 && forall i :: i in skip ==> i < |w|
  {
    skip := {};
    if w != [] {
      var n := |w| - 1;
      var t := UnfinishedSet(w[..n]);
      skip := if w[n] > 0 then t + {n} else t;
      RestMonotone(w[..n], t, skip);
    }
  }

  lemma AheadFinishesMore(w: seq<nat>, w': seq<nat>)
    requires Ahead(w, w')
    ensures Unfinished(w) <= Unfinished(w')
  {
    var skip' := UnfinishedSet(w');
    var skip := Covering(w, |skip'|, Rest(w', skip'));
    UnfinishedAreSkipped(w, skip);
  }

  // ---------------------------------------------------------------- the simulator as a server

  /** The life each process has left. */
  ghost function Lives(s: Sched): (w: seq<nat>)
    ensures |w| == |s.procs| && forall i :: 0 <= i < |w| ==>
      w[i] == if Alive(P(s, i)) then P(s, i).lifespan - P(s, i).age else 0
  {
    seq(|s.procs|, i requires 0 <= i < |s.procs| => if Alive(P(s, i)) then P(s, i).lifespan - P(s, i).age else 0)
  }

  ghost function Starts(s: Sched): (r: seq<nat>)
    ensures |r| == |s.procs| && forall i :: 0 <= i < |r| ==> r[i] == P(s, i).startsAt
  {
    seq(|s.procs|, i requires 0 <= i < |s.procs| => P(s, i).startsAt)
  }

  /** The work of those that have started by tick `t`. */
  ghost function Arrived(w: seq<nat>, starts: seq<nat>, t: nat): (r: seq<nat>)
    requires |w| == |starts|
    ensures |r| == |w| && forall i :: 0 <= i < |w| ==> r[i] == if starts[i] <= t then w[i] else 0
  {
    seq(|w|, i requires 0 <= i < |w| => if starts[i] <= t then w[i] else 0)
  }

  /** After `n` iterations: who has not started is on the fork queue; the clock is at `n`, unless all are done. */
  ghost predicate OnTime(s: Sched, n: nat) {
    && (forall i :: 0 <= i < |s.procs| ==> (i in s.forkq <==> P(s, i).startsAt >= n))
    && (s.ticks == n || forall i :: 0 <= i < |s.procs| ==> !Alive(P(s, i)))
  }

  lemma {:induction false} ForkSplits(s: Sched, k: nat)
    requires Core(s) && Wakes(s, None)
    ensures forall i :: i in s.forkq && i !in ForkFrom(s, k).forkq ==> P(s, i).startsAt <= s.ticks
    decreases |s.forkq| - k
  {
    hide Core, Wakes;
    if k < |s.forkq| {
      var p := s.forkq[k];
      if P(s, p).startsAt <= s.ticks {
        var s1 := SetStatus(s, p, Ready).(forkq := Without(s.forkq, k), ready := s.ready + [p]);
        ForkOne(s, k);
        ForkSplits(s1, k);
        forall i | i in s.forkq
          ensures i == p || i in s1.forkq
        {
          var j :| 0 <= j < |s.forkq| && s.forkq[j] == i;
          assert j != k ==> s1.forkq[if j < k then j else j - 1] == i;
        }
      } else {
        ForkSplits(s, k + 1);
      }
    }
  }

  /** After forking on time, the fork queue holds exactly those that start later. */
  lemma ForkOnTime(s: Sched, n: nat)
    requires Inv(s) && OnTime(s, n) && s.ticks == n
    ensures forall i :: 0 <= i < |s.procs| ==> (i in ForkFrom(s, 0).forkq <==> P(s, i).startsAt > n)
  {
    hide Core, Wakes, ForkFrom;
    ForkLeaves(s, 0);
    ForkSplits(s, 0);
    var q := ForkFrom(s, 0).forkq;
    forall i | 0 <= i < |s.procs|
      ensures i in q <==> P(s, i).startsAt > n
    {
      if i in q {
        var j :| 0 <= j < |q| && q[j] == i;
      }
    }
  }

  /** Among the processes that have started, an alive one is running or ready. */
  lemma AliveIsPlaced(d: Sched, i: nat)
    requires Dispatched(d) && Claimless(d) && i < |d.procs| && Alive(P(d, i)) && i !in d.forkq
    ensures i in d.ready || d.current == Some(i)
  {
    assert Placed(d, i) && Sane(P(d, i));
    if P(d, i).status == Blocked {
      DueExists(P(d, i), 0);
      assert false;
    }
  }

  lemma DispatchedFacts(d: Sched)
    requires Dispatched(d)
    ensures d.current.None? ==> d.ready == []
    ensures d.current.Some? ==>
      d.current.value < |d.procs| && Alive(P(d, d.current.value)) && d.current.value !in d.forkq
  {
  }

  lemma TickStarts(policy: Policy, s: Sched)
    requires Inv(s) && Claimless(s)
    ensures |Tick(policy, s).procs| == |s.procs| && Starts(Tick(policy, s)) == Starts(s)
  {
    hide Dispatch, Tick, Inv, Claimless, ForkFrom, Dispatched;
    ClaimlessDispatch(policy, s);
    var d := Dispatch(policy, s);
    DispatchedFacts(d);
    ClaimlessAges(policy, s);
    assert forall i: nat :: SameClock(P(s, i), P(d, i));
  }

  lemma ServesAt(w: seq<nat>, v: seq<nat>, i: nat)
    requires i < |w| && w[i] > 0 && (forall j :: 0 <= j < |w| && w[j] > 0 ==> w[i] <= w[j]) && v == w[i := w[i] - 1]
    ensures ServesLeast(w, v)
  {
  }

  lemma ServesNone(w: seq<nat>)
    requires forall i :: 0 <= i < |w| ==> w[i] == 0
    ensures ServesLeast(w, w)
  {
  }

  /** The choice in terms of the work left. */
  lemma ServedBy(s: Sched, e: Sched, n: nat, c: Option<nat>, ready: seq<nat>)
    requires |e.procs| == |s.procs| && (c.None? ==> ready == [])
    requires c.Some? ==> c.value < |s.procs| && Alive(P(s, c.value)) && P(s, c.value).startsAt <= n
    requires c.Some? ==> forall i :: i in ready ==> Remaining(P(s, c.value)) <= Remaining(P(s, i))
    requires forall i :: 0 <= i < |s.procs| && Alive(P(s, i)) && P(s, i).startsAt <= n ==> i in ready || c == Some(i)
    requires forall i: nat ::
      P(e, i).lifespan == P(s, i).lifespan && P(e, i).age == P(s, i).age + if c == Some(i) then 1 else 0
    ensures ServesLeast(Arrived(Lives(s), Starts(s), n), Arrived(Lives(e), Starts(s), n))
    ensures forall i :: 0 <= i < |s.procs| && Starts(s)[i] > n ==> Lives(e)[i] == Lives(s)[i]
  {
    hide Lives, Starts, Arrived, ServesLeast, P;
    var w, v := Arrived(Lives(s), Starts(s), n), Arrived(Lives(e), Starts(s), n);
    if c.Some? {
      var i := c.value;
      assert w[i] > 0 && v == w[i := w[i] - 1];
      forall j | 0 <= j < |w| && w[j] > 0
        ensures w[i] <= w[j]
      {
        assert j in ready || j == i;
      }
      ServesAt(w, v, i);
    } else {
      assert forall i :: 0 <= i < |w| ==> w[i] == 0;
      assert v == w;
      ServesNone(w);
    }
  }

  /** An iteration on time serves, among those that have started, one with the least life left. */
  lemma StcfServes(s: Sched, n: nat)
    requires Inv(s) && Claimless(s) && OnTime(s, n) && s.ticks == n
    ensures var e := Tick(Stcf, s);
      && |e.procs| == |s.procs| && Starts(e) == Starts(s)
      && ServesLeast(Arrived(Lives(s), Starts(s), n), Arrived(Lives(e), Starts(s), n))
      && forall i :: 0 <= i < |s.procs| && Starts(s)[i] > n ==> Lives(e)[i] == Lives(s)[i]
  {
    hide Dispatch, Tick, Inv, Claimless, ForkFrom, Dispatched, Arrived, Starts, Lives, ServesLeast;
    ForkOnTime(s, n);
    ClaimlessDispatch(Stcf, s);
    ClaimlessNext(Stcf, s);
    StcfRunsShortest(s);
    TickStarts(Stcf, s);
    var d := Dispatch(Stcf, s);
    DispatchedFacts(d);
    forall i | 0 <= i < |s.procs| && Alive(P(s, i)) && P(s, i).startsAt <= n
      ensures i in d.ready || d.current == Some(i)
    {
      assert SameClock(P(s, i), P(d, i));
      AliveIsPlaced(d, i);
    }
    ServedBy(s, Tick(Stcf, s), n, d.current, d.ready);
  }

  lemma ForkqAlive(s: Sched)
    requires Inv(s)
    ensures forall i :: i in s.forkq ==> i < |s.procs| && Alive(P(s, i))
  {
    forall i | i in s.forkq
      ensures i < |s.procs| && Alive(P(s, i))
    {
      assert Sane(P(s, i));
    }
  }

  lemma HaltedTicks(policy: Policy, s: Sched)
    ensures Halts(Dispatch(policy, s)) ==> Tick(policy, s) == Dispatch(policy, s)
  {
    hide Dispatch;
  }

  lemma ForkSubset(s: Sched)
    requires Inv(s)
    ensures forall i :: i in ForkFrom(s, 0).forkq ==> i in s.forkq
  {
    hide Core, Wakes, ForkFrom;
    ForkLeaves(s, 0);
  }

  lemma TickForks(policy: Policy, s: Sched)
    requires Inv(s) && Claimless(s)
    ensures var d, e := Dispatch(policy, s), Tick(policy, s);
      && e.forkq == ForkFrom(s, 0).forkq && d.ticks == s.ticks
      && e.ticks == if Halts(d) then s.ticks else s.ticks + 1
    ensures forall i :: i in ForkFrom(s, 0).forkq ==> i in s.forkq
  {
    hide Dispatch, Tick, Inv, Claimless, ForkFrom, Dispatched;
    ClaimlessDispatch(policy, s);
    DispatchedFacts(Dispatch(policy, s));
    ClaimlessAges(policy, s);
    HaltedTicks(policy, s);
    ForkSubset(s);
  }

  /** When the loop ends on time, everybody has started and is done. */
  lemma HaltedIsOver(policy: Policy, s: Sched, n: nat)
    requires Inv(s) && Claimless(s) && OnTime(s, n) && s.ticks == n
    ensures var e := Tick(policy, s);
      Halts(Dispatch(policy, s)) ==> forall i :: 0 <= i < |s.procs| ==> !Alive(P(e, i))
  {
    hide Dispatch, Tick, Inv, Claimless, ForkFrom, Dispatched, OnTime;
    ClaimlessDispatch(policy, s);
    HaltedTicks(policy, s);
    var d := Dispatch(policy, s);
    if Halts(d) {
      forall i | 0 <= i < |s.procs|
        ensures !Alive(P(d, i))
      {
        if Alive(P(d, i)) {
          AliveIsPlaced(d, i);
        }
      }
    }
  }

  /** The clock and the fork queue stay in step, under every policy. */
  lemma OnTimeNext(policy: Policy, s: Sched, n: nat)
    requires Inv(s) && Claimless(s) && OnTime(s, n)
    ensures var e := Tick(policy, s);
      Inv(e) && Claimless(e) && OnTime(e, n + 1) && |e.procs| == |s.procs| && Starts(e) == Starts(s)
    ensures s.ticks != n ==> Lives(Tick(policy, s)) == Lives(s) && forall i :: 0 <= i < |s.procs| ==> Lives(s)[i] == 0
  {
    hide Dispatch, Tick, Inv, Claimless, ForkFrom, Dispatched, Starts, Core, Wakes;
    ClaimlessNext(policy, s);
    TickStarts(policy, s);
    var e := Tick(policy, s);
    TickForks(policy, s);
    ForkqAlive(s);
    ForkqAlive(e);
    if s.ticks == n {
      ForkOnTime(s, n);
      HaltedIsOver(policy, s, n);
    } else {
      forall i | 0 <= i < |s.procs|
        ensures !Alive(P(s, i)) && !Alive(P(e, i))
      {
        assert !Alive(P(s, i)) && P(e, i).age >= P(s, i).age;
      }
    }
    assert forall i :: 0 <= i < |s.procs| ==> P(e, i).startsAt == Starts(e)[i] == Starts(s)[i] == P(s, i).startsAt;
  }

  lemma StcfNext(s: Sched, n: nat)
    requires Inv(s) && Claimless(s) && OnTime(s, n)
    ensures var e := Tick(Stcf, s);
      && |e.procs| == |s.procs|
      && ServesLeast(Arrived(Lives(s), Starts(s), n), Arrived(Lives(e), Starts(s), n))
      && forall i :: 0 <= i < |s.procs| && Starts(s)[i] > n ==> Lives(e)[i] == Lives(s)[i]
  {
    hide Tick, Inv, Claimless, OnTime, ServesLeast, Lives, Starts, Arrived;
    OnTimeNext(Stcf, s, n);
    if s.ticks == n {
      StcfServes(s, n);
    } else {
      ServesNone(Arrived(Lives(s), Starts(s), n));
    }
  }

  // ---------------------------------------------------------------- any preemptive plan

  /** The life left after `plan`, which names a process, or none, for each tick; naming one that has not
      started or is done wastes the tick. */
  ghost function AfterPlan(lives: seq<nat>, starts: seq<nat>, plan: seq<Option<nat>>): (r: seq<nat>)
    requires |lives| == |starts|
    ensures |r| == |lives|
  {
    if plan == [] then lives
    else
      var n := |plan| - 1;
      var w := AfterPlan(lives, starts, plan[..n]);
      match plan[n]
      case None => w
      case Some(i) => if i < |w| && starts[i] <= n && w[i] > 0 then w[i := w[i] - 1] else w
  }

  lemma {:induction false} PlanWaits(lives: seq<nat>, starts: seq<nat>, plan: seq<Option<nat>>, i: nat)
    requires |lives| == |starts| && i < |lives| && starts[i] >= |plan|
    ensures AfterPlan(lives, starts, plan)[i] == lives[i]
  {
    if plan != [] {
      PlanWaits(lives, starts, plan[..|plan| - 1], i);
    }
  }

  lemma ServesNobody(w: seq<nat>)
    ensures ServesSome(w, w)
  {
  }

  lemma ServesOne(w: seq<nat>, starts: seq<nat>, n: nat, i: nat)
    requires |w| == |starts| && i < |w| && w[i] > 0 && starts[i] <= n
    ensures ServesSome(Arrived(w, starts, n), Arrived(w[i := w[i] - 1], starts, n))
  {
    var a := Arrived(w, starts, n);
    assert Arrived(w[i := w[i] - 1], starts, n) == a[i := a[i] - 1];
  }

  /** The last tick of a plan serves some process that has started, or none. */
  lemma PlanServes(lives: seq<nat>, starts: seq<nat>, plan: seq<Option<nat>>)
    requires |lives| == |starts| && plan != []
    ensures var n := |plan| - 1;
      ServesSome(Arrived(AfterPlan(lives, starts, plan[..n]), starts, n),
        Arrived(AfterPlan(lives, starts, plan), starts, n))
  {
    hide ServesSome, Arrived;
    var n := |plan| - 1;
    var w, v := AfterPlan(lives, starts, plan[..n]), AfterPlan(lives, starts, plan);
    ServesNobody(Arrived(w, starts, n));
    if v != w {
      ServesOne(w, starts, n, plan[n].value);
    }
  }

  lemma ArriveNext(w: seq<nat>, starts: seq<nat>, n: nat, p: seq<nat>)
    requires |w| == |starts| == |p|
    requires forall i :: 0 <= i < |w| ==> p[i] == if starts[i] == n + 1 then w[i] else 0
    ensures Arrived(w, starts, n + 1) == Plus(Arrived(w, starts, n), p)
  {
  }

  lemma ArriveAll(w: seq<nat>, starts: seq<nat>, n: nat, p: seq<nat>)
    requires |w| == |starts| == |p|
    requires forall i :: 0 <= i < |w| ==> p[i] == if starts[i] > n then w[i] else 0
    ensures w == Plus(Arrived(w, starts, n), p)
  {
  }

  /** What holds of both after `n` ticks: STCF is ahead, and who has not started is untouched. */
  ghost predicate Racing(lives: seq<nat>, starts: seq<nat>, w: seq<nat>, w': seq<nat>, n: nat) {
    && |lives| == |starts| == |w| == |w'|
    && Ahead(Arrived(w, starts, n), Arrived(w', starts, n))
    && forall i :: 0 <= i < |lives| && starts[i] >= n ==> w[i] == lives[i] && w'[i] == lives[i]
  }

  lemma RaceStep(lives: seq<nat>, starts: seq<nat>, w: seq<nat>, v: seq<nat>, w': seq<nat>, v': seq<nat>, n: nat)
    requires Racing(lives, starts, w, w', n) && |v| == |v'| == |w|
    requires ServesLeast(Arrived(w, starts, n), Arrived(v, starts, n))
    requires ServesSome(Arrived(w', starts, n), Arrived(v', starts, n))
    requires forall i :: 0 <= i < |w| && starts[i] > n ==> v[i] == w[i] && v'[i] == lives[i]
    ensures Racing(lives, starts, v, v', n + 1)
  {
    hide Ahead, ServesLeast, ServesSome, Arrived;
    ServingKeepsAhead(Arrived(w, starts, n), Arrived(v, starts, n), Arrived(w', starts, n), Arrived(v', starts, n));
    var p := seq(|w|, i requires 0 <= i < |w| => if starts[i] == n + 1 then lives[i] else 0);
    ArriveNext(v, starts, n, p);
    ArriveNext(v', starts, n, p);
    ArrivalsKeepAhead(Arrived(v, starts, n), Arrived(v', starts, n), p);
  }

  lemma RaceSizes(lives: seq<nat>, starts: seq<nat>, w: seq<nat>, w': seq<nat>, n: nat)
    requires Racing(lives, starts, w, w', n)
    ensures |lives| == |starts| == |w| == |w'|
  {
  }

  lemma OneTickMore(policy: Policy, s: Sched)
    ensures Ticks(policy, s, 1) == Tick(policy, s)
  {
    assert Ticks(policy, Tick(policy, s), 0) == Tick(policy, s);
  }

  lemma RaceBegins(s: Sched, none: seq<Option<nat>>)
    requires Loaded(s) && none == []
    ensures Inv(s) && OnTime(s, 0)
    ensures Racing(Lives(s), Starts(s), Lives(s), AfterPlan(Lives(s), Starts(s), none), 0)
  {
    hide Ahead, Inv, Lives, Starts, Arrived, WellFormed;
    LoadedInv(s);
    forall i | 0 <= i < |s.procs|
      ensures i in s.forkq
    {
      assert s.forkq[i] == i;
    }
    AheadOfItself(Arrived(Lives(s), Starts(s), 0));
  }

  lemma {:induction false} StcfRaces(s: Sched, plan: seq<Option<nat>>, n: nat)
    requires Loaded(s) && Claimless(s) && n <= |plan|
    ensures var e := Ticks(Stcf, s, n);
      && Inv(e) && Claimless(e) && OnTime(e, n) && |e.procs| == |s.procs| && Starts(e) == Starts(s)
      && Racing(Lives(s), Starts(s), Lives(e), AfterPlan(Lives(s), Starts(s), plan[..n]), n)
    decreases n
  {
    hide Tick, Inv, Claimless, OnTime, Starts, Lives, AfterPlan, Racing, Loaded, Arrived, ServesLeast, ServesSome;
    var lives, starts := Lives(s), Starts(s);
    if n == 0 {
      RaceBegins(s, plan[..0]);
    } else {
      StcfRaces(s, plan, n - 1);
      TicksSplit(Stcf, s, n - 1, 1);
      var e := Ticks(Stcf, s, n - 1);
      OneTickMore(Stcf, e);
      OnTimeNext(Stcf, e, n - 1);
      StcfNext(e, n - 1);
      assert plan[..n][..n - 1] == plan[..n - 1];
      PlanServes(lives, starts, plan[..n]);
      forall i | 0 <= i < |lives| && starts[i] > n - 1
        ensures AfterPlan(lives, starts, plan[..n])[i] == lives[i]
      {
        PlanWaits(lives, starts, plan[..n], i);
      }
      RaceSizes(lives, starts, Lives(e), AfterPlan(lives, starts, plan[..n - 1]), n - 1);
      RaceStep(lives, starts, Lives(e), Lives(Tick(Stcf, e)), AfterPlan(lives, starts, plan[..n - 1]),
               AfterPlan(lives, starts, plan[..n]), n - 1);
    }
  }

  lemma RaceEnds(lives: seq<nat>, starts: seq<nat>, w: seq<nat>, w': seq<nat>, n: nat)
    requires Racing(lives, starts, w, w', n)
    ensures Unfinished(w) <= Unfinished(w')
  {
    hide Ahead, Arrived, Unfinished;
    var p := seq(|w|, i requires 0 <= i < |w| => if starts[i] > n then lives[i] else 0);
    ArriveAll(w, starts, n, p);
    ArriveAll(w', starts, n, p);
    ArrivalsKeepAhead(Arrived(w, starts, n), Arrived(w', starts, n), p);
    AheadFinishesMore(w, w');
  }

  /** After every number of ticks STCF has as few unfinished processes as any plan. */
  lemma StcfFinishesMost(s: Sched, plan: seq<Option<nat>>)
    requires Loaded(s) && Claimless(s)
    ensures Unfinished(Lives(Ticks(Stcf, s, |plan|))) <= Unfinished(AfterPlan(Lives(s), Starts(s), plan))
  {
    hide Ticks, Inv, Claimless, OnTime, Starts, Lives, AfterPlan, Loaded, Unfinished;
    var n := |plan|;
    StcfRaces(s, plan, n);
    assert plan[..n] == plan;
    RaceEnds(Lives(s), Starts(s), Lives(Ticks(Stcf, s, n)), AfterPlan(Lives(s), Starts(s), plan), n);
  }

  /** The tick a policy spends is one of a plan. */
  lemma PolicyServes(policy: Policy, s: Sched, n: nat) returns (c: Option<nat>)
    requires Inv(s) && Claimless(s) && OnTime(s, n)
    ensures |Tick(policy, s).procs| == |s.procs|
    ensures c.None? ==> Lives(Tick(policy, s)) == Lives(s)
    ensures c.Some? ==>
      && c.value < |s.procs| && Starts(s)[c.value] <= n && Lives(s)[c.value] > 0
      && Lives(Tick(policy, s)) == Lives(s)[c.value := Lives(s)[c.value] - 1]
  {
    hide Dispatch, Tick, Inv, Claimless, ForkFrom, OnTime, Dispatched;
    OnTimeNext(policy, s, n);
    if s.ticks != n {
      c := None;
    } else {
      ForkOnTime(s, n);
      ClaimlessDispatch(policy, s);
      ClaimlessNext(policy, s);
      var d := Dispatch(policy, s);
      DispatchedFacts(d);
      c := d.current;
      assert c.Some? ==> SameClock(P(s, c.value), P(d, c.value));
    }
  }

  /** On these scripts every policy follows some plan. */
  lemma {:induction false} PolicyIsPlan(policy: Policy, s: Sched, n: nat) returns (plan: seq<Option<nat>>)
    requires Loaded(s) && Claimless(s)
    ensures |plan| == n && Lives(Ticks(policy, s, n)) == AfterPlan(Lives(s), Starts(s), plan)
    ensures var e := Ticks(policy, s, n);
      Inv(e) && Claimless(e) && OnTime(e, n) && |e.procs| == |s.procs| && Starts(e) == Starts(s)
    decreases n
  {
    hide Tick, Inv, Claimless, OnTime, Starts, Lives, Racing, Loaded;
    if n == 0 {
      plan := [];
      RaceBegins(s, plan);
    } else {
      var most := PolicyIsPlan(policy, s, n - 1);
      TicksSplit(policy, s, n - 1, 1);
      var e := Ticks(policy, s, n - 1);
      OneTickMore(policy, e);
      OnTimeNext(policy, e, n - 1);
      var c := PolicyServes(policy, e, n - 1);
      plan := most + [c];
      assert plan[..n - 1] == most;
    }
  }

  /** No policy of the simulator is ahead of STCF, at any tick. */
  lemma StcfBeatsAll(policy: Policy, s: Sched, n: nat)
    requires Loaded(s) && Claimless(s)
    ensures Unfinished(Lives(Ticks(Stcf, s, n))) <= Unfinished(Lives(Ticks(policy, s, n)))
  {
    hide Ticks, Claimless, Loaded, Lives, Starts, AfterPlan, Unfinished;
    var plan := PolicyIsPlan(policy, s, n);
    StcfFinishesMost(s, plan);
  }

  // ---------------------------------------------------------------- completion times

  /** How many complete after tick `t`. */
  function Later(c: seq<nat>, t: nat): nat {
    if c == [] then 0
    else var n := |c| - 1; Later(c[..n], t) + if c[n] > t then 1 else 0
  }

  /** The sum of completion times, tick by tick: everyone not complete yet waits one more. */
  function Layers(c: seq<nat>, h: nat): nat {
    if h == 0 then 0 else Layers(c, h - 1) + Later(c, h - 1)
  }

  lemma {:induction false} LayersOfLast(c: seq<nat>, h: nat)
    ensures c == [] ==> Layers(c, h) == 0
    ensures c != [] ==> var n := |c| - 1;
      Layers(c, h) == Layers(c[..n], h) + if c[n] < h then c[n] else h
  {
    if h > 0 {
      LayersOfLast(c, h - 1);
    }
  }

  lemma {:induction false} SumIsLayers(c: seq<nat>, h: nat)
    requires forall i :: 0 <= i < |c| ==> c[i] <= h
    ensures Sum(c) == Layers(c, h)
  {
    LayersOfLast(c, h);
    if c != [] {
      SumIsLayers(c[..|c| - 1], h);
    }
  }

  lemma {:induction false} LaterAtMost(c: seq<nat>, t: nat, w: seq<nat>)
    requires |c| == |w| && forall i :: 0 <= i < |c| && c[i] > t ==> w[i] > 0
    ensures Later(c, t) <= Unfinished(w)
  {
    if c != [] {
      LaterAtMost(c[..|c| - 1], t, w[..|c| - 1]);
    }
  }

  lemma {:induction false} LaterAtLeast(c: seq<nat>, t: nat, w: seq<nat>)
    requires |c| == |w| && forall i :: 0 <= i < |c| && w[i] > 0 ==> c[i] > t
    ensures Later(c, t) >= Unfinished(w)
  {
    if c != [] {
      LaterAtLeast(c[..|c| - 1], t, w[..|c| - 1]);
    }
  }

  lemma {:induction false} AllFinished(w: seq<nat>)
    ensures Unfinished(w) == 0 <==> forall i :: 0 <= i < |w| ==> w[i] == 0
  {
    if w != [] {
      var n := |w| - 1;
      AllFinished(w[..n]);
      assert forall i :: 0 <= i < n ==> w[..n][i] == w[i];
    }
  }

  /** `i` completes `t` ticks into the plan, and not before. */
  ghost predicate PlanCompletes(lives: seq<nat>, starts: seq<nat>, plan: seq<Option<nat>>, i: nat, t: nat)
    requires |lives| == |starts| && i < |lives|
  {
    && t <= |plan| && AfterPlan(lives, starts, plan[..t])[i] == 0
    && forall u :: 0 <= u < t ==> AfterPlan(lives, starts, plan[..u])[i] > 0
  }

  lemma {:induction false} StaysDone(lives: seq<nat>, starts: seq<nat>, plan: seq<Option<nat>>, i: nat, t: nat, u: nat)
    requires |lives| == |starts| && i < |lives| && t <= u <= |plan| && AfterPlan(lives, starts, plan[..t])[i] == 0
    ensures AfterPlan(lives, starts, plan[..u])[i] == 0
    decreases u
  {
    if t < u {
      StaysDone(lives, starts, plan, i, t, u - 1);
      assert plan[..u][..u - 1] == plan[..u - 1];
    }
  }

  lemma {:induction false} SameLifespans(s: Sched, n: nat)
    requires Inv(s) && Claimless(s)
    ensures Inv(Ticks(Stcf, s, n)) && forall i: nat :: P(Ticks(Stcf, s, n), i).lifespan == P(s, i).lifespan
    decreases n
  {
    hide Tick, Inv, Claimless;
    if n > 0 {
      ClaimlessNext(Stcf, s);
      SameLifespans(Tick(Stcf, s), n - 1);
    }
  }

  lemma AgesWithin(s: Sched, n: nat)
    requires Inv(s) && Claimless(s)
    ensures var e := Ticks(Stcf, s, n);
      forall i :: 0 <= i < |e.procs| ==> P(e, i).age <= P(s, i).lifespan && P(e, i).lifespan == P(s, i).lifespan
  {
    hide Ticks;
    SameLifespans(s, n);
    var e := Ticks(Stcf, s, n);
    assert forall i :: 0 <= i < |e.procs| ==> Sane(P(e, i));
  }

  /** The first tick at which `i` is at its lifespan, looking from `t` on. */
  lemma {:induction false} FirstDone(s: Sched, i: nat, t: nat, h: nat) returns (c: nat)
    requires t <= h && P(Ticks(Stcf, s, h), i).age == P(s, i).lifespan
    requires forall u :: 0 <= u <= h ==> P(Ticks(Stcf, s, u), i).age <= P(s, i).lifespan
    requires forall u :: 0 <= u < t ==> P(Ticks(Stcf, s, u), i).age < P(s, i).lifespan
    ensures c <= h && CompletesAfter(Stcf, s, i, c)
    decreases h - t
  {
    hide Ticks;
    if P(Ticks(Stcf, s, t), i).age == P(s, i).lifespan {
      c := t;
    } else {
      c := FirstDone(s, i, t + 1, h);
    }
  }

  lemma {:induction false} Completions(s: Sched, h: nat, k: nat) returns (c: seq<nat>)
    requires Inv(s) && Claimless(s) && k <= |s.procs| && |Ticks(Stcf, s, h).procs| == |s.procs|
    requires forall i :: 0 <= i < |s.procs| ==> !Alive(P(Ticks(Stcf, s, h), i))
    ensures |c| == k && forall i :: 0 <= i < k ==> c[i] <= h && CompletesAfter(Stcf, s, i, c[i])
    decreases k
  {
    hide Ticks, Inv, Claimless, CompletesAfter;
    if k == 0 {
      c := [];
    } else {
      c := Completions(s, h, k - 1);
      AgesWithin(s, h);
      forall u | 0 <= u <= h
        ensures P(Ticks(Stcf, s, u), k - 1).age <= P(s, k - 1).lifespan
      {
        AgesWithin(s, u);
      }
      var t := FirstDone(s, k - 1, 0, h);
      c := c + [t];
    }
  }

  /** Tick `t` of the two sums. */
  lemma LayerOrder(s: Sched, plan: seq<Option<nat>>, c: seq<nat>, c': seq<nat>, t: nat)
    requires Loaded(s) && Claimless(s) && |c| == |c'| == |s.procs| && t <= |plan|
    requires forall i :: 0 <= i < |c| ==> CompletesAfter(Stcf, s, i, c[i])
    requires forall i :: 0 <= i < |c| ==> PlanCompletes(Lives(s), Starts(s), plan, i, c'[i])
    ensures Later(c, t) <= Later(c', t)
  {
    hide Ticks, Inv, Claimless, Loaded, Lives, AfterPlan, Starts, Unfinished, Later, OnTime, Racing;
    var w, w' := Lives(Ticks(Stcf, s, t)), AfterPlan(Lives(s), Starts(s), plan[..t]);
    LoadedInv(s);
    StcfRaces(s, plan, t);
    StcfFinishesMost(s, plan[..t]);
    AgesWithin(s, t);
    LaterAtMost(c, t, w);
    forall i | 0 <= i < |c| && w'[i] > 0
      ensures c'[i] > t
    {
      if c'[i] <= t {
        StaysDone(Lives(s), Starts(s), plan, i, c'[i], t);
      }
    }
    LaterAtLeast(c', t, w');
  }

  lemma {:induction false} LayersOrder(c: seq<nat>, c': seq<nat>, h: nat)
    requires forall t :: 0 <= t < h ==> Later(c, t) <= Later(c', t)
    ensures Layers(c, h) <= Layers(c', h)
  {
    hide Later;
    if h > 0 {
      LayersOrder(c, c', h - 1);
    }
  }

  lemma AllDone(s: Sched, plan: seq<Option<nat>>, c': seq<nat>)
    requires Loaded(s) && Claimless(s) && |c'| == |s.procs|
    requires forall i :: 0 <= i < |c'| ==> PlanCompletes(Lives(s), Starts(s), plan, i, c'[i])
    ensures var e := Ticks(Stcf, s, |plan|);
      |e.procs| == |s.procs| && forall i :: 0 <= i < |s.procs| ==> !Alive(P(e, i))
  {
    hide Ticks, Inv, Claimless, Loaded, Lives, Starts, AfterPlan, Unfinished, OnTime, Racing;
    var h := |plan|;
    var w, w' := Lives(Ticks(Stcf, s, h)), AfterPlan(Lives(s), Starts(s), plan);
    assert plan[..h] == plan;
    forall i | 0 <= i < |w'|
      ensures w'[i] == 0
    {
      StaysDone(Lives(s), Starts(s), plan, i, c'[i], h);
    }
    StcfRaces(s, plan, h);
    StcfFinishesMost(s, plan);
    AllFinished(w);
    AllFinished(w');
  }

  /** STCF minimises the sum of the completion times: whatever plan lets everyone complete, at the times
      `c'`, under STCF everyone completes, at times with no larger sum. */
  lemma StcfIsOptimal(s: Sched, plan: seq<Option<nat>>, c': seq<nat>) returns (c: seq<nat>)
    requires Loaded(s) && Claimless(s) && |c'| == |s.procs|
    requires forall i :: 0 <= i < |c'| ==> PlanCompletes(Lives(s), Starts(s), plan, i, c'[i])
    ensures |c| == |s.procs| && forall i :: 0 <= i < |c| ==> CompletesAfter(Stcf, s, i, c[i])
    ensures Sum(c) <= Sum(c')
  {
    hide Ticks, Inv, Claimless, Loaded, Lives, Starts, AfterPlan, CompletesAfter, Sum, Layers, Later, Unfinished;
    var h := |plan|;
    LoadedInv(s);
    AllDone(s, plan, c');
    c := Completions(s, h, |s.procs|);
    forall t | 0 <= t < h
      ensures Later(c, t) <= Later(c', t)
    {
      LayerOrder(s, plan, c, c', t);
    }
    LayersOrder(c, c', h);
    SumIsLayers(c, h);
    SumIsLayers(c', h);
  }
}
