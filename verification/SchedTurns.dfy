/** Scripts without resources. Under round robin and shortest time to completion too the loop ends with
    every process exited; under round robin the position in the ready queue is the exact waiting time,
    under FIFO the life of those ahead is. */
module SchedTurns {
  import opened Common
  import opened SchedModel
  import opened SchedInvariant
  import opened SchedRuns
  import opened SchedPreemptive
  import opened SchedSjf
  import opened SchedPriority

  /** Nobody claims a resource, and every lifespan is below the bound the STCF scan starts from. */
  ghost predicate Claimless(s: Sched) {
    forall i :: 0 <= i < |s.procs| ==> P(s, i).pending == [] && P(s, i).holding == [] && P(s, i).lifespan < MAX_TC
  }

  lemma NobodyBlocked(f: Sched)
    requires Core(f) && Claimless(f)
    ensures !(f.current.Some? && P(f, f.current.value).status == Blocked)
  {
    if f.current.Some? && P(f, f.current.value).status == Blocked {
      assert Placed(f, f.current.value);
      DueExists(P(f, f.current.value), 0);
      assert false;
    }
  }

  lemma ClaimlessFits(policy: Policy, s: Sched)
    requires Preemptive(policy) && Inv(s) && Claimless(s)
    ensures var f := ForkFrom(s, 0);
      && Fits(policy, f) && Core(f) && f == s.(forkq := f.forkq, ready := f.ready)
      && !(f.current.Some? && P(f, f.current.value).status == Blocked)
  {
    ForkKeeps(s, 0);
    var f := ForkFrom(s, 0);
    assert forall i: nat :: P(f, i) == P(s, i);
    NobodyBlocked(f);
    if f.ready != [] {
      assert f.ready[0] in f.ready && Remaining(P(f, f.ready[0])) < MAX_TC;
    }
  }

  lemma ClaimlessSuits(policy: Policy, s: Sched)
    requires Inv(s) && Claimless(s)
    ensures Suits(policy, ForkFrom(s, 0))
  {
    if !BlockAware(policy) {
      ClaimlessFits(policy, s);
    }
  }

  /** What dispatching does to a claimless state. */
  lemma ClaimlessDispatch(policy: Policy, s: Sched)
    requires Inv(s) && Claimless(s)
    ensures var d := Dispatch(policy, s);
      && Dispatched(d) && Claimless(d) && SameLives(s, d, None) && d.forkq == ForkFrom(s, 0).forkq
  {
    hide ForkFrom, Schedule, Core, Suits;
    ClaimlessSuits(policy, s);
    SuitingKeeps(policy, s);
    ForkKeeps(s, 0);
    ForkLives(s, 0);
    var f := ForkFrom(s, 0);
    var k := SuitingChoice(policy, f);
    RetireLives(f, Schedule(policy, f), k);
    var d := Dispatch(policy, s);
    forall i | 0 <= i < |d.procs|
      ensures P(d, i).pending == [] && P(d, i).holding == [] && P(d, i).lifespan < MAX_TC
    {
      assert P(f, i) == P(s, i) && SameClock(P(s, i), P(d, i));
    }
  }

  /** After dispatching, a claimless iteration only ages the process that runs. */
  lemma ClaimlessAges(policy: Policy, s: Sched)
    requires var d := Dispatch(policy, s); Claimless(d) && (d.current.Some? ==> d.current.value < |d.procs|)
    ensures var d, e := Dispatch(policy, s), Tick(policy, s);
      && |e.procs| == |d.procs| && e.forkq == d.forkq && e.ready == d.ready
      && (!Halts(d) ==> e.ticks == d.ticks + 1)
      && forall i: nat :: P(e, i) == if d.current == Some(i) then P(d, i).(age := P(d, i).age + 1) else P(d, i)
  {
    hide Dispatch, RunCurrent;
    var d := Dispatch(policy, s);
    if d.current.Some? {
      RunWithoutClaims(policy, d, d.current.value);
    }
  }

  /** The next state of a claimless run. */
  lemma ClaimlessNext(policy: Policy, s: Sched)
    requires Inv(s) && Claimless(s)
    ensures var e := Tick(policy, s);
      && Inv(e) && Claimless(e)
      && forall i: nat :: P(e, i).lifespan == P(s, i).lifespan
                          && P(e, i).age == P(s, i).age + if Dispatch(policy, s).current == Some(i) then 1 else 0
  {
    hide Dispatch, Core, Wakes, Tick, ForkFrom, Suits;
    ClaimlessSuits(policy, s);
    SuitingKeeps(policy, s);
    ClaimlessDispatch(policy, s);
    DispatchedRuns(Dispatch(policy, s));
    ClaimlessAges(policy, s);
  }

  lemma {:induction false} ClaimlessTicks(policy: Policy, s: Sched, n: nat)
    requires Inv(s) && Claimless(s)
    ensures Inv(Ticks(policy, s, n)) && Claimless(Ticks(policy, s, n))
    decreases n
  {
    hide Tick, Inv, Claimless;
    if n > 0 {
      ClaimlessNext(policy, s);
      ClaimlessTicks(policy, Tick(policy, s), n - 1);
    }
  }

  /** Claimless scripts suit every policy, all along. */
  lemma {:induction false} ClaimlessAlong(policy: Policy, s: Sched)
    requires Inv(s) && Claimless(s)
    ensures SuitsAlong(policy, s) && Obey(OneByOne, s) && Obey(Ascending, s)
  {
    SinglesObey(s);
    forall n: nat
      ensures Suits(policy, ForkFrom(Ticks(policy, s, n), 0))
    {
      ClaimlessTicks(policy, s, n);
      ClaimlessSuits(policy, Ticks(policy, s, n));
    }
  }

  // ---------------------------------------------------------------- the choice under STCF

  /** The ticks the current process still runs. */
  function Busy(s: Sched): nat {
    if Runnable(s) && CurrentAlive(s) then Remaining(P(s, s.current.value)) else 0
  }

  lemma StcfChoice(f: Sched)
    requires Fits(Stcf, f) && !(f.current.Some? && P(f, f.current.value).status == Blocked)
    ensures var c := StcfSchedule(f);
      && (f.ready != [] ==> c.next.Some?)
      && (c.next.Some? ==> forall i :: i in c.s.ready ==> Remaining(P(f, c.next.value)) <= Remaining(P(f, i)))
      && (Busy(f) > 0 && (forall i :: i in f.ready ==> Remaining(P(f, i)) >= Busy(f)) ==> c.next == f.current)
  {
    var c := StcfSchedule(f);
    var bound := if Busy(f) > 0 then Busy(f) else MAX_TC;
    var pick := Shortest(f, f.ready, bound);
    if pick.Some? {
      assert f.ready[pick.value] in f.ready;
    }
    forall i | i in f.ready
      ensures pick.None? ==> Remaining(P(f, i)) >= bound
      ensures pick.Some? ==> Remaining(P(f, f.ready[pick.value])) <= Remaining(P(f, i))
    {
      var j :| 0 <= j < |f.ready| && f.ready[j] == i;
    }
    forall i | i in c.s.ready
      ensures i in f.ready || (Busy(f) > 0 && f.current == Some(i))
    {
    }
  }

  /** STCF runs a process with the least time to completion, and keeps the current one on a tie. */
  lemma StcfRunsShortest(s: Sched)
    requires Inv(s) && Claimless(s)
    ensures var f, d := ForkFrom(s, 0), Dispatch(Stcf, s);
      && (f.ready != [] ==> d.current.Some?)
      && (d.current.Some? ==> forall i :: i in d.ready ==> Remaining(P(s, d.current.value)) <= Remaining(P(s, i)))
      && (Busy(s) > 0 && (forall i :: i in f.ready ==> Remaining(P(s, i)) >= Busy(s)) ==> d.current == s.current)
  {
    hide ForkFrom, Dispatch, Inv, Claimless, StcfSchedule, Fits, Core;
    ClaimlessFits(Stcf, s);
    var f := ForkFrom(s, 0);
    StcfChoice(f);
    DispatchTakes(Stcf, s);
    assert forall i: nat :: P(f, i) == P(s, i);
  }

  // ---------------------------------------------------------------- turns under round robin

  /** Round robin takes the head of the ready queue and puts the current process at its tail. */
  lemma RrTurns(s: Sched)
    requires Inv(s) && Claimless(s) && s.ready != []
    ensures Dispatch(Rr, s).current == Some(s.ready[0])
    ensures var e := Tick(Rr, s); |e.ready| >= |s.ready| - 1 && e.ready[..|s.ready| - 1] == s.ready[1..]
  {
    hide RunCurrent, Core, Wakes;
    ForkKeeps(s, 0);
    var f, d := ForkFrom(s, 0), Dispatch(Rr, s);
    var q := if CurrentAlive(f) then f.ready + [f.current.value] else f.ready;
    assert f.ready[0] == f.ready[..|s.ready|][0] && q[0] == f.ready[0];
    assert d.current == Some(s.ready[0]) && d.ready == Without(q, 0);
    ClaimlessDispatch(Rr, s);
    RunWithoutClaims(Rr, d, s.ready[0]);
    assert Tick(Rr, s).ready == d.ready;
    forall j | 0 <= j < |s.ready| - 1
      ensures d.ready[j] == s.ready[1..][j]
    {
      assert f.ready[..|s.ready|][j + 1] == s.ready[j + 1];
    }
  }

  /** Whoever stands at position `k` of the ready queue runs in exactly `k` iterations' time. */
  lemma {:induction false} RrWaitIsPosition(s: Sched, k: nat)
    requires Inv(s) && Claimless(s) && k < |s.ready|
    ensures Dispatch(Rr, Ticks(Rr, s, k)).current == Some(s.ready[k])
    decreases k
  {
    hide Dispatch, Tick, Inv, Claimless;
    RrTurns(s);
    if k > 0 {
      ClaimlessNext(Rr, s);
      var e := Tick(Rr, s);
      assert e.ready[..|s.ready| - 1][k - 1] == s.ready[1..][k - 1];
      RrWaitIsPosition(e, k - 1);
    }
  }

  // ---------------------------------------------------------------- turns among equal priorities

  /** How many processes of `q` have priority `m`. */
  function AtLevel(s: Sched, q: seq<nat>, m: nat): nat {
    if q == [] then 0
    else AtLevel(s, q[..|q| - 1], m) + if P(s, q[|q| - 1]).prio == m then 1 else 0
  }

  /** Nobody alive is more important. */
  ghost predicate Topmost(s: Sched, m: nat) {
    forall i :: 0 <= i < |s.procs| && Alive(P(s, i)) ==> P(s, i).prio <= m
  }

  lemma {:induction false} AtLevelHas(s: Sched, q: seq<nat>, b: nat, m: nat)
    requires b < |q| && P(s, q[b]).prio == m
    ensures AtLevel(s, q, m) == AtLevel(s, Without(q, b), m) + 1
  {
    var n := |q| - 1;
    if b < n {
      AtLevelHas(s, q[..n], b, m);
      assert Without(q, b)[..n - 1] == Without(q[..n], b);
    } else {
      assert Without(q, b) == q[..n];
    }
  }

  lemma {:induction false} AtLevelNone(s: Sched, q: seq<nat>, m: nat)
    requires forall b :: 0 <= b < |q| ==> P(s, q[b]).prio != m
    ensures AtLevel(s, q, m) == 0
  {
    if q != [] {
      AtLevelNone(s, q[..|q| - 1], m);
    }
  }

  lemma {:induction false} AtLevelSame(s: Sched, e: Sched, q: seq<nat>, m: nat)
    requires forall i: nat :: P(e, i).prio == P(s, i).prio
    ensures AtLevel(e, q, m) == AtLevel(s, q, m)
  {
    if q != [] {
      AtLevelSame(s, e, q[..|q| - 1], m);
    }
  }

  /** The choice among a ready queue whose best are at level `m`, and the current process not above it. */
  lemma PrioTakes(f: Sched, k: nat, m: nat) returns (b: nat)
    requires k < |f.ready| && P(f, f.ready[k]).prio == m
    requires forall i :: i in f.ready ==> P(f, i).prio <= m
    requires Runnable(f) && CurrentAlive(f) ==> P(f, f.current.value).prio <= m
    ensures b <= k && P(f, f.ready[b]).prio == m && forall j :: 0 <= j < b ==> P(f, f.ready[j]).prio != m
    ensures var c := PrioSchedule(f);
      && c.next == Some(f.ready[b])
      && c.s.ready == Without(if Runnable(f) && CurrentAlive(f) then f.ready + [f.current.value] else f.ready, b)
  {
    b := Best(Prios(f, f.ready));
    assert Prios(f, f.ready)[k] == m && f.ready[b] in f.ready;
    assert forall j :: 0 <= j < b ==> Prios(f, f.ready)[j] < Prios(f, f.ready)[b];
    hide Best, Prios;
  }

  lemma ForkedReady(s: Sched, f: Sched)
    requires Inv(s) && f == ForkFrom(s, 0)
    ensures Core(f) && f == s.(forkq := f.forkq, ready := f.ready)
    ensures |f.ready| >= |s.ready| && forall j :: 0 <= j < |s.ready| ==> f.ready[j] == s.ready[j]
  {
    hide Core, Wakes, ForkFrom;
    ForkKeeps(s, 0);
    assert forall j :: 0 <= j < |s.ready| ==> f.ready[j] == f.ready[..|s.ready|][j];
  }

  lemma ReadyBelow(s: Sched, f: Sched, m: nat)
    requires Core(f) && Topmost(s, m) && f.procs == s.procs
    ensures forall i :: i in f.ready ==> P(f, i).prio <= m
    ensures Runnable(f) && CurrentAlive(f) ==> P(f, f.current.value).prio <= m
  {
    assert forall i: nat :: P(f, i) == P(s, i);
    forall i | i in f.ready
      ensures P(f, i).prio <= m
    {
      assert Sane(P(f, i));
    }
  }

  lemma ClaimlessCurrent(policy: Policy, s: Sched)
    requires Inv(s) && Claimless(s)
    ensures var d := Dispatch(policy, s); d.current.Some? ==> d.current.value < |d.procs|
  {
    hide Dispatch;
    ClaimlessDispatch(policy, s);
  }

  lemma PrefixWithout(s: seq<nat>, q: seq<nat>, r: seq<nat>, b: nat, k: nat)
    requires b <= k < |s| <= |q| && r == Without(q, b) && forall j :: 0 <= j < |s| ==> q[j] == s[j]
    ensures b < k ==> k - 1 < |r| && r[k - 1] == s[k] && r[..k - 1] == Without(s[..k], b)
  {
  }

  lemma PrioDispatch(s: Sched, k: nat, m: nat) returns (b: nat, q: seq<nat>)
    requires Inv(s) && Claimless(s) && Topmost(s, m) && k < |s.ready| && P(s, s.ready[k]).prio == m
    ensures b <= k && P(s, s.ready[b]).prio == m && forall j :: 0 <= j < b ==> P(s, s.ready[j]).prio != m
    ensures |q| >= |s.ready| && forall j :: 0 <= j < |s.ready| ==> q[j] == s.ready[j]
    ensures var d := Dispatch(Prio, s); d.current == Some(s.ready[b]) && d.ready == Without(q, b)
  {
    hide Dispatch, Inv, Claimless, PrioSchedule, ForkFrom;
    var f := ForkFrom(s, 0);
    ForkedReady(s, f);
    ReadyBelow(s, f, m);
    hide Core, Topmost;
    b := PrioTakes(f, k, m);
    DispatchTakes(Prio, s);
    q := if Runnable(f) && CurrentAlive(f) then f.ready + [f.current.value] else f.ready;
    assert forall i: nat :: P(f, i) == P(s, i);
  }

  /** One iteration under the priority policy, seen from position `k` of the ready queue. */
  lemma PrioTurn(s: Sched, k: nat, m: nat) returns (b: nat)
    requires Inv(s) && Claimless(s) && Topmost(s, m) && k < |s.ready| && P(s, s.ready[k]).prio == m
    ensures b <= k && P(s, s.ready[b]).prio == m && forall j :: 0 <= j < b ==> P(s, s.ready[j]).prio != m
    ensures Dispatch(Prio, s).current == Some(s.ready[b])
    ensures var e := Tick(Prio, s);
      && (b < k ==> k - 1 < |e.ready| && e.ready[k - 1] == s.ready[k] && e.ready[..k - 1] == Without(s.ready[..k], b))
      && (forall i: nat :: P(e, i).prio == P(s, i).prio)
  {
    hide Dispatch, Tick, Inv, Claimless, Topmost, Core, ForkFrom, Halts;
    var q;
    b, q := PrioDispatch(s, k, m);
    DispatchTop(Prio, s);
    ClaimlessDispatch(Prio, s);
    ClaimlessCurrent(Prio, s);
    ClaimlessAges(Prio, s);
    PrefixWithout(s.ready, q, Tick(Prio, s).ready, b, k);
  }

  lemma StillTopmost(s: Sched, e: Sched, m: nat)
    requires Topmost(s, m)
    requires forall i: nat :: P(e, i).lifespan == P(s, i).lifespan && P(e, i).age >= P(s, i).age
    requires forall i: nat :: P(e, i).prio == P(s, i).prio
    ensures Topmost(e, m)
  {
  }

  /** Turns among equals: a ready process of the top priority, with `n` of that priority before it on the
      queue, runs in exactly `n` iterations' time. */
  lemma {:induction false} PrioWaitIsEquals(s: Sched, k: nat, m: nat)
    requires Inv(s) && Claimless(s) && Topmost(s, m) && k < |s.ready| && P(s, s.ready[k]).prio == m
    ensures Dispatch(Prio, Ticks(Prio, s, AtLevel(s, s.ready[..k], m))).current == Some(s.ready[k])
    decreases k
  {
    hide Dispatch, Tick, Inv, Claimless;
    var q := s.ready[..k];
    var b := PrioTurn(s, k, m);
    if b == k {
      AtLevelNone(s, q, m);
    } else {
      ClaimlessNext(Prio, s);
      var e := Tick(Prio, s);
      AtLevelHas(s, q, b, m);
      AtLevelSame(s, e, Without(q, b), m);
      StillTopmost(s, e, m);
      PrioWaitIsEquals(e, k - 1, m);
    }
  }

  // ---------------------------------------------------------------- turns under FIFO

  /** The ticks of life the processes of `q` have ahead. */
  function Backlog(s: Sched, q: seq<nat>): int {
    if q == [] then 0 else Remaining(P(s, q[0])) + Backlog(s, q[1..])
  }

  lemma {:induction false} BacklogSame(s: Sched, e: Sched, q: seq<nat>)
    requires forall i :: i in q ==> Remaining(P(e, i)) == Remaining(P(s, i))
    ensures Backlog(e, q) == Backlog(s, q)
  {
    if q != [] {
      BacklogSame(s, e, q[1..]);
    }
  }

  lemma {:induction false} BacklogPositive(s: Sched, q: seq<nat>)
    requires forall i :: i in q ==> Remaining(P(s, i)) > 0
    ensures Backlog(s, q) >= |q|
  {
    if q != [] {
      BacklogPositive(s, q[1..]);
    }
  }

  /** FIFO keeps a current process that can run, and otherwise takes the head of the ready queue. */
  lemma FifoTurns(s: Sched)
    requires Inv(s) && Claimless(s) && s.ready != []
    ensures var d, e, n := Dispatch(Fifo, s), Tick(Fifo, s), if Busy(s) > 0 then 0 else 1;
      && d.current == (if Busy(s) > 0 then s.current else Some(s.ready[0])) && e.current == d.current
      && P(e, d.current.value).status == Running
      && |e.ready| >= |s.ready| - n && e.ready[..|s.ready| - n] == s.ready[n..]
  {
    hide RunCurrent, Core, Wakes;
    ForkKeeps(s, 0);
    var f, d, e := ForkFrom(s, 0), Dispatch(Fifo, s), Tick(Fifo, s);
    assert f.ready[0] == f.ready[..|s.ready|][0];
    assert f.current == s.current && f.procs == s.procs;
    ClaimlessDispatch(Fifo, s);
    DispatchedRuns(d);
    RunWithoutClaims(Fifo, d, d.current.value);
    assert e.ready == d.ready && e.current == d.current;
    var n := if Busy(s) > 0 then 0 else 1;
    assert d.ready == if Busy(s) > 0 then f.ready else Without(f.ready, 0);
    forall j | 0 <= j < |s.ready| - n
      ensures d.ready[j] == s.ready[n..][j]
    {
      assert f.ready[..|s.ready|][j + n] == s.ready[j + n];
    }
  }

  lemma Queued(q: seq<nat>, r: seq<nat>, n: nat, k: nat)
    requires n <= k < |q| && n <= 1 && NoDup(q) && |r| >= |q| - n && r[..|q| - n] == q[n..]
    ensures r[k - n] == q[k] && r[..k - n] == q[n..k]
    ensures q[..k] == q[..n] + q[n..k] && (n == 0 ==> q[..k] == q[n..k])
      && (n == 1 ==> q[..k][0] == q[0] && q[..k][1..] == q[n..k])
    ensures forall i :: i in q[n..k] ==> i in q && (n == 1 ==> i != q[0])
  {
    assert r[k - n] == r[..|q| - n][k - n] == q[n..][k - n];
    assert r[..k - n] == r[..|q| - n][..k - n] == q[n..][..k - n] == q[n..k];
    forall i | i in q[n..k]
      ensures i in q && (n == 1 ==> i != q[0])
    {
      var j :| 0 <= j < k - n && q[n..k][j] == i;
      assert q[n + j] == i;
    }
  }

  lemma ReadyLives(s: Sched)
    requires Inv(s)
    ensures NoDup(s.ready) && forall i :: i in s.ready ==> Remaining(P(s, i)) > 0 && s.current != Some(i)
  {
    forall i | i in s.ready
      ensures Remaining(P(s, i)) > 0 && s.current != Some(i)
    {
      assert Sane(P(s, i)) && Placed(s, i);
    }
  }

  /** What stays ahead of position `k` over one iteration: the `n` taken from the head are gone. */
  lemma FifoQueue(s: Sched, e: Sched, k: nat, n: nat)
    requires Inv(s) && Claimless(s) && e == Tick(Fifo, s) && n == (if Busy(s) > 0 then 0 else 1) && n <= k < |s.ready|
    ensures k - n < |e.ready| && e.ready[k - n] == s.ready[k]
    ensures Backlog(e, e.ready[..k - n]) == Backlog(s, s.ready[n..k])
    ensures Backlog(s, s.ready[..k]) == Backlog(s, s.ready[n..k]) + if n == 1 then Remaining(P(s, s.ready[0])) else 0
  {
    hide Dispatch, Tick, Claimless, Inv, NoDup, Busy;
    FifoTurns(s);
    ClaimlessNext(Fifo, s);
    ReadyLives(s);
    Queued(s.ready, e.ready, n, k);
    BacklogSame(s, e, s.ready[n..k]);
  }

  /** One iteration takes one tick off what is ahead of position `k`. */
  lemma FifoStep(s: Sched, e: Sched, k: nat, n: nat)
    requires Inv(s) && Claimless(s) && e == Tick(Fifo, s) && n == (if Busy(s) > 0 then 0 else 1) && n <= k < |s.ready|
    ensures k - n < |e.ready| && e.ready[k - n] == s.ready[k]
    ensures Busy(e) + Backlog(e, e.ready[..k - n]) == Busy(s) + Backlog(s, s.ready[..k]) - 1
  {
    hide Dispatch, Tick, Claimless, Inv, NoDup, Backlog;
    FifoQueue(s, e, k, n);
    FifoTurns(s);
    ClaimlessNext(Fifo, s);
    ReadyLives(s);
    var c := e.current.value;
    assert n == 1 ==> c in s.ready;
    assert Remaining(P(e, c)) == Remaining(P(s, c)) - 1;
  }

  /** Under FIFO a waiting process starts when the current one and all those ahead of it have lived. */
  lemma {:induction false} FifoWaitIsBacklog(s: Sched, k: nat)
    requires Inv(s) && Claimless(s) && k < |s.ready|
    ensures var n := Busy(s) + Backlog(s, s.ready[..k]);
      n >= 0 && Dispatch(Fifo, Ticks(Fifo, s, n)).current == Some(s.ready[k])
    decreases Busy(s) + Backlog(s, s.ready[..k])
  {
    hide Dispatch, Tick, Claimless, Inv, NoDup;
    ReadyLives(s);
    BacklogPositive(s, s.ready[..k]);
    FifoTurns(s);
    ClaimlessNext(Fifo, s);
    var e := Tick(Fifo, s);
    if Busy(s) > 0 {
      FifoStep(s, e, k, 0);
      FifoWaitIsBacklog(e, k);
    } else if k > 0 {
      FifoStep(s, e, k, 1);
      FifoWaitIsBacklog(e, k - 1);
    }
  }
}
