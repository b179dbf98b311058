/** What every iteration keeps under the six policies that never requeue a blocked process: where each
    process is, what each resource claim stands at, who owns what, and that no wakeup is lost. */
module SchedInvariant {
  import opened Common
  import opened SchedModel

  /** FIFO, SJF and the four priority policies. */
  predicate BlockAware(policy: Policy) { policy !in {Stcf, Rr} }

  // ---------------------------------------------------------------- claims

  /** The resource of the first claim due at the present age, from position `k` on. */
  function DueFrom(p: Proc, k: nat): Option<ResId>
    decreases |p.pending| - k
  {
    if k >= |p.pending| then None
    else if p.pending[k].at == p.age then Some(p.pending[k].res)
    else DueFrom(p, k + 1)
  }

  /** What a process blocked at its present age waits for. */
  function WaitsFor(p: Proc): Option<ResId> { DueFrom(p, 0) }

  predicate NoneDueBefore(p: Proc, k: nat) {
    forall j :: 0 <= j < k && j < |p.pending| ==> p.pending[j].at != p.age
  }

  lemma {:induction false} DueSkips(p: Proc, j: nat, k: nat)
    requires NoneDueBefore(p, k) && j <= k
    ensures DueFrom(p, j) == DueFrom(p, k)
    decreases k - j
  {
    if j < k {
      DueSkips(p, j + 1, k);
    }
  }

  predicate PendingOk(p: Proc) {
    forall k :: 0 <= k < |p.pending| ==>
      var c := p.pending[k];
      c.at >= p.age && c.left == c.span >= 1 && c.at + c.span <= p.lifespan
  }

  /** A held claim is due back at the age `at + span`; the first `k` have been counted for this tick,
      the others are one behind. */
  predicate HoldingOk(p: Proc, k: nat) {
    && (forall j :: 0 <= j < |p.holding| ==>
          var h := p.holding[j];
          && 1 <= h.left <= h.span && h.at + h.span <= p.lifespan
          && h.left + p.age == h.at + h.span + (if j < k then 0 else 1))
    && (forall i, j :: 0 <= i < j < |p.holding| ==> p.holding[i].res != p.holding[j].res)
  }

  /** The state of one process at a tick boundary. */
  predicate Sane(p: Proc) {
    && PendingOk(p) && HoldingOk(p, |p.holding|)
    && (if p.status == Running then p.age <= p.lifespan
        else if p.status == Exited then p.age == p.lifespan && p.pending == [] && p.holding == []
        else p.age < p.lifespan)
  }

  // ---------------------------------------------------------------- places

  ghost predicate ReadyOk(s: Sched) {
    NoDup(s.ready) && forall i :: i in s.ready ==> i < |s.procs| && P(s, i).status == Ready
  }

  ghost predicate ForkqOk(s: Sched) {
    && NoDup(s.forkq)
    && forall i :: i in s.forkq ==> i < |s.procs| && P(s, i).status == Ready && i !in s.ready && P(s, i).holding == []
  }

  ghost predicate WaitqOk(s: Sched) {
    forall r: ResId ::
      && NoDup(s.res[r].waitq)
      && forall i :: i in s.res[r].waitq ==> i < |s.procs| && P(s, i).status == Blocked && WaitsFor(P(s, i)) == Some(r)
  }

  /** A process is where its status says; being in two places would give it two statuses. */
  predicate Placed(s: Sched, i: nat) {
    match P(s, i).status
    case Ready => i in s.ready || i in s.forkq
    case Running => s.current == Some(i)
    case Blocked => WaitsFor(P(s, i)).Some? && i in s.res[WaitsFor(P(s, i)).value].waitq
    case Exited => true
  }

  ghost predicate Queues(s: Sched) {
    && ReadyOk(s) && ForkqOk(s) && WaitqOk(s)
    && (forall i :: 0 <= i < |s.procs| ==> Placed(s, i))
    && (s.current.Some? ==> s.current.value < |s.procs| && P(s, s.current.value).status in {Running, Blocked})
  }

  predicate Holds(s: Sched, i: nat, r: ResId) {
    i < |s.procs| && exists k :: 0 <= k < |P(s, i).holding| && P(s, i).holding[k].res == r
  }

  /** Ownership and the holding lists agree. */
  ghost predicate Owners(s: Sched) {
    && (forall r: ResId :: s.res[r].owner.Some? ==> Holds(s, s.res[r].owner.value, r))
    && (forall i, k ::
      0 <= i < |s.procs| && 0 <= k < |P(s, i).holding| ==> s.res[P(s, i).holding[k].res].owner == Some(i))
  }

  ghost predicate AllSane(s: Sched) { forall i :: 0 <= i < |s.procs| ==> Sane(P(s, i)) }

  ghost predicate Core(s: Sched) { Queues(s) && Owners(s) && AllSane(s) }

  ghost predicate Awaited(s: Sched, about: Option<nat>, r: ResId) {
    exists w :: (w in s.ready || about == Some(w)) && WaitsFor(P(s, w)) == Some(r)
  }

  /** No lost wakeup: a free resource that is waited for is also due to a process on the ready queue,
      or to `about`, the process chosen to run. */
  ghost predicate Wakes(s: Sched, about: Option<nat>) {
    forall r: ResId :: s.res[r].owner.None? && s.res[r].waitq != [] ==> Awaited(s, about, r)
  }

  /** The invariant of the simulation loop. */
  ghost predicate Inv(s: Sched) { Core(s) && Wakes(s, None) }

  // ---------------------------------------------------------------- well-formed scripts

  predicate WellFormed(p: Proc) {
    && p.age == 0 && p.status == Ready && p.prio == p.prioOrig && p.holding == [] && p.lifespan >= 1
    && PendingOk(p)
  }

  /** A loaded script before the first tick. */
  ghost predicate Loaded(s: Sched) {
    && (forall i :: 0 <= i < |s.procs| ==> WellFormed(P(s, i)))
    && s.forkq == seq(|s.procs|, i => i) && s.ready == [] && s.current == None && s.ticks == 0
    && s.res == FreeResources()
  }

  lemma LoadedInv(s: Sched)
    requires Loaded(s)
    ensures Inv(s)
  {
    forall i | 0 <= i < |s.procs|
      ensures Placed(s, i)
    {
      assert s.forkq[i] == i;
    }
  }

  // ---------------------------------------------------------------- fork

  lemma WithoutMembers(q: seq<nat>, k: nat)
    requires NoDup(q) && k < |q|
    ensures NoDup(Without(q, k))
    ensures forall i :: i in Without(q, k) <==> i in q && i != q[k]
  {
    var w := Without(q, k);
    forall i | i in q && i != q[k]
      ensures i in w
    {
      var j :| 0 <= j < |q| && q[j] == i;
      assert w[if j < k then j else j - 1] == i;
    }
  }

  lemma ForkOne(s: Sched, k: nat)
    requires Core(s) && Wakes(s, None) && k < |s.forkq|
    ensures var p := s.forkq[k];
      var s' := SetStatus(s, p, Ready).(forkq := Without(s.forkq, k), ready := s.ready + [p]);
      Core(s') && Wakes(s', None) && s'.procs == s.procs
  {
    var p := s.forkq[k];
    assert p in s.forkq;
    var s' := SetStatus(s, p, Ready).(forkq := Without(s.forkq, k), ready := s.ready + [p]);
    assert s'.procs == s.procs;
    WithoutMembers(s.forkq, k);
    assert forall i :: P(s', i) == P(s, i);
    forall i | 0 <= i < |s.procs|
      ensures Placed(s', i)
    {
      assert Placed(s, i);
      assert i in s.ready ==> i in s'.ready;
      assert s'.ready[|s.ready|] == p;
    }
    forall r: ResId | s'.res[r].owner.None? && s'.res[r].waitq != []
      ensures Awaited(s', None, r)
    {
      assert Awaited(s, None, r);
    }
  }

  lemma {:induction false} ForkKeeps(s: Sched, k: nat)
    requires Core(s) && Wakes(s, None)
    ensures var s' := ForkFrom(s, k);
      && Core(s') && Wakes(s', None)
      && s' == s.(forkq := s'.forkq, ready := s'.ready)
      && |s'.ready| >= |s.ready| && s'.ready[..|s.ready|] == s.ready
      && (forall i :: i in s'.ready ==> i in s.ready || i in s.forkq)
    decreases |s.forkq| - k
  {
    if k < |s.forkq| {
      var p := s.forkq[k];
      if P(s, p).startsAt <= s.ticks {
        var s1 := SetStatus(s, p, Ready).(forkq := Without(s.forkq, k), ready := s.ready + [p]);
        ForkOne(s, k);
        ForkKeeps(s1, k);
      } else {
        ForkKeeps(s, k + 1);
      }
    }
  }

  // ---------------------------------------------------------------- schedule and retire

  ghost predicate SameButPrio(s: Sched, s': Sched) {
    && |s'.procs| == |s.procs|
    && (forall i :: 0 <= i < |s.procs| ==> P(s', i) == P(s, i).(prio := P(s', i).prio))
    && s' == s.(procs := s'.procs)
  }

  lemma {:induction false} DueIgnoresPrio(p: Proc, p': Proc, k: nat)
    requires p'.pending == p.pending && p'.age == p.age
    ensures DueFrom(p', k) == DueFrom(p, k)
    decreases |p.pending| - k
  {
    if k < |p.pending| {
      DueIgnoresPrio(p, p', k + 1);
    }
  }

  lemma PrioIsIrrelevant(s: Sched, s': Sched, about: Option<nat>)
    requires Core(s) && Wakes(s, about) && SameButPrio(s, s')
    ensures Core(s') && Wakes(s', about)
  {
    forall i: nat
      ensures WaitsFor(P(s', i)) == WaitsFor(P(s, i))
    {
      if i < |s.procs| {
        DueIgnoresPrio(P(s, i), P(s', i), 0);
      }
    }
    forall i | 0 <= i < |s.procs|
      ensures Placed(s', i) && Sane(P(s', i))
    {
      assert Placed(s, i) && Sane(P(s, i));
    }
    forall r: ResId | s'.res[r].owner.Some?
      ensures Holds(s', s'.res[r].owner.value, r)
    {
      assert Holds(s, s.res[r].owner.value, r);
    }
    forall r: ResId | s'.res[r].owner.None? && s'.res[r].waitq != []
      ensures Awaited(s', about, r)
    {
      assert Awaited(s, about, r);
    }
  }

  /** What a scheduler's choice can be: keep the current process; or take position `k` of the ready
      queue, putting the current process at its tail exactly when it can still run; or nothing. */
  ghost predicate Chose(s: Sched, c: Choice, k: nat) {
    && SameButPrio(s, c.s.(ready := s.ready))
    && if Runnable(s) && CurrentAlive(s) && c.next == s.current then c.s.ready == s.ready
       else if s.ready == [] then !(Runnable(s) && CurrentAlive(s)) && c.next == None && c.s.ready == []
       else
         && k < |s.ready| && c.next == Some(s.ready[k])
         && c.s.ready == Without(if Runnable(s) && CurrentAlive(s) then s.ready + [s.current.value] else s.ready, k)
  }

  /** The position a policy's scan ends at. */
  function Pick(policy: Policy, s: Sched): (k: nat)
    requires s.ready != []
    ensures k < |s.ready|
  {
    match policy
    case Fifo => 0
    case Rr => 0
    case Sjf => Best(Brevity(s, s.ready))
    case Pa => Best(Prios(Boost(s), s.ready))
    case _ => Best(Prios(s, s.ready))
  }

  lemma PrioChoice(s: Sched)
    requires Runnable(s) ==> s.current.value !in s.ready
    ensures Chose(s, PrioSchedule(s), if s.ready == [] then 0 else Best(Prios(s, s.ready)))
    ensures PrioSchedule(s).s.procs == s.procs
  {
  }

  lemma BoostFacts(s: Sched)
    ensures var b := Boost(s);
      && b == s.(procs := b.procs) && |b.procs| == |s.procs|
      && (forall i :: P(b, i) == P(s, i).(prio := P(b, i).prio))
      && (forall i :: 0 <= i < |s.procs| ==> P(b, i).prio == P(s, i).prio + if i in s.ready then 1 else 0)
      && Runnable(b) == Runnable(s) && CurrentAlive(b) == CurrentAlive(s)
  {
    assert forall i :: P(Boost(s), i) == P(s, i).(prio := P(Boost(s), i).prio);
  }

  lemma PaChoice(s: Sched)
    requires Runnable(s) ==> s.current.value !in s.ready
    ensures Chose(s, PaSchedule(s), if s.ready == [] then 0 else Pick(Pa, s))
  {
    hide PrioSchedule, Best, Boost;
    BoostFacts(s);
    PrioChoice(Boost(s));
  }

  lemma ScheduleChoice(policy: Policy, s: Sched)
    requires BlockAware(policy) && Core(s)
    ensures Chose(s, Schedule(policy, s), if s.ready == [] then 0 else Pick(policy, s))
  {
    if Runnable(s) {
      assert Placed(s, s.current.value);
      assert s.current.value !in s.ready;
    }
    hide PaSchedule, PrioSchedule, Owners, AllSane, WaitqOk;
    if policy == Pa {
      PaChoice(s);
    } else if policy != Fifo && policy != Sjf {
      PrioChoice(s);
    }
  }

  lemma KeptCore(s: Sched, c: Choice)
    requires Core(s) && Wakes(s, None) && Runnable(s) && CurrentAlive(s) && c == Keep(s)
    ensures var d := SetStatus(Retire(c.s, s.current).(current := c.next), c.next.value, Running);
      d == s && Wakes(d, d.current)
  {
    var i := s.current.value;
    assert P(s, i).status == Running;
    assert s.procs[i := P(s, i).(status := Ready)][i := P(s, i)] == s.procs;
    forall r: ResId | s.res[r].owner.None? && s.res[r].waitq != []
      ensures Awaited(s, s.current, r)
    {
      assert Awaited(s, None, r);
    }
  }

  lemma FirstIsMember<T>(q: seq<T>)
    ensures q == [] || q[0] in q
  {
  }

  /** A process that reached its lifespan holds nothing and has nothing to acquire: what __exit_process
      asserts. */
  lemma FinishedIsClean(p: Proc)
    requires Sane(p) && p.age == p.lifespan
    ensures p.pending == [] && p.holding == []
  {
    FirstIsMember(p.pending);
    FirstIsMember(p.holding);
  }

  lemma SaneEnds(p: Proc)
    requires Sane(p)
    ensures p.status == Blocked ==> p.age < p.lifespan
    ensures p.status == Running && p.age >= p.lifespan ==> p.age == p.lifespan && Sane(p.(status := Exited))
  {
    if p.age == p.lifespan {
      FinishedIsClean(p);
    }
  }

  /** What does not depend on the status of processes. */
  lemma StatusOnly(s: Sched, r: Sched)
    requires |r.procs| == |s.procs| && r.res == s.res
    requires forall i :: P(r, i) == P(s, i).(status := P(r, i).status)
    ensures forall i :: WaitsFor(P(r, i)) == WaitsFor(P(s, i))
    ensures Owners(s) ==> Owners(r)
  {
    forall i
      ensures WaitsFor(P(r, i)) == WaitsFor(P(s, i))
    {
      DueIgnoresPrio(P(s, i), P(r, i), 0);
    }
    if Owners(s) {
      forall x: ResId | r.res[x].owner.Some?
        ensures Holds(r, r.res[x].owner.value, x)
      {
        assert Holds(s, s.res[x].owner.value, x);
      }
    }
  }

  /** At most the current process has changed, from running to exited. */
  lemma LeavesCore(s: Sched, r: Sched)
    requires Core(s) && Wakes(s, None) && r == s.(procs := r.procs, current := None) && |r.procs| == |s.procs|
    requires forall i: nat :: s.current != Some(i) ==> P(r, i) == P(s, i)
    requires s.current.Some? ==>
               var p, q := P(s, s.current.value), P(r, s.current.value);
               (p.status == Blocked && q == p) || (p.status == Running && q == p.(status := Exited) && Sane(q))
    ensures Core(r) && Wakes(r, None)
  {
    hide WaitsFor, DueFrom, Sane, Owners;
    assert forall i :: P(r, i) == P(s, i).(status := P(r, i).status);
    StatusOnly(s, r);
    forall i | 0 <= i < |s.procs|
      ensures Placed(r, i) && Sane(P(r, i))
    {
      assert Placed(s, i) && Sane(P(s, i));
    }
    forall x: ResId | r.res[x].owner.None? && r.res[x].waitq != []
      ensures Awaited(r, None, x)
    {
      assert Awaited(s, None, x);
    }
  }

  /** Retiring a blocked or finished process leaves no current process. */
  lemma RetiredCore(s: Sched)
    requires Core(s) && Wakes(s, None) && !(Runnable(s) && CurrentAlive(s))
    ensures var r := Retire(s, s.current).(current := None);
      Core(r) && Wakes(r, None) && r.ready == s.ready
  {
    hide WaitsFor, DueFrom, Sane, Owners;
    var r := Retire(s, s.current).(current := None);
    if s.current.Some? {
      assert Placed(s, s.current.value) && Sane(P(s, s.current.value));
      SaneEnds(P(s, s.current.value));
    }
    assert r == s.(procs := r.procs, current := None) && |r.procs| == |s.procs|;
    LeavesCore(s, r);
  }

  function RunAt(s: Sched, k: nat): Sched
    requires k < |s.ready|
  {
    SetStatus(s.(ready := Without(s.ready, k), current := Some(s.ready[k])), s.ready[k], Running)
  }

  lemma TakenQueues(s: Sched, k: nat)
    requires Queues(s) && s.current == None && k < |s.ready|
    ensures Queues(RunAt(s, k))
  {
    var d := RunAt(s, k);
    assert s.ready[k] in s.ready;
    WithoutMembers(s.ready, k);
    assert forall j :: P(d, j) == P(s, j).(status := P(d, j).status);
    StatusOnly(s, d);
    forall j | 0 <= j < |s.procs|
      ensures Placed(d, j)
    {
      assert Placed(s, j);
    }
  }

  /** Position `k` of the ready queue becomes the running process. */
  lemma TakenCore(s: Sched, k: nat)
    requires Core(s) && Wakes(s, None) && s.current == None && k < |s.ready|
    ensures var i := s.ready[k]; var d := RunAt(s, k);
      Core(d) && Wakes(d, d.current) && P(d, i).status == Running && Alive(P(d, i))
  {
    hide Owners;
    var i := s.ready[k];
    assert i in s.ready && Sane(P(s, i));
    var d := RunAt(s, k);
    WithoutMembers(s.ready, k);
    TakenQueues(s, k);
    assert forall j :: P(d, j) == P(s, j).(status := P(d, j).status);
    StatusOnly(s, d);
    hide Queues;
    forall j | 0 <= j < |s.procs|
      ensures Sane(P(d, j))
    {
      assert Sane(P(s, j));
    }
    forall x: ResId | d.res[x].owner.None? && d.res[x].waitq != []
      ensures Awaited(d, d.current, x)
    {
      assert Awaited(s, None, x);
    }
  }

  function RequeuedAt(s: Sched, i: nat): Sched {
    SetStatus(s.(ready := s.ready + [i]), i, Ready).(current := None)
  }

  lemma RequeuedQueues(s: Sched, i: nat)
    requires Queues(s) && s.current == Some(i) && P(s, i).status != Blocked
    ensures Queues(RequeuedAt(s, i)) && P(s, i).status == Running
  {
    hide WaitsFor, DueFrom;
    var d := RequeuedAt(s, i);
    assert Placed(s, i);
    assert forall j :: P(d, j) == P(s, j).(status := P(d, j).status);
    StatusOnly(s, d);
    assert d.ready[|s.ready|] == i;
    assert forall j :: j in d.ready <==> j in s.ready || j == i;
    forall j | 0 <= j < |s.procs|
      ensures Placed(d, j)
    {
      assert Placed(s, j);
    }
  }

  /** The current process goes to the tail of the ready queue. */
  lemma RequeuedCore(s: Sched)
    requires Core(s) && Wakes(s, None) && Runnable(s) && CurrentAlive(s)
    ensures var i := s.current.value;
      var d := SetStatus(Requeue(s), i, Ready).(current := None);
      Core(d) && Wakes(d, None) && P(s, i).status == Running
  {
    var i := s.current.value;
    RequeuedQueues(s, i);
    assert Sane(P(s, i));
    var d := RequeuedAt(s, i);
    hide Owners, Queues, WaitsFor, DueFrom;
    assert forall j :: P(d, j) == P(s, j).(status := P(d, j).status);
    StatusOnly(s, d);
    forall j | 0 <= j < |s.procs|
      ensures Sane(P(d, j))
    {
      assert Sane(P(s, j));
    }
    forall x: ResId | d.res[x].owner.None? && d.res[x].waitq != []
      ensures Awaited(d, None, x)
    {
      assert Awaited(s, None, x);
    }
  }

  lemma SwappedCore(s: Sched, c: Choice, k: nat)
    requires Core(s) && Wakes(s, None) && Runnable(s) && CurrentAlive(s)
    requires k < |s.ready| && c == Take(Requeue(s), k)
    ensures var d := SetStatus(Retire(c.s, s.current).(current := c.next), c.next.value, Running);
      Core(d) && Wakes(d, d.current) && P(d, d.current.value).status == Running && Alive(P(d, d.current.value))
  {
    RequeuedCore(s);
    var i := s.current.value;
    var q := SetStatus(Requeue(s), i, Ready).(current := None);
    TakenCore(q, k);
    assert q.ready[k] == s.ready[k];
    assert Retire(c.s, s.current).(current := c.next) == q.(ready := Without(q.ready, k), current := c.next);
  }

  /** The states of `Dispatch` after the choice, from a state `s` with the choice's priorities. */
  lemma DispatchCore(s: Sched, c: Choice, k: nat)
    requires Core(s) && Wakes(s, None) && Chose(s, c, k) && c.s == s.(ready := c.s.ready)
    ensures var r := Retire(c.s, s.current).(current := c.next);
      var d := if c.next.None? then r else SetStatus(r, c.next.value, Running);
      && |d.procs| == |s.procs|
      && Core(d) && Wakes(d, d.current)
      && (d.current.Some? ==> P(d, d.current.value).status == Running && Alive(P(d, d.current.value)))
      && (d.current.None? ==> d.ready == [])
  {
    if s.current.Some? {
      assert Placed(s, s.current.value) && Sane(P(s, s.current.value));
    }
    if Runnable(s) && CurrentAlive(s) {
      if c.next == s.current {
        KeptCore(s, c);
      } else {
        SwappedCore(s, c, k);
      }
    } else if s.ready == [] {
      RetiredCore(s);
    } else {
      RetiredCore(s);
      var r := Retire(s, s.current).(current := None);
      TakenCore(r, k);
    }
  }

  lemma DispatchKeeps(policy: Policy, s: Sched)
    requires BlockAware(policy) && Inv(s)
    ensures var d := Dispatch(policy, s);
      && Core(d) && Wakes(d, d.current)
      && (d.current.Some? ==> P(d, d.current.value).status == Running && Alive(P(d, d.current.value)))
      && (d.current.None? ==> d.ready == [])
      && |d.procs| == |s.procs|
  {
    hide Schedule, ForkFrom, Core, Wakes, Retire;
    ForkKeeps(s, 0);
    var f := ForkFrom(s, 0);
    ScheduleChoice(policy, f);
    var c := Schedule(policy, f);
    var k := if f.ready == [] then 0 else Pick(policy, f);
    PrioIsIrrelevant(f, c.s.(ready := f.ready), None);
    DispatchCore(c.s.(ready := f.ready), c, k);
  }
}
