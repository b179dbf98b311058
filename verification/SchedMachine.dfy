/** The scheduler simulator in its own form: process and resource objects that the callbacks update in
    place, queues that are scanned in loops, and the simulation loop. Every method is proved to compute
    the function of `SchedModel` on the ghost state `S`. */
module SchedMachine {
  import opened Common
  import opened SchedModel
  import opened SchedInvariant
  import opened SchedStep
  import opened SchedRuns
  import opened SchedPreemptive

  /** struct process; `id` is its position in the script. */
  class Process {
    const id: nat
    const lifespan: nat
    const prioOrig: nat
    const startsAt: nat
    var age: nat
    var prio: nat
    var status: Status
    var pending: seq<Claim>
    var holding: seq<Claim>

    ghost predicate Is(p: Proc)
      reads this
    {
      p == Proc(lifespan, prioOrig, startsAt, age, prio, status, pending, holding)
    }

    constructor (id: nat, p: Proc)
      ensures this.id == id && Is(p)
    {
      this.id := id;
      lifespan, prioOrig, startsAt := p.lifespan, p.prioOrig, p.startsAt;
      age, prio, status, pending, holding := p.age, p.prio, p.status, p.pending, p.holding;
    }
  }

  /** struct resource. */
  class Lock {
    var owner: Process?
    var waitq: seq<Process>

    constructor ()
      ensures owner == null && waitq == []
    {
      owner, waitq := null, [];
    }
  }

  /** `i` is on no list and its claim lists are empty. */
  predicate Detached(s: Sched, i: nat) {
    && i !in s.ready && i !in s.forkq && (forall r: ResId :: i !in s.res[r].waitq)
    && P(s, i).pending == [] && P(s, i).holding == []
  }

  lemma ReadyFacts(f: Sched)
    requires Core(f)
    ensures NoDup(f.ready) && (f.current.Some? ==> f.current.value !in f.ready)
  {
    if f.current.Some? {
      assert Placed(f, f.current.value);
    }
  }

  /** A finished process has been detached from every list when the loop ends it. */
  lemma ExitIsClean(f: Sched, c: Choice, k: nat)
    requires Core(f) && Chose(f, c, k)
    ensures f.current.Some? && P(c.s, f.current.value).age == P(c.s, f.current.value).lifespan ==>
              Detached(c.s, f.current.value)
  {
    if f.current.Some? {
      var i := f.current.value;
      assert P(c.s.(ready := f.ready), i) == P(c.s, i);
      assert Placed(f, i) && Sane(P(f, i));
      if P(f, i).age == P(f, i).lifespan {
        FinishedIsClean(P(f, i));
        RunningIsDetached(f, i);
      }
    }
  }

  lemma OwnerReleases(s: Sched, c: nat, k: nat)
    requires Releasing(s, c, k) && k < |P(s, c).holding|
    ensures var r := P(s, c).holding[k].res;
      s.res[r].owner == Some(c) && forall i :: i in s.res[r].waitq ==> P(s, i).status == Blocked
  {
  }

  lemma TickUnfolds(policy: Policy, s: Sched)
    ensures var d := Dispatch(policy, s);
      Tick(policy, s) ==
        if Halts(d) then d
        else if d.current.None? then d.(ticks := d.ticks + 1)
        else RunCurrent(policy, d, d.current.value).(ticks := d.ticks + 1)
  {
    hide Dispatch, RunCurrent;
  }

  lemma AcquireKeepsLists(policy: Policy, s: Sched, c: nat, r: ResId)
    ensures var s' := Acquire(policy, s, c, r).0;
      && |s'.procs| == |s.procs| && s'.current == s.current
      && forall i ::
        P(s', i).pending == P(s, i).pending && P(s', i).holding == P(s, i).holding && P(s', i).age == P(s, i).age
  {
  }

  /** A release is: free the resource, then wake a waiter picked in the state that leaves. */
  lemma WakeIsRelease(policy: Policy, s: Sched, reset: Sched, c: nat, r: ResId)
    requires reset == if policy in {Pcp, Pip} then SchedModel.SetPrio(s, c, P(s, c).prioOrig) else s
    ensures var free := SetRes(reset, r, reset.res[r].(owner := None)); var q := s.res[r].waitq;
      && free.res[r].waitq == q && free.ready == s.ready
      && if q == [] then Release(policy, s, c, r) == free
         else
           var k := if ByPriority(policy) then Best(Prios(free, q)) else 0;
           Release(policy, s, c, r)
           == SetRes(SchedModel.SetStatus(free, q[k], Ready), r,
             free.res[r].(waitq := Without(q, k))).(ready := free.ready + [q[k]])
  {
    hide Best;
    var free, q := SetRes(reset, r, reset.res[r].(owner := None)), s.res[r].waitq;
    assert Prios(free, q) == Prios(reset, q);
    if q != [] {
      var k := if ByPriority(policy) then Best(Prios(free, q)) else 0;
      var y := Resource(None, Without(q, k));
      assert reset.res[r := free.res[r]][r := y] == reset.res[r := y];
    }
  }

  lemma MoveClaimFrame(s: Sched, c: nat, k: nat)
    ensures var s' := SchedModel.MoveClaim(s, c, k);
      |s'.procs| == |s.procs| && s'.current == s.current
  {
  }

  ghost function Forked(s: Sched, k: nat): Sched
    requires k < |s.forkq|
  {
    SchedModel.SetStatus(s, s.forkq[k], Ready).(forkq := Without(s.forkq, k), ready := s.ready + [s.forkq[k]])
  }

  lemma ForkUnfolds(s: Sched, k: nat)
    ensures ForkFrom(s, k) ==
              if k >= |s.forkq| then s
              else if P(s, s.forkq[k]).startsAt <= s.ticks then ForkFrom(Forked(s, k), k)
              else ForkFrom(s, k + 1)
  {
  }

  ghost function Reset(c: Choice): Choice
    requires c.next.Some?
  {
    c.(s := SchedModel.SetPrio(c.s, c.next.value, P(c.s, c.next.value).prioOrig))
  }

  ghost function Preferred(b: Sched, k: nat): Choice
    requires k < |b.ready|
  {
    if !(Runnable(b) && CurrentAlive(b)) then Reset(Take(b, k))
    else if P(b, b.current.value).prio > P(b, b.ready[k]).prio then Keep(b)
    else Reset(Take(Requeue(b), k))
  }

  /** What pa_schedule does once the ready processes have been raised. */
  lemma PaCases(s: Sched)
    requires s.ready != [] && (s.current.Some? ==> s.current.value !in s.ready)
    ensures var b := Boost(s); PaSchedule(s) == Preferred(b, Best(Prios(b, b.ready)))
  {
    hide Best, Boost;
    BoostFacts(s);
    var b := Boost(s);
    assert b.ready[Best(Prios(b, b.ready))] in s.ready;
  }

  lemma BestIsUnique(keys: seq<int>, k: nat)
    requires k < |keys|
    requires forall j :: 0 <= j < |keys| ==> keys[j] <= keys[k]
    requires forall j :: 0 <= j < k ==> keys[j] < keys[k]
    ensures k == Best(keys)
  {
    var b := Best(keys);
    assert keys[b] <= keys[k] && keys[k] <= keys[b];
  }

  lemma ShortestIsUnique(s: Sched, q: seq<nat>, bound: int, k: int)
    requires -1 <= k < |q|
    requires k == -1 ==> forall x :: 0 <= x < |q| ==> Remaining(P(s, q[x])) >= bound
    requires k >= 0 ==>
               && Remaining(P(s, q[k])) < bound
               && (forall x :: 0 <= x < |q| ==> Remaining(P(s, q[k])) <= Remaining(P(s, q[x])))
               && (forall x :: 0 <= x < k ==> Remaining(P(s, q[k])) < Remaining(P(s, q[x])))
    ensures Shortest(s, q, bound) == if k == -1 then None else Some(k)
  {
    var b := Shortest(s, q, bound);
    if k >= 0 && b.Some? {
      assert Remaining(P(s, q[b.value])) == Remaining(P(s, q[k]));
    }
  }

  /** The first `n` ready processes have been raised. */
  ghost function BoostUpTo(s: Sched, n: nat): Sched
    requires n <= |s.ready|
  {
    s.(procs := seq(|s.procs|, i requires 0 <= i < |s.procs| =>
                      if i in s.ready[..n] then s.procs[i].(prio := s.procs[i].prio + 1) else s.procs[i]))
  }

  lemma BoostFrame(s: Sched, n: nat)
    requires n <= |s.ready|
    ensures BoostUpTo(s, n) == s.(procs := BoostUpTo(s, n).procs) && |BoostUpTo(s, n).procs| == |s.procs|
    ensures (n == 0 ==> BoostUpTo(s, n) == s)
  {
  }

  lemma BoostStep(s: Sched, n: nat)
    requires n < |s.ready| && NoDup(s.ready)
    ensures BoostUpTo(s, n + 1) == SchedModel.SetPrio(BoostUpTo(s, n), s.ready[n],
      P(BoostUpTo(s, n), s.ready[n]).prio + 1)
  {
    assert s.ready[..n + 1] == s.ready[..n] + [s.ready[n]];
    assert s.ready[n] !in s.ready[..n];
  }

  lemma BoostedKey(s: Sched, n: nat, k: nat)
    requires k < n <= |s.ready| && s.ready[k] < |s.procs|
    ensures P(BoostUpTo(s, n), s.ready[k]).prio == P(s, s.ready[k]).prio + 1
  {
    assert s.ready[..n][k] == s.ready[k];
  }

  lemma BestAfterBoost(s: Sched, k: nat)
    requires k < |s.ready| && forall x :: 0 <= x < |s.ready| ==> s.ready[x] < |s.procs|
    requires forall x :: 0 <= x < |s.ready| ==> Prios(s, s.ready)[x] <= Prios(s, s.ready)[k]
    requires forall x :: 0 <= x < k ==> Prios(s, s.ready)[x] < Prios(s, s.ready)[k]
    ensures Boost(s).ready == s.ready && k == Best(Prios(Boost(s), s.ready))
  {
    hide Best;
    var keys := Prios(Boost(s), s.ready);
    forall x | 0 <= x < |s.ready|
      ensures keys[x] == Prios(s, s.ready)[x] + 1
    {
      assert s.ready[x] in s.ready;
    }
    BestIsUnique(keys, k);
  }

  lemma BoostAll(s: Sched)
    ensures BoostUpTo(s, |s.ready|) == Boost(s)
  {
    assert s.ready[..|s.ready|] == s.ready;
  }

  /** The state a script is loaded into. */
  function Load(script: seq<Proc>): Sched {
    Sched(script, seq(|script|, i => i), [], None, FreeResources(), 0)
  }

  lemma LoadIsLoaded(script: seq<Proc>)
    requires forall i :: 0 <= i < |script| ==> WellFormed(script[i])
    ensures Loaded(Load(script)) && Inv(Load(script))
  {
    LoadedInv(Load(script));
  }

  class Simulator {
    const policy: Policy
    const resources: seq<Lock>
    ghost const table: seq<Process>
    var readyqueue: seq<Process>
    var forkqueue: seq<Process>
    var current: Process?
    var ticks: nat
    ghost var S: Sched

    ghost predicate Valid()
      reads this, table, resources
    {
      && Tables()
      && Names(readyqueue, S.ready) && Names(forkqueue, S.forkq)
      && Points(current, S.current)
      && ticks == S.ticks
    }

    /** The process and resource objects hold the values of `S`. */
    ghost predicate Tables()
      reads this, table, resources
    {
      && |table| == |S.procs|
      && (forall i :: 0 <= i < |table| ==> table[i].id == i && table[i].Is(S.procs[i]))
      && |resources| == 16
      && (forall r, x :: 0 <= r < x < 16 ==> resources[r] != resources[x])
      && (forall r ::
        0 <= r < 16 ==> Points(resources[r].owner, S.res[r].owner) && Names(resources[r].waitq, S.res[r].waitq))
    }

    ghost predicate Names(q: seq<Process>, ids: seq<nat>) {
      |q| == |ids| && forall k :: 0 <= k < |q| ==> ids[k] < |table| && q[k] == table[ids[k]]
    }

    ghost predicate Points(p: Process?, id: Option<nat>) {
      if p == null then id == None else id.Some? && id.value < |table| && p == table[id.value]
    }

    constructor (policy: Policy, processes: seq<Process>, ghost script: seq<Proc>)
      requires |processes| == |script| && forall i ::
        0 <= i < |script| ==> processes[i].id == i && processes[i].Is(script[i])
      ensures Valid() && this.policy == policy && table == processes
      ensures S == Load(script)
      ensures (forall i :: 0 <= i < |script| ==> WellFormed(script[i])) ==> Loaded(S) && Inv(S)
    {
      var locks := MakeLocks();
      this.policy := policy;
      resources := locks;
      table := processes;
      readyqueue, forkqueue, current, ticks := [], processes, null, 0;
      S := Load(script);
      new;
      hide Inv, Loaded, Valid;
      if forall i :: 0 <= i < |script| ==> WellFormed(script[i]) {
        LoadIsLoaded(script);
      }
    }

    static method MakeLocks() returns (locks: seq<Lock>)
      ensures |locks| == 16 && forall r ::
        0 <= r < 16 ==> fresh(locks[r]) && locks[r].owner == null && locks[r].waitq == []
      ensures forall r, x :: 0 <= r < x < 16 ==> locks[r] != locks[x]
    {
      locks := [];
      while |locks| < 16
        invariant |locks| <= 16
        invariant forall r :: 0 <= r < |locks| ==> fresh(locks[r]) && locks[r].owner == null && locks[r].waitq == []
        invariant forall r, x :: 0 <= r < x < |locks| ==> locks[r] != locks[x]
      {
        var l := new Lock();
        locks := locks + [l];
      }
    }

    // -------------------------------------------------------------- field updates

    method SetStatus(p: Process, st: Status)
      requires Valid() && p in table
      modifies this`S, p`status
      ensures Valid() && S == SchedModel.SetStatus(old(S), p.id, st)
    {
      p.status := st;
      S := SchedModel.SetStatus(S, p.id, st);
    }

    method SetPrio(p: Process, prio: nat)
      requires Valid() && p in table
      modifies this`S, p`prio
      ensures Valid() && S == SchedModel.SetPrio(old(S), p.id, prio)
    {
      p.prio := prio;
      S := SchedModel.SetPrio(S, p.id, prio);
    }

    // -------------------------------------------------------------- fork

    /** list_move_tail of entry `k` of the fork queue to the ready queue. */
    method ForkEntry(k: nat)
      requires Valid() && k < |forkqueue|
      modifies this`S, this`readyqueue, this`forkqueue, table
      ensures Valid() && S == Forked(old(S), k) && |forkqueue| == old(|forkqueue|) - 1
    {
      var p := forkqueue[k];
      assert p == table[S.forkq[k]] && p in table;
      forkqueue := Without(forkqueue, k);
      readyqueue := readyqueue + [p];
      S := S.(forkq := Without(S.forkq, k), ready := S.ready + [S.forkq[k]]);
      SetStatus(p, Ready);
    }

    method ForkOnSchedule()
      requires Valid()
      modifies this`S, this`readyqueue, this`forkqueue, table
      ensures Valid() && S == ForkFrom(old(S), 0)
    {
      hide ForkFrom, Forked;
      var k := 0;
      while k < |forkqueue|
        invariant Valid() && 0 <= k <= |forkqueue|
        invariant ForkFrom(old(S), 0) == ForkFrom(S, k)
        decreases |forkqueue| - k
      {
        ForkUnfolds(S, k);
        assert forkqueue[k] == table[S.forkq[k]];
        if forkqueue[k].startsAt <= ticks {
          ForkEntry(k);
        } else {
          k := k + 1;
        }
      }
      ForkUnfolds(S, k);
    }

    // -------------------------------------------------------------- schedule

    predicate CanRun()
      reads this, current
    {
      current != null && current.status != Blocked
    }

    predicate HasLife()
      reads this, current
    {
      current != null && current.age < current.lifespan
    }

    /** The choice of a schedule callback: `next` is detached from the ready queue, or is `current`. */
    ghost predicate Chosen(c: Choice, next: Process?)
      reads this
    {
      S == c.s && Points(next, c.next)
    }

    /** list_del_init on entry `k` of the ready queue. */
    method Detach(k: nat) returns (next: Process)
      requires Valid() && k < |readyqueue|
      modifies this`S, this`readyqueue
      ensures Valid() && Chosen(Take(old(S), k), next)
    {
      next := readyqueue[k];
      readyqueue := Without(readyqueue, k);
      S := Take(S, k).s;
    }

    method AddTail(p: Process)
      requires Valid() && p == current
      modifies this`S, this`readyqueue
      ensures Valid() && S == Requeue(old(S))
    {
      readyqueue := readyqueue + [p];
      S := Requeue(S);
    }

    /** The scan `if (pos->prio > next->prio) next = pos`. */
    method ScanPrio(q: seq<Process>, ghost ids: seq<nat>) returns (k: nat)
      requires Valid() && Names(q, ids) && q != []
      ensures k < |q| && k == Best(Prios(S, ids))
    {
      ghost var keys := Prios(S, ids);
      k := 0;
      var j := 0;
      while j < |q|
        invariant 0 <= j <= |q| && k < |q| && (j == 0 ==> k == 0) && (j > 0 ==> k < j)
        invariant forall x :: 0 <= x < j ==> keys[x] <= keys[k]
        invariant forall x :: 0 <= x < k ==> keys[x] < keys[k]
      {
        assert q[j] == table[ids[j]] && q[k] == table[ids[k]];
        if q[j].prio > q[k].prio {
          k := j;
        }
        j := j + 1;
      }
      BestIsUnique(keys, k);
    }

    method FifoSchedule() returns (next: Process?)
      requires Valid()
      modifies this`S, this`readyqueue
      ensures Valid() && Chosen(SchedModel.FifoSchedule(old(S)), next)
    {
      if CanRun() && HasLife() {
        return current;
      }
      if readyqueue == [] {
        return null;
      }
      next := Detach(0);
    }

    method SjfSchedule() returns (next: Process?)
      requires Valid()
      modifies this`S, this`readyqueue
      ensures Valid() && Chosen(SchedModel.SjfSchedule(old(S)), next)
    {
      if CanRun() && HasLife() {
        return current;
      }
      if readyqueue == [] {
        return null;
      }
      ghost var keys := Brevity(S, S.ready);
      var k, j := 0, 0;
      while j < |readyqueue|
        invariant 0 <= j <= |readyqueue| && k < |readyqueue| && (j == 0 ==> k == 0) && (j > 0 ==> k < j)
        invariant forall x :: 0 <= x < j ==> keys[x] <= keys[k]
        invariant forall x :: 0 <= x < k ==> keys[x] < keys[k]
      {
        assert readyqueue[j] == table[S.ready[j]] && readyqueue[k] == table[S.ready[k]];
        if readyqueue[j].lifespan < readyqueue[k].lifespan {
          k := j;
        }
        j := j + 1;
      }
      BestIsUnique(keys, k);
      next := Detach(k);
    }

    method StcfSchedule() returns (next: Process?)
      requires Valid()
      modifies this`S, this`readyqueue
      ensures Valid() && Chosen(SchedModel.StcfSchedule(old(S)), next)
    {
      if readyqueue == [] {
        return if CanRun() && HasLife() then current else null;
      }
      ghost var start: int := if Runnable(S) && CurrentAlive(S) then Remaining(P(S, S.current.value)) else MAX_TC;
      var bound: int := if CanRun() && HasLife() then current.lifespan - current.age else MAX_TC;
      var k, j := -1, 0;
      while j < |readyqueue|
        invariant 0 <= j <= |readyqueue| && -1 <= k < j
        invariant k == -1 ==> bound == start && forall x :: 0 <= x < j ==> Remaining(P(S, S.ready[x])) >= start
        invariant k >= 0 ==>
                    && bound == Remaining(P(S, S.ready[k])) < start
                    && (forall x :: 0 <= x < j ==> bound <= Remaining(P(S, S.ready[x])))
                    && (forall x :: 0 <= x < k ==> bound < Remaining(P(S, S.ready[x])))
      {
        assert readyqueue[j] == table[S.ready[j]];
        if readyqueue[j].lifespan - readyqueue[j].age < bound {
          k := j;
          bound := readyqueue[j].lifespan - readyqueue[j].age;
        }
        j := j + 1;
      }
      ShortestIsUnique(S, S.ready, start, k);
      if k == -1 {
        return current;
      }
      if HasLife() {
        AddTail(current);
      }
      next := Detach(k);
    }

    method RrSchedule() returns (next: Process?)
      requires Valid()
      modifies this`S, this`readyqueue
      ensures Valid() && Chosen(SchedModel.RrSchedule(old(S)), next)
    {
      if readyqueue == [] {
        return if CanRun() && HasLife() then current else null;
      }
      if HasLife() {
        AddTail(current);
      }
      next := Detach(0);
    }

    method PrioSchedule() returns (next: Process?)
      requires Valid()
      modifies this`S, this`readyqueue
      ensures Valid() && Chosen(SchedModel.PrioSchedule(old(S)), next)
    {
      if readyqueue == [] {
        return if CanRun() && HasLife() then current else null;
      }
      var k := ScanPrio(readyqueue, S.ready);
      if !CanRun() {
      } else if current.prio > readyqueue[k].prio && HasLife() {
        return current;
      } else if HasLife() {
        AddTail(current);
      }
      next := Detach(k);
    }

    /** `++pos->prio; pos->prio > next->prio` for entries `j` and `k` of the ready queue. */
    method RaiseAndCompare(ghost was: Sched, j: nat, k: nat) returns (better: bool)
      requires Valid() && k <= j < |readyqueue| && NoDup(was.ready) && |was.ready| == |readyqueue|
        && S == BoostUpTo(was, j)
      modifies this`S, table
      ensures Valid() && S == BoostUpTo(was, j + 1)
      ensures better <==> P(was, was.ready[j]).prio > P(was, was.ready[k]).prio
    {
      hide BoostUpTo;
      BoostFrame(was, j);
      BoostFrame(was, j + 1);
      var pos := readyqueue[j];
      assert pos == table[S.ready[j]] && pos in table && readyqueue[k] == table[S.ready[k]];
      BoostStep(was, j);
      SetPrio(pos, pos.prio + 1);
      BoostedKey(was, j + 1, j);
      BoostedKey(was, j + 1, k);
      better := pos.prio > readyqueue[k].prio;
    }

    /** The loop of pa_schedule: it raises every ready process while it looks for the best one. */
    method BoostAndScan() returns (k: nat)
      requires Valid() && readyqueue != [] && NoDup(S.ready)
      modifies this`S, table
      ensures Valid() && S == Boost(old(S)) && k < |readyqueue| && k == Best(Prios(S, S.ready))
    {
      hide BoostUpTo, Boost, Best;
      ghost var was := S;
      BoostFrame(was, 0);
      ghost var keys := Prios(was, was.ready);
      k := 0;
      var j := 0;
      while j < |readyqueue|
        invariant 0 <= j <= |readyqueue| && k < |readyqueue| && (j == 0 ==> k == 0) && (j > 0 ==> k < j)
        invariant Valid() && S == BoostUpTo(was, j) && |was.ready| == |readyqueue|
        invariant forall x :: 0 <= x < j ==> keys[x] <= keys[k]
        invariant forall x :: 0 <= x < k ==> keys[x] < keys[k]
      {
        var better := RaiseAndCompare(was, j, k);
        if better {
          k := j;
        }
        j := j + 1;
      }
      BoostAll(was);
      BestAfterBoost(was, k);
    }

    method PaSchedule() returns (next: Process?)
      requires Valid() && NoDup(S.ready) && (S.current.Some? ==> S.current.value !in S.ready)
      modifies this`S, this`readyqueue, table
      ensures Valid() && Chosen(SchedModel.PaSchedule(old(S)), next)
    {
      if readyqueue == [] {
        return if CanRun() && HasLife() then current else null;
      }
      hide SchedModel.PaSchedule, Best, Boost, Prios, NoDup, Preferred;
      PaCases(S);
      var k := BoostAndScan();
      next := Prefer(k);
    }

    /** The end of pa_schedule: the current process goes on if it beats entry `k`. */
    method Prefer(k: nat) returns (next: Process?)
      requires Valid() && k < |readyqueue|
      modifies this`S, this`readyqueue, table
      ensures Valid() && Chosen(Preferred(old(S), k), next)
    {
      if !CanRun() {
      } else if current.prio > readyqueue[k].prio && HasLife() {
        return current;
      } else if HasLife() {
        AddTail(current);
      }
      next := DetachReset(k);
    }

    /** Detaches entry `k` and gives it its original priority back. */
    method DetachReset(k: nat) returns (next: Process)
      requires Valid() && k < |readyqueue|
      modifies this`S, this`readyqueue, table
      ensures Valid() && Chosen(Reset(Take(old(S), k)), next)
    {
      next := Detach(k);
      assert next == table[old(S).ready[k]];
      SetPrio(next, next.prioOrig);
    }

    method ScheduleCallback() returns (next: Process?)
      requires Valid() && NoDup(S.ready) && (S.current.Some? ==> S.current.value !in S.ready)
      modifies this`S, this`readyqueue, table
      ensures Valid() && Chosen(Schedule(policy, old(S)), next)
    {
      match policy
      case Fifo => next := FifoSchedule();
      case Sjf => next := SjfSchedule();
      case Stcf => next := StcfSchedule();
      case Rr => next := RrSchedule();
      case Pa => next := PaSchedule();
      case _ => next := PrioSchedule();
    }

    // -------------------------------------------------------------- acquire

    method SetOwner(r: ResId, p: Process?, ghost id: Option<nat>)
      requires Valid() && Points(p, id)
      modifies this`S, resources
      ensures Valid() && S == SetRes(old(S), r, old(S).res[r].(owner := id))
    {
      resources[r].owner := p;
      S := SetRes(S, r, S.res[r].(owner := id));
    }

    method SetWaitq(r: ResId, q: seq<Process>, ghost ids: seq<nat>)
      requires Valid() && Names(q, ids)
      modifies this`S, resources
      ensures Valid() && S == SetRes(old(S), r, old(S).res[r].(waitq := ids))
    {
      resources[r].waitq := q;
      S := SetRes(S, r, S.res[r].(waitq := ids));
    }

    /** The acquire callbacks: first come first served, the same for the priority schedulers, with the
        ceiling under PCP and with inheritance under PIP. */
    method AcquireCallback(r: ResId) returns (ok: bool)
      requires Valid() && current != null
      modifies this`S, table, resources
      ensures Valid() && (S, ok) == Acquire(policy, old(S), old(S).current.value, r)
      ensures current.pending == old(current.pending)
    {
      ghost var c := S.current.value;
      assert current == table[c] && current in table;
      if resources[r].owner == null {
        SetOwner(r, current, Some(c));
        if policy == Pcp {
          SetPrio(current, MAX_PRIO);
        }
        return true;
      }
      var owner := resources[r].owner;
      assert owner == table[S.res[r].owner.value] && owner in table;
      if policy == Pip && owner.prio < current.prio {
        SetPrio(owner, current.prio);
      }
      Enqueue(r);
      return false;
    }

    /** The current process is blocked and joins the wait queue of `r`. */
    method Enqueue(r: ResId)
      requires Valid() && current != null
      modifies this`S, table, resources
      ensures Valid() && current.pending == old(current.pending)
      ensures var s := old(S);
        S == SetRes(SchedModel.SetStatus(s, s.current.value, Blocked), r,
          s.res[r].(waitq := s.res[r].waitq + [s.current.value]))
    {
      ghost var c := S.current.value;
      assert current == table[c] && current in table;
      SetStatus(current, Blocked);
      SetWaitq(r, resources[r].waitq + [current], S.res[r].waitq + [c]);
    }

    /** list_move_tail of pending claim `k` to the holding list. */
    method MoveClaim(k: nat)
      requires Valid() && current != null && k < |current.pending|
      modifies this`S, current
      ensures Valid() && S == SchedModel.MoveClaim(old(S), old(S).current.value, k)
      ensures |current.pending| == old(|current.pending|) - 1
    {
      ghost var c := S.current.value;
      assert current == table[c];
      var claim := current.pending[k];
      current.pending := Without(current.pending, k);
      current.holding := current.holding + [claim];
      S := SchedModel.MoveClaim(S, c, k);
    }

    method RunCurrentAcquire() returns (ok: bool)
      requires Valid() && current != null
      modifies this`S, table, resources
      ensures Valid() && (S, ok) == AcquireFrom(policy, old(S), old(S).current.value, 0)
    {
      hide Acquire, SchedModel.MoveClaim;
      ghost var c := S.current.value;
      assert current == table[c] && current in table;
      var k := 0;
      while k < |current.pending|
        invariant Valid() && 0 <= k <= |current.pending| && S.current == old(S).current
        invariant AcquireFrom(policy, old(S), c, 0) == AcquireFrom(policy, S, c, k)
        decreases |current.pending| - k
      {
        if current.pending[k].at == current.age {
          ghost var before := S;
          AcquireKeepsLists(policy, S, c, S.procs[c].pending[k].res);
          var acquired := AcquireCallback(current.pending[k].res);
          if !acquired {
            return false;
          }
          MoveClaimFrame(S, c, k);
          MoveClaim(k);
        } else {
          k := k + 1;
        }
      }
      return true;
    }

    // -------------------------------------------------------------- release

    /** Takes waiter `k` of resource `r` out of its wait queue and makes it ready. */
    method Wake(r: ResId, k: nat)
      requires Valid() && k < |resources[r].waitq|
      modifies this`S, this`readyqueue, table, resources
      ensures Valid()
      ensures var q := old(S).res[r].waitq;
        S == SetRes(SchedModel.SetStatus(old(S), q[k], Ready), r, old(S).res[r].(waitq := Without(q, k)))
               .(ready := old(S).ready + [q[k]])
    {
      var waiter := resources[r].waitq[k];
      ghost var q := S.res[r].waitq;
      assert waiter == table[q[k]] && waiter in table;
      SetWaitq(r, Without(resources[r].waitq, k), Without(q, k));
      SetStatus(waiter, Ready);
      readyqueue := readyqueue + [waiter];
      S := S.(ready := S.ready + [q[k]]);
    }

    /** The release callbacks. The requirements are what the callbacks assert: the current process owns
        the resource, and whoever waits is blocked. */
    method ReleaseCallback(r: ResId)
      requires Valid() && current != null && resources[r].owner == current
      requires forall i :: i in S.res[r].waitq ==> P(S, i).status == Blocked
      modifies this`S, this`readyqueue, table, resources
      ensures Valid() && S == Release(policy, old(S), old(S).current.value, r)
    {
      ghost var c := S.current.value;
      ResetPriority();
      ghost var reset := S;
      SetOwner(r, null, None);
      WakeIsRelease(policy, old(S), reset, c, r);
      WakeOne(r);
    }

    method ResetPriority()
      requires Valid() && current != null
      modifies this`S, table
      ensures Valid()
      ensures var c := old(S).current.value;
        S == if policy in {Pcp, Pip} then SchedModel.SetPrio(old(S), c, P(old(S), c).prioOrig) else old(S)
    {
      assert current == table[S.current.value] && current in table;
      if policy == Pcp || policy == Pip {
        SetPrio(current, current.prioOrig);
      }
    }

    /** Wakes the waiter of `r` the policy picks, if there is one. */
    method WakeOne(r: ResId)
      requires Valid()
      modifies this`S, this`readyqueue, table, resources
      ensures Valid()
      ensures var s := old(S); var q := s.res[r].waitq;
        S == if q == [] then s
             else
               var k := if ByPriority(policy) then Best(Prios(s, q)) else 0;
               SetRes(SchedModel.SetStatus(s, q[k], Ready), r,
                 s.res[r].(waitq := Without(q, k))).(ready := s.ready + [q[k]])
    {
      hide Best;
      if resources[r].waitq != [] {
        var k := 0;
        if ByPriority(policy) {
          k := ScanPrio(resources[r].waitq, S.res[r].waitq);
        }
        Wake(r, k);
      }
    }

    /** `--rs->duration` of held claim `k`. */
    method CountDown(k: nat)
      requires Valid() && current != null && k < |current.holding|
      modifies this`S, current
      ensures Valid()
      ensures var c := old(S).current.value; var p := P(old(S), c);
        c < |old(S).procs| && k < |p.holding|
          && current.holding == p.holding[k := p.holding[k].(left := Dec32(p.holding[k].left))]
        && S == SetP(old(S), c, p.(holding := p.holding[k := p.holding[k].(left := Dec32(p.holding[k].left))]))
    {
      ghost var c := S.current.value;
      assert current == table[c];
      current.holding := current.holding[k := current.holding[k].(left := Dec32(current.holding[k].left))];
      S := SetP(S, c, P(S, c).(holding := current.holding));
    }

    method DropClaim(k: nat)
      requires Valid() && current != null && k < |current.holding|
      modifies this`S, current
      ensures Valid()
      ensures var c := old(S).current.value; var p := P(old(S), c);
        k < |p.holding| && S == SetP(old(S), c, p.(holding := Without(p.holding, k)))
    {
      ghost var c := S.current.value;
      assert current == table[c];
      current.holding := Without(current.holding, k);
      S := SetP(S, c, P(S, c).(holding := Without(P(S, c).holding, k)));
    }

    method RunCurrentRelease()
      requires Valid() && current != null && Releasing(S, S.current.value, 0)
      modifies this`S, this`readyqueue, table, resources
      ensures Valid() && S == ReleaseFrom(policy, old(S), old(S).current.value, 0)
    {
      hide ReleaseFrom, Release, GiveBack;
      ghost var c := S.current.value;
      var k := 0;
      while k < |current.holding|
        invariant Valid() && 0 <= k <= |current.holding| && Releasing(S, c, k)
        invariant ReleaseFrom(policy, old(S), c, 0) == ReleaseFrom(policy, S, c, k)
        decreases |current.holding| - k
      {
        assert current == table[c] && current.holding == P(S, c).holding;
        ReleaseUnfolds(policy, S, c, k);
        if Dec32(current.holding[k].left) != 0 {
          CountKeeps(S, c, k);
          CountDown(k);
          k := k + 1;
        } else {
          ReleaseStep(k, c);
        }
      }
      assert current == table[c] && k == |P(S, c).holding|;
      ReleaseUnfolds(policy, S, c, k);
    }

    /** The release of a claim that is used up, and its removal from the list. */
    method ReleaseStep(k: nat, ghost c: nat)
      requires Valid() && current != null && Releasing(S, c, k) && k < |current.holding| && current.holding[k].left == 1
      modifies this`S, this`readyqueue, table, resources
      ensures Valid() && S == GiveBack(policy, old(S), c, k) && Releasing(S, c, k)
      ensures |current.holding| == old(|current.holding|) - 1
    {
      hide Release;
      assert current == table[c] && current.holding == P(S, c).holding;
      var r := current.holding[k].res;
      GiveBackKeeps(policy, S, c, k);
      OwnerReleases(S, c, k);
      ReleaseFacts(policy, S, c, r);
      ReleaseCallback(r);
      assert current == table[c] && current.Is(S.procs[c]);
      DropClaim(k);
      assert current == table[c] && current.Is(S.procs[c]);
    }

    // -------------------------------------------------------------- the loop

    /** __exit_process: what it asserts of the process it ends. */
    method ExitProcess(p: Process)
      requires Valid() && p in table
      requires p !in readyqueue && p !in forkqueue && forall r :: 0 <= r < 16 ==> p !in resources[r].waitq
      requires p.holding == [] && p.pending == []
      modifies this`S, p`status
      ensures Valid() && S == SchedModel.SetStatus(old(S), p.id, Exited)
    {
      SetStatus(p, Exited);
    }

    /** What the loop does with the process of the previous tick. */
    method RetirePrevious(prev: Process?, ghost id: Option<nat>)
      requires Valid() && Points(prev, id)
      requires id.Some? && P(S, id.value).age == P(S, id.value).lifespan ==> Detached(S, id.value)
      modifies this`S, table
      ensures Valid() && S == Retire(old(S), id)
    {
      if prev != null {
        assert prev == table[id.value] && prev in table;
        if prev.status == Running {
          SetStatus(prev, Ready);
        }
        if prev.age == prev.lifespan {
          assert prev.Is(S.procs[id.value]);
          NotListed(prev, id.value);
          ExitProcess(prev);
        }
      }
    }

    lemma NotListed(p: Process, i: nat)
      requires Valid() && i < |table| && p == table[i] && Detached(S, i)
      ensures p !in readyqueue && p !in forkqueue && forall r :: 0 <= r < 16 ==> p !in resources[r].waitq
    {
      NotNamed(readyqueue, S.ready, i);
      NotNamed(forkqueue, S.forkq, i);
      forall r | 0 <= r < 16
        ensures p !in resources[r].waitq
      {
        var x: ResId := r;
        assert i !in S.res[x].waitq;
        NotNamed(resources[r].waitq, S.res[r].waitq, i);
      }
    }

    lemma NotNamed(q: seq<Process>, ids: seq<nat>, i: nat)
      requires Tables() && Names(q, ids) && i < |table| && i !in ids
      ensures table[i] !in q
    {
      forall k | 0 <= k < |q|
        ensures q[k] != table[i]
      {
        assert q[k] == table[ids[k]] && q[k].id == ids[k] && table[i].id == i && ids[k] in ids;
      }
    }

    method SetCurrent(p: Process?, ghost id: Option<nat>)
      requires Valid() && Points(p, id)
      modifies this`S, this`current
      ensures Valid() && S == old(S).(current := id)
    {
      current := p;
      S := S.(current := id);
    }

    /** Fork, schedule and retire. No assertion of __exit_process can fail. */
    method DispatchNext()
      requires Valid() && Inv(S) && Suits(policy, ForkFrom(S, 0))
      modifies this`S, this`readyqueue, this`forkqueue, this`current, table
      ensures Valid() && S == Dispatch(policy, old(S))
    {
      hide ForkFrom, Schedule, Retire, Core, Wakes, Suits;
      ForkKeeps(S, 0);
      ForkOnSchedule();
      ghost var f := S;
      ReadyFacts(f);
      var prev := current;
      var next := ScheduleCallback();
      ghost var c := Schedule(policy, f);
      ghost var k := SuitingChoice(policy, f);
      ExitIsClean(f, c, k);
      RetirePrevious(prev, f.current);
      SetCurrent(next, c.next);
      if current != null {
        assert current == table[S.current.value] && current in table;
        SetStatus(current, Running);
      }
    }

    method AgeCurrent()
      requires Valid() && current != null
      modifies this`S, current
      ensures Valid()
      ensures var c := old(S).current.value; S == SetP(old(S), c, P(old(S), c).(age := P(old(S), c).age + 1))
    {
      ghost var c := S.current.value;
      assert current == table[c];
      current.age := current.age + 1;
      S := SetP(S, c, P(S, c).(age := P(S, c).age + 1));
    }

    method RunCurrentProcess()
      requires Valid() && S.current.Some? && Core(S) && Wakes(S, S.current)
      requires RunsAs(S, S.current.value) && Alive(P(S, S.current.value))
      modifies this`S, this`readyqueue, table, resources
      ensures Valid() && S == RunCurrent(policy, old(S), old(S).current.value)
    {
      hide AcquireFrom, ReleaseFrom, Core, Wakes, Releasing;
      ghost var c := S.current.value;
      AcquireKeeps(policy, S, c, 0);
      var ok := RunCurrentAcquire();
      if ok {
        AgeKeeps(S, c);
        assert current == table[c] && current in table;
        AgeCurrent();
        RunCurrentRelease();
      }
    }

    /** One iteration of the simulation loop. */
    method Iterate() returns (halted: bool)
      requires Valid() && Inv(S) && Suits(policy, ForkFrom(S, 0))
      modifies this, table, resources
      ensures Valid() && Inv(S) && S == Tick(policy, old(S)) && (halted <==> Halts(Dispatch(policy, old(S))))
    {
      hide Dispatch, RunCurrent, Inv, Core, Wakes, Tick, Suits, ForkFrom;
      SuitingKeeps(policy, S);
      TickUnfolds(policy, S);
      DispatchNext();
      halted := current == null && readyqueue == [] && forkqueue == [];
      if !halted {
        var next := ticks + 1;
        if current != null {
          RunCurrentProcess();
        }
        AdvanceTicks(next);
      }
    }

    method AdvanceTicks(t: nat)
      requires Valid()
      modifies this`S, this`ticks
      ensures Valid() && S == old(S).(ticks := t)
    {
      ticks := t;
      S := S.(ticks := t);
    }

    /** The simulation loop. It ends, and when each process uses one resource at a time, or none, every
        process has then exited at the age of its lifespan. Under round robin and STCF this is for runs in
        which the scheduler suits: it never finds a blocked current process before a ready one. */
    method DoSimulation()
      requires Valid() && Inv(S) && SuitsAlong(policy, S)
      modifies this, table, resources
      ensures Valid() && Halts(S)
      ensures S == Dispatch(policy, Ticks(policy, old(S), TicksToEnd(policy, old(S))))
      ensures Obey(Ascending, old(S)) ==>
                forall i :: 0 <= i < |table| ==> table[i].status == Exited && table[i].age == table[i].lifespan
    {
      hide Dispatch, Tick, Ticks, Inv, Obey, TicksToEnd, Suits, SuitsAlong, ForkFrom, Halts;
      hide LifeLeft, Unblocked, ForkWait;
      RunsEnd(policy, S);
      ghost var end := Dispatch(policy, Ticks(policy, S, TicksToEnd(policy, S)));
      var halted := false;
      while !halted
        invariant Valid() && (!halted ==> Inv(S) && SuitsAlong(policy, S))
        invariant if halted then S == end else end == Dispatch(policy, Ticks(policy, S, TicksToEnd(policy, S)))
        decreases !halted, LifeLeft(S.procs), Unblocked(S.procs), ForkWait(S, S.forkq)
      {
        TickOrEnd(policy, S);
        halted := Iterate();
      }
      forall i | 0 <= i < |table|
        ensures table[i].status == P(S, i).status && table[i].age == P(S, i).age
          && table[i].lifespan == P(S, i).lifespan
      {
      }
    }
  }
}
