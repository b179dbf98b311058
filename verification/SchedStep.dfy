/** The running half of an iteration: acquiring the claims due at the present age, ageing, and
    releasing what is used up keep the invariant. */
module SchedStep {
  import opened Common
  import opened SchedModel
  import opened SchedInvariant

  ghost predicate RunsAs(s: Sched, c: nat) {
    s.current == Some(c) && c < |s.procs| && P(s, c).status == Running
  }

  lemma {:induction false} DueIsPending(p: Proc, k: nat)
    requires k < |p.pending| && p.pending[k].at == p.age && NoneDueBefore(p, k)
    ensures WaitsFor(p) == Some(p.pending[k].res)
  {
    DueSkips(p, 0, k);
  }

  /** The running process is on no list: what the loop asserts before it runs it. */
  lemma RunningIsDetached(s: Sched, c: nat)
    requires Core(s) && RunsAs(s, c)
    ensures c !in s.ready && c !in s.forkq && forall r: ResId :: c !in s.res[r].waitq
  {
  }

  predicate SameHeld(p: Proc, p': Proc) {
    |p'.holding| == |p.holding| && forall j :: 0 <= j < |p.holding| ==> p'.holding[j].res == p.holding[j].res
  }

  lemma OwnersFrame(s: Sched, s': Sched)
    requires Owners(s) && |s'.procs| == |s.procs|
    requires forall x: ResId :: s'.res[x].owner == s.res[x].owner
    requires forall i: nat :: SameHeld(P(s, i), P(s', i))
    ensures Owners(s')
  {
    forall x: ResId | s'.res[x].owner.Some?
      ensures Holds(s', s'.res[x].owner.value, x)
    {
      var i := s.res[x].owner.value;
      assert Holds(s, i, x) && SameHeld(P(s, i), P(s', i));
      var j :| 0 <= j < |P(s, i).holding| && P(s, i).holding[j].res == x;
      assert P(s', i).holding[j].res == x;
    }
    forall i, j | 0 <= i < |s'.procs| && 0 <= j < |P(s', i).holding|
      ensures s'.res[P(s', i).holding[j].res].owner == Some(i)
    {
      assert SameHeld(P(s, i), P(s', i));
      assert s.res[P(s, i).holding[j].res].owner == Some(i);
    }
  }

  // ---------------------------------------------------------------- acquire

  lemma WakesWithout(s: Sched, c: nat)
    requires Wakes(s, Some(c)) && NoneDueBefore(P(s, c), |P(s, c).pending|)
    ensures Wakes(s, None)
  {
    DueSkips(P(s, c), 0, |P(s, c).pending|);
    forall r: ResId | s.res[r].owner.None? && s.res[r].waitq != []
      ensures Awaited(s, None, r)
    {
      assert Awaited(s, Some(c), r);
    }
  }

  /** The current process takes free resource `pending[k].res`. */
  function Own(policy: Policy, s: Sched, c: nat, k: nat): Sched
    requires k < |P(s, c).pending|
  {
    MoveClaim(Acquire(policy, s, c, P(s, c).pending[k].res).0, c, k)
  }

  lemma OwnFacts(policy: Policy, s: Sched, c: nat, k: nat)
    requires c < |s.procs| && k < |P(s, c).pending| && s.res[P(s, c).pending[k].res].owner == None
    ensures var p := P(s, c); var s' := Own(policy, s, c, k);
      && s' == s.(procs := s'.procs, res := s.res[p.pending[k].res := s.res[p.pending[k].res].(owner := Some(c))])
      && |s'.procs| == |s.procs|
      && P(s', c) == p.(pending := Without(p.pending, k), holding := p.holding + [p.pending[k]], prio := P(s', c).prio)
      && P(s', c).prio == (if policy == Pcp then MAX_PRIO else p.prio)
      && forall i :: i != c ==> P(s', i) == P(s, i)
  {
  }

  lemma OwnSane(policy: Policy, s: Sched, c: nat, k: nat)
    requires AllSane(s) && Owners(s) && RunsAs(s, c) && k < |P(s, c).pending| && P(s, c).pending[k].at == P(s, c).age
    requires s.res[P(s, c).pending[k].res].owner == None
    ensures AllSane(Own(policy, s, c, k))
  {
    hide Own;
    OwnFacts(policy, s, c, k);
    var s' := Own(policy, s, c, k);
    assert Sane(P(s, c));
    forall i | 0 <= i < |s.procs|
      ensures Sane(P(s', i))
    {
      assert Sane(P(s, i));
    }
  }

  lemma OwnQueues(policy: Policy, s: Sched, c: nat, k: nat)
    requires Queues(s) && RunsAs(s, c) && k < |P(s, c).pending|
    requires s.res[P(s, c).pending[k].res].owner == None
    ensures Queues(Own(policy, s, c, k))
  {
    hide Own;
    OwnFacts(policy, s, c, k);
    var s' := Own(policy, s, c, k);
    assert forall x: ResId :: s'.res[x].waitq == s.res[x].waitq;
    forall i | 0 <= i < |s.procs|
      ensures Placed(s', i)
    {
      assert Placed(s, i);
    }
  }

  lemma OwnOwners(policy: Policy, s: Sched, c: nat, k: nat)
    requires Owners(s) && c < |s.procs| && k < |P(s, c).pending|
    requires s.res[P(s, c).pending[k].res].owner == None
    ensures Owners(Own(policy, s, c, k))
  {
    hide Own;
    OwnFacts(policy, s, c, k);
    var r := P(s, c).pending[k].res;
    var s' := Own(policy, s, c, k);
    forall x: ResId | s'.res[x].owner.Some?
      ensures Holds(s', s'.res[x].owner.value, x)
    {
      if x == r {
        assert P(s', c).holding[|P(s, c).holding|].res == r;
      } else {
        assert Holds(s, s.res[x].owner.value, x);
        var j :| 0 <= j < |P(s, s.res[x].owner.value).holding| && P(s, s.res[x].owner.value).holding[j].res == x;
        assert P(s', s.res[x].owner.value).holding[j].res == x;
      }
    }
    forall i, j | 0 <= i < |s'.procs| && 0 <= j < |P(s', i).holding|
      ensures s'.res[P(s', i).holding[j].res].owner == Some(i)
    {
      if j < |P(s, i).holding| {
        assert P(s', i).holding[j] == P(s, i).holding[j];
        assert s.res[P(s, i).holding[j].res].owner == Some(i);
      }
    }
  }

  lemma OwnKeeps(policy: Policy, s: Sched, c: nat, k: nat)
    requires Core(s) && Wakes(s, Some(c)) && RunsAs(s, c) && Alive(P(s, c))
    requires NoneDueBefore(P(s, c), k) && k < |P(s, c).pending| && P(s, c).pending[k].at == P(s, c).age
    requires s.res[P(s, c).pending[k].res].owner == None
    ensures var s' := Own(policy, s, c, k);
      && Core(s') && Wakes(s', Some(c)) && RunsAs(s', c) && NoneDueBefore(P(s', c), k)
      && s'.ready == s.ready && s'.forkq == s.forkq && |s'.procs| == |s.procs|
  {
    hide Own;
    OwnFacts(policy, s, c, k);
    OwnQueues(policy, s, c, k);
    OwnOwners(policy, s, c, k);
    OwnSane(policy, s, c, k);
    DueIsPending(P(s, c), k);
    var s' := Own(policy, s, c, k);
    hide Queues, Owners, AllSane;
    forall x: ResId | s'.res[x].owner.None? && s'.res[x].waitq != []
      ensures Awaited(s', Some(c), x)
    {
      assert x != P(s, c).pending[k].res && Awaited(s, Some(c), x);
      var w :| (w in s.ready || Some(c) == Some(w)) && WaitsFor(P(s, w)) == Some(x);
      assert w != c && P(s', w) == P(s, w);
    }
  }

  function Join(s: Sched, c: nat, r: ResId): Sched {
    SetRes(SetStatus(s, c, Blocked), r, s.res[r].(waitq := s.res[r].waitq + [c]))
  }

  lemma JoinQueues(s: Sched, c: nat, r: ResId)
    requires Queues(s) && RunsAs(s, c) && WaitsFor(P(s, c)) == Some(r)
    ensures Queues(Join(s, c, r))
  {
    var s' := Join(s, c, r);
    assert forall i :: P(s', i) == P(s, i).(status := P(s', i).status);
    assert s'.res[r].waitq[|s.res[r].waitq|] == c;
    assert forall i :: i in s'.res[r].waitq <==> i in s.res[r].waitq || i == c;
    forall i: nat
      ensures WaitsFor(P(s', i)) == WaitsFor(P(s, i))
    {
      DueIgnoresPrio(P(s, i), P(s', i), 0);
    }
    forall i | 0 <= i < |s.procs|
      ensures Placed(s', i)
    {
      assert Placed(s, i);
    }
  }

  /** A running process joins the wait queue of the owned resource it is due. */
  lemma JoinKeeps(s: Sched, c: nat, r: ResId)
    requires Core(s) && Wakes(s, Some(c)) && RunsAs(s, c) && Alive(P(s, c))
    requires WaitsFor(P(s, c)) == Some(r) && s.res[r].owner.Some?
    ensures var s' := Join(s, c, r);
      Core(s') && Wakes(s', None) && P(s', c).status == Blocked
  {
    var s' := Join(s, c, r);
    JoinQueues(s, c, r);
    assert forall i :: P(s', i) == P(s, i).(status := P(s', i).status);
    OwnersFrame(s, s');
    forall i | 0 <= i < |s.procs|
      ensures Sane(P(s', i))
    {
      assert Sane(P(s, i));
    }
    forall x: ResId | s'.res[x].owner.None? && s'.res[x].waitq != []
      ensures Awaited(s', None, x)
    {
      assert Awaited(s, Some(c), x);
      var w :| (w in s.ready || Some(c) == Some(w)) && WaitsFor(P(s, w)) == Some(x);
      DueIgnoresPrio(P(s, w), P(s', w), 0);
    }
  }

  lemma BlockKeeps(policy: Policy, s: Sched, c: nat, k: nat)
    requires Core(s) && Wakes(s, Some(c)) && RunsAs(s, c) && Alive(P(s, c))
    requires NoneDueBefore(P(s, c), k) && k < |P(s, c).pending| && P(s, c).pending[k].at == P(s, c).age
    requires s.res[P(s, c).pending[k].res].owner.Some?
    ensures var (s', ok) := Acquire(policy, s, c, P(s, c).pending[k].res);
      && !ok && Core(s') && Wakes(s', None) && P(s', c).status == Blocked && s'.current == s.current
      && s'.ready == s.ready && s'.forkq == s.forkq && |s'.procs| == |s.procs|
  {
    var r := P(s, c).pending[k].res;
    var owner := s.res[r].owner.value;
    var raised := if policy == Pip && P(s, owner).prio < P(s, c).prio then SetPrio(s, owner, P(s, c).prio) else s;
    PrioIsIrrelevant(s, raised, Some(c));
    var s' := Acquire(policy, s, c, r).0;
    assert s'.res[r].owner == s.res[r].owner;
    DueIsPending(P(raised, c), k);
    JoinKeeps(raised, c, r);
    assert s' == Join(raised, c, r);
  }

  lemma {:induction false} AcquireKeeps(policy: Policy, s: Sched, c: nat, k: nat)
    requires Core(s) && Wakes(s, Some(c)) && RunsAs(s, c) && Alive(P(s, c)) && NoneDueBefore(P(s, c), k)
    ensures var (s', ok) := AcquireFrom(policy, s, c, k);
      && Core(s') && Wakes(s', None) && s'.current == s.current
      && s'.ready == s.ready && s'.forkq == s.forkq && |s'.procs| == |s.procs|
      && P(s', c).age == P(s, c).age && P(s', c).lifespan == P(s, c).lifespan
      && (if ok then P(s', c).status == Running && NoneDueBefore(P(s', c), |P(s', c).pending|)
          else P(s', c).status == Blocked)
    decreases |P(s, c).pending| - k
  {
    hide Queues, Owners;
    var p := P(s, c);
    if k >= |p.pending| {
      WakesWithout(s, c);
    } else if p.pending[k].at != p.age {
      AcquireKeeps(policy, s, c, k + 1);
    } else if s.res[p.pending[k].res].owner.None? {
      OwnKeeps(policy, s, c, k);
      AcquireKeeps(policy, Own(policy, s, c, k), c, k);
    } else {
      BlockKeeps(policy, s, c, k);
    }
  }

  // ---------------------------------------------------------------- release

  /** Between ageing and the last release of a tick: `k` held claims of `c` have been counted down. */
  ghost predicate Releasing(s: Sched, c: nat, k: nat) {
    && Queues(s) && Owners(s) && RunsAs(s, c) && Wakes(s, None)
    && (forall i :: 0 <= i < |s.procs| && i != c ==> Sane(P(s, i)))
    && PendingOk(P(s, c)) && HoldingOk(P(s, c), k) && P(s, c).age <= P(s, c).lifespan
  }

  lemma AgeKeeps(s: Sched, c: nat)
    requires Core(s) && Wakes(s, None) && RunsAs(s, c) && Alive(P(s, c))
    requires NoneDueBefore(P(s, c), |P(s, c).pending|)
    ensures Releasing(SetP(s, c, P(s, c).(age := P(s, c).age + 1)), c, 0)
  {
    var s' := SetP(s, c, P(s, c).(age := P(s, c).age + 1));
    assert Sane(P(s, c));
    assert forall i :: 0 <= i < |s.procs| && i != c ==> P(s', i) == P(s, i);
    forall i | 0 <= i < |s.procs|
      ensures Placed(s', i)
    {
      assert Placed(s, i);
    }
    OwnersFrame(s, s');
    forall x: ResId | s'.res[x].owner.None? && s'.res[x].waitq != []
      ensures Awaited(s', None, x)
    {
      assert Awaited(s, None, x);
      var w :| w in s.ready && WaitsFor(P(s, w)) == Some(x);
      assert w != c;
    }
  }

  /** A held claim that is not used up yet is counted down. */
  lemma CountKeeps(s: Sched, c: nat, k: nat)
    requires Releasing(s, c, k) && k < |P(s, c).holding| && P(s, c).holding[k].left > 1
    ensures var p := P(s, c);
      Releasing(SetP(s, c, p.(holding := p.holding[k := p.holding[k].(left := p.holding[k].left - 1)])), c, k + 1)
  {
    var p := P(s, c);
    var s' := SetP(s, c, p.(holding := p.holding[k := p.holding[k].(left := p.holding[k].left - 1)]));
    assert forall i :: 0 <= i < |s.procs| && i != c ==> P(s', i) == P(s, i);
    forall i | 0 <= i < |s.procs|
      ensures Placed(s', i)
    {
      assert Placed(s, i);
    }
    OwnersFrame(s, s');
    forall x: ResId | s'.res[x].owner.None? && s'.res[x].waitq != []
      ensures Awaited(s', None, x)
    {
      assert Awaited(s, None, x);
      var w :| w in s.ready && WaitsFor(P(s, w)) == Some(x);
      assert w != c;
    }
  }

  /** The release of held claim `k` and its removal from the list. */
  function GiveBack(policy: Policy, s: Sched, c: nat, k: nat): Sched
    requires k < |P(s, c).holding|
  {
    var s1 := Release(policy, s, c, P(s, c).holding[k].res);
    if k >= |P(s1, c).holding| then s1
    else SetP(s1, c, P(s1, c).(holding := Without(P(s1, c).holding, k)))
  }

  /** `q[j]` is the first of the most important ones. */
  ghost predicate FirstHighest(s: Sched, q: seq<nat>, j: nat)
    requires j < |q|
  {
    && (forall x :: 0 <= x < |q| ==> P(s, q[x]).prio <= P(s, q[j]).prio)
    && (forall x :: 0 <= x < j ==> P(s, q[x]).prio < P(s, q[j]).prio)
  }

  /** Waiter `j` of resource `r` was woken; the first one, or the first of the highest priority. */
  ghost predicate Woken(policy: Policy, s: Sched, s': Sched, c: nat, r: ResId, j: nat)
    requires j < |s.res[r].waitq|
  {
    var q := s.res[r].waitq;
    && s'.res[r].waitq == Without(q, j) && s'.ready == s.ready + [q[j]] && q[j] != c
    && (forall i :: i != c ==> P(s', i) == P(s, i).(status := if i == q[j] then Ready else P(s, i).status))
    && (if policy in {Prio, Pa, Pcp, Pip} then FirstHighest(s, q, j) else policy in {Fifo, Sjf, Stcf, Rr} && j == 0)
  }

  /** What every release does, whoever waits. */
  ghost predicate Released(policy: Policy, s: Sched, s': Sched, c: nat, r: ResId) {
    && |s'.procs| == |s.procs| && s'.current == s.current && s'.forkq == s.forkq && s'.ticks == s.ticks
    && P(s', c) == P(s, c).(prio := if policy in {Pcp, Pip} then P(s, c).prioOrig else P(s, c).prio)
    && (forall x: ResId :: x != r ==> s'.res[x] == s.res[x])
    && s'.res[r].owner == None
  }

  lemma WaiterIsFirst(policy: Policy, s: Sched, reset: Sched, q: seq<nat>)
    requires q != [] && forall i :: i in q ==> P(reset, i) == P(s, i)
    ensures var j := Waiter(policy, reset, q);
      if policy in {Prio, Pa, Pcp, Pip} then FirstHighest(s, q, j) else policy in {Fifo, Sjf, Stcf, Rr} && j == 0
  {
    hide Best;
    assert forall x :: 0 <= x < |q| ==> q[x] in q;
  }

  lemma ReleaseWakes(policy: Policy, s: Sched, c: nat, r: ResId) returns (j: nat)
    requires Queues(s) && RunsAs(s, c) && s.res[r].waitq != []
    ensures Released(policy, s, Release(policy, s, c, r), c, r)
    ensures j < |s.res[r].waitq| && Woken(policy, s, Release(policy, s, c, r), c, r, j)
  {
    hide Waiter, FirstHighest;
    var q := s.res[r].waitq;
    var reset := if policy in {Pcp, Pip} then SetPrio(s, c, P(s, c).prioOrig) else s;
    j := Waiter(policy, reset, q);
    assert c !in q;
    assert q[j] in q;
    assert forall i: nat :: i != c ==> P(reset, i) == P(s, i);
    hide Queues;
    WaiterIsFirst(policy, s, reset, q);
  }

  lemma ReleaseAlone(policy: Policy, s: Sched, c: nat, r: ResId)
    requires c < |s.procs| && s.res[r].waitq == []
    ensures var s' := Release(policy, s, c, r);
      && Released(policy, s, s', c, r)
      && s'.res[r].waitq == [] && s'.ready == s.ready && forall i :: i != c ==> P(s', i) == P(s, i)
  {
  }

  /** What a release callback does: the resource is free, at most one waiter is woken, and the releasing
      process gets its original priority back under PCP and PIP. */
  lemma ReleaseFacts(policy: Policy, s: Sched, c: nat, r: ResId)
    requires Queues(s) && RunsAs(s, c)
    ensures var s' := Release(policy, s, c, r);
      && Released(policy, s, s', c, r)
      && if s.res[r].waitq == [] then
           && s'.res[r].waitq == [] && s'.ready == s.ready
           && (forall i :: i != c ==> P(s', i) == P(s, i))
         else exists j :: 0 <= j < |s.res[r].waitq| && Woken(policy, s, s', c, r, j)
  {
    hide Queues, Release, Woken;
    if s.res[r].waitq == [] {
      ReleaseAlone(policy, s, c, r);
    } else {
      var j := ReleaseWakes(policy, s, c, r);
    }
  }

  /** What a release does to the processes: the holder's list, at most one waiter's status, priorities. */
  lemma GiveBackFacts(policy: Policy, s: Sched, c: nat, k: nat)
    requires Queues(s) && RunsAs(s, c) && k < |P(s, c).holding|
    ensures var s' := GiveBack(policy, s, c, k); var r := P(s, c).holding[k].res;
      && |s'.procs| == |s.procs| && s'.current == s.current && s'.forkq == s.forkq && s'.ticks == s.ticks
      && P(s', c) == P(s, c).(holding := Without(P(s, c).holding, k), prio := P(s', c).prio)
      && P(s', c).prio == (if policy in {Pcp, Pip} then P(s, c).prioOrig else P(s, c).prio)
      && (forall x: ResId :: x != r ==> s'.res[x] == s.res[x])
      && s'.res[r].owner == None
      && if s.res[r].waitq == [] then
           && s'.res[r].waitq == [] && s'.ready == s.ready
           && (forall i :: i != c ==> P(s', i) == P(s, i))
         else exists j :: 0 <= j < |s.res[r].waitq| && Woken(policy, s, s', c, r, j)
  {
    hide Release;
    var r := P(s, c).holding[k].res;
    ReleaseFacts(policy, s, c, r);
    var s1, s' := Release(policy, s, c, r), GiveBack(policy, s, c, k);
    assert forall i :: i != c ==> P(s', i) == P(s1, i);
    if s.res[r].waitq != [] {
      var j :| 0 <= j < |s.res[r].waitq| && Woken(policy, s, s1, c, r, j);
      assert Woken(policy, s, s', c, r, j);
    }
  }

  lemma GiveBackSane(policy: Policy, s: Sched, c: nat, k: nat)
    requires Releasing(s, c, k) && k < |P(s, c).holding|
    ensures var s' := GiveBack(policy, s, c, k);
      && RunsAs(s', c) && |s'.procs| == |s.procs|
      && (forall i :: 0 <= i < |s.procs| && i != c ==> Sane(P(s', i)))
      && PendingOk(P(s', c)) && HoldingOk(P(s', c), k) && P(s', c).age <= P(s', c).lifespan
  {
    hide GiveBack, Owners, Wakes;
    GiveBackFacts(policy, s, c, k);
    var s' := GiveBack(policy, s, c, k);
    forall i | 0 <= i < |s.procs| && i != c
      ensures Sane(P(s', i))
    {
      assert Sane(P(s, i));
    }
  }

  /** A release changes the claims of no other process. */
  lemma GiveBackLeaves(policy: Policy, s: Sched, c: nat, k: nat)
    requires Queues(s) && RunsAs(s, c) && k < |P(s, c).holding|
    ensures forall i: nat :: i != c ==> P(GiveBack(policy, s, c, k), i).holding == P(s, i).holding
  {
    hide GiveBack, Queues, FirstHighest;
    GiveBackFacts(policy, s, c, k);
  }

  lemma GiveBackOwners(policy: Policy, s: Sched, c: nat, k: nat)
    requires Queues(s) && Owners(s) && RunsAs(s, c) && HoldingOk(P(s, c), k) && k < |P(s, c).holding|
    ensures Owners(GiveBack(policy, s, c, k))
  {
    hide GiveBack, Woken, Queues, Released, FirstHighest, PendingOk, RunsAs;
    GiveBackFacts(policy, s, c, k);
    GiveBackLeaves(policy, s, c, k);
    var s' := GiveBack(policy, s, c, k);
    var r := P(s, c).holding[k].res;
    forall x: ResId | s'.res[x].owner.Some?
      ensures Holds(s', s'.res[x].owner.value, x)
    {
      assert Holds(s, s.res[x].owner.value, x);
      var i := s.res[x].owner.value;
      var j :| 0 <= j < |P(s, i).holding| && P(s, i).holding[j].res == x;
      if i == c {
        assert P(s', c).holding[if j < k then j else j - 1].res == x;
      } else {
        assert P(s', i).holding[j].res == x;
      }
    }
    forall i, j | 0 <= i < |s'.procs| && 0 <= j < |P(s', i).holding|
      ensures s'.res[P(s', i).holding[j].res].owner == Some(i)
    {
      var j' := if i == c && j >= k then j + 1 else j;
      assert P(s', i).holding[j] == P(s, i).holding[j'];
      assert s.res[P(s, i).holding[j'].res].owner == Some(i);
      assert s.res[P(s, c).holding[k].res].owner == Some(c);
    }
  }

  lemma WokenQueues(s: Sched, s': Sched, c: nat, r: ResId, j: nat)
    requires Queues(s) && Wakes(s, None) && RunsAs(s, c) && j < |s.res[r].waitq|
    requires |s'.procs| == |s.procs| && s'.current == s.current && s'.forkq == s.forkq
    requires P(s', c).status == Running && forall i: nat :: WaitsFor(P(s', i)) == WaitsFor(P(s, i))
    requires forall x: ResId :: x != r ==> s'.res[x] == s.res[x]
    requires var q := s.res[r].waitq;
      && s'.res[r] == Resource(None, Without(q, j)) && s'.ready == s.ready + [q[j]] && q[j] != c
      && (forall i :: i != c ==> P(s', i) == P(s, i).(status := if i == q[j] then Ready else P(s, i).status))
    ensures Queues(s') && Wakes(s', None)
  {
    var q := s.res[r].waitq;
    assert q[j] in q;
    WithoutMembers(q, j);
    assert s'.ready[|s.ready|] == q[j];
    assert forall i :: i in s'.ready <==> i in s.ready || i == q[j];
    assert WaitsFor(P(s', q[j])) == Some(r);
    forall i | 0 <= i < |s.procs|
      ensures Placed(s', i)
    {
      assert Placed(s, i);
    }
    forall x: ResId | s'.res[x].owner.None? && s'.res[x].waitq != []
      ensures Awaited(s', None, x)
    {
      if x != r {
        assert Awaited(s, None, x);
      }
    }
  }

  lemma UnwokenQueues(s: Sched, s': Sched, c: nat, r: ResId)
    requires Queues(s) && Wakes(s, None) && RunsAs(s, c)
    requires |s'.procs| == |s.procs| && s'.current == s.current && s'.forkq == s.forkq && s'.ready == s.ready
    requires P(s', c).status == Running && forall i: nat :: WaitsFor(P(s', i)) == WaitsFor(P(s, i))
    requires forall x: ResId :: s'.res[x].waitq == s.res[x].waitq && (x != r ==> s'.res[x].owner == s.res[x].owner)
    requires s'.res[r].waitq == [] && forall i :: i != c ==> P(s', i) == P(s, i)
    ensures Queues(s') && Wakes(s', None)
  {
    forall i | 0 <= i < |s.procs|
      ensures Placed(s', i)
    {
      assert Placed(s, i);
    }
    forall x: ResId | s'.res[x].owner.None? && s'.res[x].waitq != []
      ensures Awaited(s', None, x)
    {
      assert Awaited(s, None, x);
    }
  }

  lemma GiveBackQueues(policy: Policy, s: Sched, c: nat, k: nat)
    requires Queues(s) && Wakes(s, None) && RunsAs(s, c) && k < |P(s, c).holding|
    ensures var s' := GiveBack(policy, s, c, k);
      Queues(s') && Wakes(s', None)
  {
    hide GiveBack;
    GiveBackFacts(policy, s, c, k);
    var s' := GiveBack(policy, s, c, k);
    var r := P(s, c).holding[k].res;
    var q := s.res[r].waitq;
    forall i: nat
      ensures WaitsFor(P(s', i)) == WaitsFor(P(s, i))
    {
      DueIgnoresPrio(P(s, i), P(s', i), 0);
    }
    if q != [] {
      var j :| 0 <= j < |q| && Woken(policy, s, s', c, r, j);
      WokenQueues(s, s', c, r, j);
    } else {
      UnwokenQueues(s, s', c, r);
    }
  }

  lemma GiveBackKeeps(policy: Policy, s: Sched, c: nat, k: nat)
    requires Releasing(s, c, k) && k < |P(s, c).holding| && P(s, c).holding[k].left == 1
    ensures Releasing(GiveBack(policy, s, c, k), c, k)
  {
    hide GiveBack, Queues, Owners, Wakes;
    GiveBackSane(policy, s, c, k);
    GiveBackQueues(policy, s, c, k);
    GiveBackOwners(policy, s, c, k);
  }

  /** The loop of __run_current_release, one claim at a time. */
  lemma ReleaseUnfolds(policy: Policy, s: Sched, c: nat, k: nat)
    requires Queues(s) && RunsAs(s, c) && k <= |P(s, c).holding|
    ensures var p := P(s, c); var r := ReleaseFrom(policy, s, c, k);
      if k == |p.holding| then r == s
      else if Dec32(p.holding[k].left) != 0 then
        r == ReleaseFrom(policy,
          SetP(s, c, p.(holding := p.holding[k := p.holding[k].(left := Dec32(p.holding[k].left))])), c, k + 1)
      else
        r == ReleaseFrom(policy, GiveBack(policy, s, c, k), c, k)
  {
    if k < |P(s, c).holding| {
      GiveBackFacts(policy, s, c, k);
    }
  }

  lemma {:induction false} ReleaseKeeps(policy: Policy, s: Sched, c: nat, k: nat)
    requires Releasing(s, c, k) && k <= |P(s, c).holding|
    ensures var s' := ReleaseFrom(policy, s, c, k);
      && Inv(s') && s'.current == s.current && s'.forkq == s.forkq && |s'.procs| == |s.procs|
      && P(s', c).status == Running && P(s', c).age == P(s, c).age && P(s', c).lifespan == P(s, c).lifespan
    decreases |P(s, c).holding| - k
  {
    hide ReleaseFrom, GiveBack, Queues, Owners, Wakes;
    ReleaseUnfolds(policy, s, c, k);
    var p := P(s, c);
    if k == |p.holding| {
      assert Sane(p);
    } else if p.holding[k].left > 1 {
      CountKeeps(s, c, k);
      var h := p.holding[k].(left := p.holding[k].left - 1);
      ReleaseKeeps(policy, SetP(s, c, p.(holding := p.holding[k := h])), c, k + 1);
    } else {
      GiveBackFacts(policy, s, c, k);
      GiveBackKeeps(policy, s, c, k);
      ReleaseKeeps(policy, GiveBack(policy, s, c, k), c, k);
    }
  }

  // ---------------------------------------------------------------- one tick, whole runs

  lemma RunKeeps(policy: Policy, s: Sched, c: nat)
    requires Core(s) && Wakes(s, Some(c)) && RunsAs(s, c) && Alive(P(s, c))
    ensures var s' := RunCurrent(policy, s, c);
      Inv(s') && s'.current == Some(c) && |s'.procs| == |s.procs| && s'.forkq == s.forkq
  {
    hide AcquireFrom, ReleaseFrom, Core, Wakes, Releasing;
    AcquireKeeps(policy, s, c, 0);
    var (s1, ok) := AcquireFrom(policy, s, c, 0);
    if ok {
      AgeKeeps(s1, c);
      ReleaseKeeps(policy, SetP(s1, c, P(s1, c).(age := P(s1, c).age + 1)), c, 0);
    }
  }

  lemma TicksDoNotMatter(s: Sched, t: nat)
    requires Inv(s)
    ensures Inv(s.(ticks := t))
  {
    var s' := s.(ticks := t);
    assert forall i :: P(s', i) == P(s, i);
    OwnersFrame(s, s');
    forall i | 0 <= i < |s.procs|
      ensures Placed(s', i) && Sane(P(s', i))
    {
      assert Placed(s, i) && Sane(P(s, i));
    }
    forall x: ResId | s'.res[x].owner.None? && s'.res[x].waitq != []
      ensures Awaited(s', None, x)
    {
      assert Awaited(s, None, x);
    }
  }

  /** Every iteration keeps the invariant. */
  lemma TickKeeps(policy: Policy, s: Sched)
    requires BlockAware(policy) && Inv(s)
    ensures Inv(Tick(policy, s)) && |Tick(policy, s).procs| == |s.procs|
  {
    hide RunCurrent, Dispatch, Core, Wakes;
    DispatchKeeps(policy, s);
    var d := Dispatch(policy, s);
    if !Halts(d) {
      if d.current.Some? {
        RunKeeps(policy, d, d.current.value);
      }
      var ran := if d.current.None? then d else RunCurrent(policy, d, d.current.value);
      TicksDoNotMatter(ran, d.ticks + 1);
    }
  }

  /** The invariant holds in every reachable state. */
  lemma {:induction false} RunsKeep(policy: Policy, s: Sched, n: nat)
    requires BlockAware(policy) && Inv(s)
    ensures Inv(Ticks(policy, s, n)) && |Ticks(policy, s, n).procs| == |s.procs|
    decreases n
  {
    if n > 0 {
      TickKeeps(policy, s);
      RunsKeep(policy, Tick(policy, s), n - 1);
    }
  }

  lemma {:induction false} TicksSplit(policy: Policy, s: Sched, a: nat, b: nat)
    ensures Ticks(policy, s, a + b) == Ticks(policy, Ticks(policy, s, a), b)
    decreases a
  {
    hide Tick;
    if a > 0 {
      TicksSplit(policy, Tick(policy, s), a - 1, b);
    }
  }

  /** `i` completes `t` iterations from `s`, and not before. */
  ghost predicate CompletesAfter(policy: Policy, s: Sched, i: nat, t: nat) {
    && P(Ticks(policy, s, t), i).age == P(s, i).lifespan
    && forall u :: 0 <= u < t ==> P(Ticks(policy, s, u), i).age < P(s, i).lifespan
  }
}
