/** The priority ceiling with any number of resources held at once: what keeps it step by step, exactly, and
    over whole runs of scripts in which overlapping claims of a process end together. */
module SchedCeiling {
  import opened Common
  import opened SchedModel
  import opened SchedInvariant
  import opened SchedStep
  import opened SchedPreemptive
  import opened SchedRuns
  import opened SchedPriority

  /** Nobody waits, and whoever owns a resource is the current process, at the ceiling, which is above all
      original priorities. */
  ghost predicate Capped(s: Sched) {
    && (forall r: ResId :: s.res[r].waitq == [])
    && (forall r: ResId :: s.res[r].owner.Some? ==>
          s.current == s.res[r].owner && P(s, s.res[r].owner.value).prio == MAX_PRIO)
    && (forall i :: 0 <= i < |s.procs| ==> P(s, i).prioOrig < MAX_PRIO)
  }

  /** And everyone else has the original priority. */
  ghost predicate Ceiling(s: Sched) { Capped(s) && BaseUnlessHolding(s) }

  lemma LoadedCeiling(s: Sched)
    requires Loaded(s) && forall i :: 0 <= i < |s.procs| ==> P(s, i).prioOrig < MAX_PRIO
    ensures Ceiling(s)
  {
  }

  // ---------------------------------------------------------------- dispatching

  lemma HolderIsCurrent(s: Sched, i: nat)
    requires Owners(s) && Capped(s) && i < |s.procs| && P(s, i).holding != []
    ensures s.current == Some(i) && P(s, i).prio == MAX_PRIO
  {
    assert s.res[P(s, i).holding[0].res].owner == Some(i);
  }

  lemma DispatchNext(s: Sched)
    ensures Dispatch(Pcp, s).current == PrioSchedule(ForkFrom(s, 0)).next
  {
    hide PrioSchedule, ForkFrom;
  }

  lemma HeldAlive(p: Proc)
    requires Sane(p) && p.holding != []
    ensures Alive(p)
  {
    HeldNow(p);
  }

  lemma KeepsTop(f: Sched)
    requires Runnable(f) && CurrentAlive(f) && forall i :: i in f.ready ==> P(f, i).prio < P(f, f.current.value).prio
    ensures PrioSchedule(f).next == f.current
  {
    if f.ready != [] {
      assert f.ready[Best(Prios(f, f.ready))] in f.ready;
    }
  }

  /** An owner is dispatched again until it releases. */
  lemma OwnerStays(s: Sched)
    requires Inv(s) && Ceiling(s) && s.current.Some? && P(s, s.current.value).holding != []
    ensures Dispatch(Pcp, s).current == s.current
  {
    hide Dispatch;
    ForkKeeps(s, 0);
    var f, c := ForkFrom(s, 0), s.current.value;
    assert forall i :: P(f, i) == P(s, i);
    assert Placed(f, c) && Sane(P(f, c)) && Runnable(f);
    HeldAlive(P(f, c));
    HolderIsCurrent(s, c);
    forall i | i in f.ready
      ensures P(f, i).prio < MAX_PRIO
    {
      assert i != c;
      if P(f, i).holding != [] {
        HolderIsCurrent(f, i);
      }
    }
    KeepsTop(f);
    assert Dispatch(Pcp, s).current == PrioSchedule(f).next by {
      DispatchNext(s);
    }
  }

  lemma DispatchCeiling(s: Sched)
    requires Inv(s) && Ceiling(s)
    ensures Ceiling(Dispatch(Pcp, s))
  {
    hide Dispatch;
    DispatchTop(Pcp, s);
    DispatchLives(Pcp, s);
    var d := Dispatch(Pcp, s);
    assert forall i: nat :: SameClock(P(s, i), P(d, i));
    if s.current.Some? && P(s, s.current.value).holding != [] {
      OwnerStays(s);
    }
    forall r: ResId | d.res[r].owner.Some?
      ensures d.current == d.res[r].owner && P(d, d.res[r].owner.value).prio == MAX_PRIO
    {
      assert Holds(s, s.res[r].owner.value, r);
    }
  }

  // ---------------------------------------------------------------- acquiring

  /** The claims due from position `k` on are for different resources, none of which the process holds. */
  ghost predicate DueFree(p: Proc, k: nat) {
    forall j :: k <= j < |p.pending| && p.pending[j].at == p.age ==>
      && (forall h :: h in p.holding ==> h.res != p.pending[j].res)
      && (forall m :: j < m < |p.pending| && p.pending[m].at == p.age ==> p.pending[m].res != p.pending[j].res)
  }

  ghost predicate DueAt(p: Proc, k: nat, x: Claim) {
    exists j :: k <= j < |p.pending| && p.pending[j] == x && x.at == p.age
  }

  /** Under the ceiling only the resources the running process holds itself are taken. */
  lemma TakenIsHeld(s: Sched, c: nat, r: ResId)
    requires Core(s) && RunsAs(s, c) && Ceiling(s)
    ensures s.res[r].owner.Some? <==> exists h :: h in P(s, c).holding && h.res == r
  {
    if s.res[r].owner.Some? {
      assert Holds(s, s.res[r].owner.value, r);
    }
  }

  lemma OwnCeiling(s: Sched, c: nat, k: nat)
    requires Core(s) && RunsAs(s, c) && Ceiling(s)
    requires k < |P(s, c).pending| && s.res[P(s, c).pending[k].res].owner == None
    ensures Ceiling(Own(Pcp, s, c, k))
  {
    hide Own;
    OwnFacts(Pcp, s, c, k);
  }

  lemma DueFreeAfter(p: Proc, p': Proc, k: nat)
    requires k < |p.pending| && p.pending[k].at == p.age && p'.age == p.age
    requires p'.pending == Without(p.pending, k)
    requires forall h :: h in p'.holding <==> h in p.holding || h == p.pending[k]
    requires forall h :: h in p.holding ==> h.res != p.pending[k].res
    ensures DueFree(p, k) <==> DueFree(p', k)
  {
    var q, q', c := p.pending, p'.pending, p.pending[k];
    if DueFree(p', k) {
      forall j | k < j < |q| && q[j].at == p.age
        ensures q[j].res != c.res && (forall h :: h in p.holding ==> h.res != q[j].res)
        ensures forall m :: j < m < |q| && q[m].at == p.age ==> q[m].res != q[j].res
      {
        assert q'[j - 1] == q[j] && c in p'.holding;
        assert forall m :: j < m < |q| ==> q'[m - 1] == q[m];
      }
    }
    if DueFree(p, k) {
      forall j | k <= j < |q'| && q'[j].at == p.age
        ensures (forall h :: h in p'.holding ==> h.res != q'[j].res)
        ensures forall m :: j < m < |q'| && q'[m].at == p.age ==> q'[m].res != q'[j].res
      {
        assert q'[j] == q[j + 1];
        assert forall m :: j < m < |q'| ==> q'[m] == q[m + 1];
      }
    }
  }

  /** What taking claim `k` does to the claims that are due. */
  lemma DueAfterTaking(p: Proc, p': Proc, k: nat)
    requires k < |p.pending| && p.pending[k].at == p.age && p'.age == p.age
    requires p'.pending == Without(p.pending, k) && p'.holding == p.holding + [p.pending[k]]
    requires forall h :: h in p.holding ==> h.res != p.pending[k].res
    ensures DueFree(p, k) <==> DueFree(p', k)
    ensures forall x :: x in p'.holding || DueAt(p', k, x) <==> x in p.holding || DueAt(p, k, x)
  {
    var q, q', c := p.pending, p'.pending, p.pending[k];
    assert forall j :: k <= j < |q'| ==> q'[j] == q[j + 1];
    assert forall h :: h in p'.holding <==> h in p.holding || h == c;
    DueFreeAfter(p, p', k);
    forall x
      ensures x in p'.holding || DueAt(p', k, x) <==> x in p.holding || DueAt(p, k, x)
    {
      if j :| k <= j < |q| && q[j] == x && x.at == p.age {
        assert j > k ==> q'[j - 1] == x;
      }
    }
  }

  lemma NothingDue(p: Proc, k: nat)
    requires k >= |p.pending|
    ensures DueFree(p, k)
  {
  }

  lemma NotDueHere(p: Proc, k: nat)
    requires k < |p.pending| && p.pending[k].at != p.age
    ensures DueFree(p, k) <==> DueFree(p, k + 1)
    ensures forall x :: DueAt(p, k, x) <==> DueAt(p, k + 1, x)
  {
  }

  lemma NotFree(p: Proc, k: nat)
    requires k < |p.pending| && p.pending[k].at == p.age && exists h :: h in p.holding && h.res == p.pending[k].res
    ensures !DueFree(p, k)
  {
  }

  /** Under the ceiling the acquires of an iteration succeed if and only if what is due is free of what the
      process holds; it then holds what was due as well. */
  lemma {:induction false} AcquireIff(s: Sched, c: nat, k: nat)
    requires Core(s) && Wakes(s, Some(c)) && RunsAs(s, c) && Alive(P(s, c)) && NoneDueBefore(P(s, c), k) && Ceiling(s)
    ensures var (s', ok) := AcquireFrom(Pcp, s, c, k); var p := P(s, c);
      && (ok <==> DueFree(p, k))
      && (if ok then Ceiling(s') && forall x :: x in P(s', c).holding <==> x in p.holding || DueAt(p, k, x)
          else exists r: ResId :: s'.res[r].waitq != [])
    decreases |P(s, c).pending| - k
  {
    hide Queues, Owners, Wakes, Ceiling, DueFree;
    var p := P(s, c);
    if k >= |p.pending| {
      NothingDue(p, k);
    } else if p.pending[k].at != p.age {
      AcquireIff(s, c, k + 1);
      NotDueHere(p, k);
    } else {
      var r := p.pending[k].res;
      TakenIsHeld(s, c, r);
      if s.res[r].owner.None? {
        OwnCeiling(s, c, k);
        OwnKeeps(Pcp, s, c, k);
        OwnFacts(Pcp, s, c, k);
        var s1 := Own(Pcp, s, c, k);
        DueAfterTaking(p, P(s1, c), k);
        AcquireIff(s1, c, k);
      } else {
        NotFree(p, k);
        assert AcquireFrom(Pcp, s, c, k).0.res[r].waitq != [];
      }
    }
  }

  // ---------------------------------------------------------------- releasing

  /** Giving back resource `r` keeps the ceiling if and only if the process owns no other resource. */
  lemma ReleaseCapped(s: Sched, c: nat, r: ResId)
    requires c < |s.procs| && Capped(s) && s.res[r].owner == Some(c)
    ensures Capped(Release(Pcp, s, c, r)) <==> forall x: ResId :: x != r ==> s.res[x].owner != Some(c)
  {
    var s' := Release(Pcp, s, c, r);
    assert forall x: ResId :: s'.res[x] == if x == r then Resource(None, []) else s.res[x];
    assert forall i: nat :: i != c ==> P(s', i) == P(s, i);
    if x: ResId :| x != r && s.res[x].owner == Some(c) {
      assert s'.res[x].owner == Some(c) && P(s', c).prio < MAX_PRIO;
    }
  }

  /** The claim ends in this tick, which has been counted in the age already. */
  predicate EndsNow(p: Proc, h: Claim) { h.at + h.span == p.age }

  lemma GiveBackAlone(s: Sched, c: nat, k: nat)
    requires Releasing(s, c, k) && k < |P(s, c).holding| && forall r: ResId :: s.res[r].waitq == []
    ensures var s' := GiveBack(Pcp, s, c, k); var p := P(s, c);
      && |s'.procs| == |s.procs| && (forall r: ResId :: s'.res[r].waitq == [])
      && (forall r: ResId :: s'.res[r].owner.Some? ==> s'.res[r].owner == s.res[r].owner)
      && P(s', c) == p.(holding := Without(p.holding, k), prio := p.prioOrig)
      && forall i :: i != c ==> P(s', i) == P(s, i)
  {
    hide GiveBack, Queues, Owners, Wakes;
    GiveBackFacts(Pcp, s, c, k);
  }

  lemma EndsWithout(p: Proc, p': Proc, k: nat)
    requires k < |p.holding| && p'.holding == Without(p.holding, k) && p'.age == p.age && EndsNow(p, p.holding[k])
    ensures (forall j :: 0 <= j < |p.holding| ==> EndsNow(p, p.holding[j]))
       <==> (forall j :: 0 <= j < |p'.holding| ==> EndsNow(p', p'.holding[j]))
  {
    if forall j :: 0 <= j < |p'.holding| ==> EndsNow(p', p'.holding[j]) {
      forall j | 0 <= j < |p.holding|
        ensures EndsNow(p, p.holding[j])
      {
        assert j != k ==> p.holding[j] == p'.holding[if j < k then j else j - 1];
      }
    }
  }

  /** The release loop with nobody waiting, from held claim `k` on. */
  lemma {:induction false} ReleaseEffect(s: Sched, c: nat, k: nat)
    requires Releasing(s, c, k) && k <= |P(s, c).holding| && forall r: ResId :: s.res[r].waitq == []
    ensures var e, p := ReleaseFrom(Pcp, s, c, k), P(s, c);
      && (forall r: ResId :: e.res[r].waitq == [])
      && (forall r: ResId :: e.res[r].owner.Some? ==> e.res[r].owner == s.res[r].owner)
      && (forall i :: i != c ==> P(e, i) == P(s, i)) && P(e, c).prioOrig == p.prioOrig
      && P(e, c).prio == (if exists j :: k <= j < |p.holding| && EndsNow(p, p.holding[j]) then p.prioOrig else p.prio)
      && (P(e, c).holding == [] <==> k == 0 && forall j :: 0 <= j < |p.holding| ==> EndsNow(p, p.holding[j]))
    decreases |P(s, c).holding| - k
  {
    hide ReleaseFrom, GiveBack, Queues, Owners, Wakes;
    ReleaseUnfolds(Pcp, s, c, k);
    var p := P(s, c);
    if k < |p.holding| {
      if p.holding[k].left > 1 {
        CountKeeps(s, c, k);
        var h := p.holding[k].(left := p.holding[k].left - 1);
        var s1 := SetP(s, c, p.(holding := p.holding[k := h]));
        assert !EndsNow(p, p.holding[k]);
        assert forall j :: 0 <= j < |p.holding| ==>
          (EndsNow(P(s1, c), P(s1, c).holding[j]) <==> EndsNow(p, p.holding[j]));
        ReleaseEffect(s1, c, k + 1);
      } else {
        GiveBackKeeps(Pcp, s, c, k);
        GiveBackAlone(s, c, k);
        var s1 := GiveBack(Pcp, s, c, k);
        assert EndsNow(p, p.holding[k]);
        EndsWithout(p, P(s1, c), k);
        ReleaseEffect(s1, c, k);
      }
    }
  }

  /** The state after the release loop, from what the process then has. */
  lemma CeilingFromHolding(s: Sched, e: Sched, c: nat)
    requires c < |s.procs| && Ceiling(s) && Owners(e) && |e.procs| == |s.procs| && e.current == Some(c)
    requires (forall r: ResId :: e.res[r].waitq == []) && forall i :: i != c ==> P(e, i) == P(s, i)
    requires forall r: ResId :: e.res[r].owner.Some? ==> e.res[r].owner == Some(c)
    requires P(e, c).prioOrig == P(s, c).prioOrig
    ensures Ceiling(e) <==> P(e, c).prio == if P(e, c).holding == [] then P(e, c).prioOrig else MAX_PRIO
  {
    if P(e, c).holding != [] {
      assert e.res[P(e, c).holding[0].res].owner == Some(c);
    }
    forall r: ResId | e.res[r].owner.Some?
      ensures P(e, c).holding != []
    {
      assert Holds(e, e.res[r].owner.value, r);
    }
  }

  /** The release loop keeps the ceiling if and only if all held claims end now, or none does. */
  lemma ReleaseCeilingIff(s: Sched, c: nat)
    requires Releasing(s, c, 0) && Ceiling(s)
    ensures var p := P(s, c);
      Ceiling(ReleaseFrom(Pcp, s, c, 0)) <==>
        || (forall h :: h in p.holding ==> EndsNow(p, h))
        || (forall h :: h in p.holding ==> !EndsNow(p, h))
  {
    hide ReleaseFrom, Wakes, Queues;
    ReleaseKeeps(Pcp, s, c, 0);
    ReleaseEffect(s, c, 0);
    var e, p := ReleaseFrom(Pcp, s, c, 0), P(s, c);
    if p.holding != [] {
      HolderIsCurrent(s, c);
    }
    CeilingFromHolding(s, e, c);
    assert p.prioOrig < MAX_PRIO && (p.holding == [] ==> p.prio == p.prioOrig);
    hide Ceiling, Capped, Owners, BaseUnlessHolding, EndsNow;
    assert forall h :: h in p.holding <==> exists j :: 0 <= j < |p.holding| && p.holding[j] == h;
    if (forall h :: h in p.holding ==> EndsNow(p, h)) && p.holding != [] {
      assert EndsNow(p, p.holding[0]);
    }
  }

  // ---------------------------------------------------------------- iterations

  /** What the process holds or is due at its present age. */
  ghost predicate Live(p: Proc, x: Claim) { x in p.holding || DueAt(p, 0, x) }

  /** Of what the process holds or is due, all ends in the coming tick, or nothing does. */
  ghost predicate Together(p: Proc) {
    || (forall x :: Live(p, x) ==> x.at + x.span == p.age + 1)
    || (forall x :: Live(p, x) ==> x.at + x.span != p.age + 1)
  }

  lemma AgedCeiling(s: Sched, c: nat)
    requires Ceiling(s)
    ensures Ceiling(SetP(s, c, P(s, c).(age := P(s, c).age + 1)))
  {
    var s2 := SetP(s, c, P(s, c).(age := P(s, c).age + 1));
    assert forall i: nat :: P(s2, i) == P(s, i).(age := P(s2, i).age);
  }

  /** The iteration of a process under the ceiling, once it has been dispatched. */
  lemma RunCeilingIff(d: Sched, c: nat)
    requires Core(d) && Wakes(d, Some(c)) && RunsAs(d, c) && Alive(P(d, c)) && Ceiling(d)
    ensures Ceiling(RunCurrent(Pcp, d, c)) <==> DueFree(P(d, c), 0) && Together(P(d, c))
  {
    hide AcquireFrom, ReleaseFrom, Core, Wakes, Releasing, DueFree, DueAt, BaseUnlessHolding;
    AcquireKeeps(Pcp, d, c, 0);
    AcquireIff(d, c, 0);
    var (s1, ok) := AcquireFrom(Pcp, d, c, 0);
    if ok {
      AgeKeeps(s1, c);
      var s2 := SetP(s1, c, P(s1, c).(age := P(s1, c).age + 1));
      AgedCeiling(s1, c);
      hide Ceiling;
      ReleaseCeilingIff(s2, c);
      assert forall x :: x in P(s2, c).holding <==> Live(P(d, c), x);
      assert forall x :: EndsNow(P(s2, c), x) <==> x.at + x.span == P(d, c).age + 1;
    }
  }

  lemma CeilingFrame(s: Sched, s': Sched)
    requires s' == s.(ticks := s'.ticks)
    ensures Ceiling(s') <==> Ceiling(s)
  {
    assert forall i: nat :: P(s', i) == P(s, i);
  }

  /** One iteration under the ceiling policy keeps the ceiling if and only if the process dispatched is due no
      resource it has already or is due twice, and all it has or is due ends in this tick, or nothing. */
  lemma TickCeilingIff(s: Sched)
    requires Inv(s) && Ceiling(s)
    ensures var d := Dispatch(Pcp, s);
      Ceiling(Tick(Pcp, s)) <==>
        (d.current.Some? ==> DueFree(P(d, d.current.value), 0) && Together(P(d, d.current.value)))
  {
    hide Dispatch, RunCurrent, Core, Wakes, Ceiling, DueFree, Together;
    DispatchKeeps(Pcp, s);
    DispatchCeiling(s);
    var d := Dispatch(Pcp, s);
    DispatchedRuns(d);
    if d.current.Some? {
      RunCeilingIff(d, d.current.value);
      CeilingFrame(RunCurrent(Pcp, d, d.current.value), Tick(Pcp, s));
    } else {
      CeilingFrame(d, Tick(Pcp, s));
    }
  }

  // ---------------------------------------------------------------- scripts

  /** Claims that cover the same age are not apart. */
  lemma BothNow(c: Claim, d: Claim, age: nat)
    requires c.at <= age < c.at + c.span && d.at <= age < d.at + d.span
    ensures !Apart(c, d)
  {
  }

  lemma LiveNow(p: Proc, x: Claim)
    requires Sane(p) && Live(p, x)
    ensures x.at <= p.age < x.at + x.span
  {
  }

  lemma LivePair(p: Proc, x: Claim, y: Claim)
    requires Sane(p) && Obeys(Bundles, 0, p) && Live(p, x) && Live(p, y)
    ensures x.at + x.span == y.at + y.span
  {
    LiveNow(p, x);
    LiveNow(p, y);
    BothNow(x, y, p.age);
    if x in p.holding {
      var j :| 0 <= j < |p.holding| && p.holding[j] == x;
      if y in p.holding {
        var k :| 0 <= k < |p.holding| && p.holding[k] == y;
        assert j < k ==> InOrder(Bundles, x, y);
        assert k < j ==> InOrder(Bundles, y, x);
      } else {
        var k :| 0 <= k < |p.pending| && p.pending[k] == y;
        assert InOrder(Bundles, x, y);
      }
    } else {
      var j :| 0 <= j < |p.pending| && p.pending[j] == x && x.at == p.age;
      if y in p.holding {
        var k :| 0 <= k < |p.holding| && p.holding[k] == y;
        assert InOrder(Bundles, y, x);
      } else {
        var k :| 0 <= k < |p.pending| && p.pending[k] == y && y.at == p.age;
        assert j < k ==> TakenFirst(p.pending, j, k);
        assert k < j ==> TakenFirst(p.pending, k, j);
      }
    }
  }

  lemma DueApart(p: Proc, j: nat)
    requires Sane(p) && Obeys(Bundles, 0, p) && j < |p.pending| && p.pending[j].at == p.age
    ensures forall h :: h in p.holding ==> h.res != p.pending[j].res
    ensures forall m :: j < m < |p.pending| && p.pending[m].at == p.age ==> p.pending[m].res != p.pending[j].res
  {
    forall h | h in p.holding
      ensures h.res != p.pending[j].res
    {
      var k :| 0 <= k < |p.holding| && p.holding[k] == h;
      assert InOrder(Bundles, h, p.pending[j]);
    }
    forall m | j < m < |p.pending| && p.pending[m].at == p.age
      ensures p.pending[m].res != p.pending[j].res
    {
      assert TakenFirst(p.pending, j, m);
    }
  }

  /** Where overlapping claims are for different resources and end together, the conditions hold. */
  lemma BundlesFit(p: Proc)
    requires Sane(p) && Obeys(Bundles, 0, p)
    ensures DueFree(p, 0) && Together(p)
  {
    forall x, y | Live(p, x) && Live(p, y)
      ensures x.at + x.span == y.at + y.span
    {
      LivePair(p, x, y);
    }
    forall j | 0 <= j < |p.pending| && p.pending[j].at == p.age
      ensures forall h :: h in p.holding ==> h.res != p.pending[j].res
      ensures forall m :: j < m < |p.pending| && p.pending[m].at == p.age ==> p.pending[m].res != p.pending[j].res
    {
      DueApart(p, j);
    }
  }

  /** One iteration of such processes: the ceiling is kept, and the process that runs is not blocked. */
  lemma TickCeiling(s: Sched)
    requires Inv(s) && Obey(Bundles, s) && Ceiling(s)
    ensures Ceiling(Tick(Pcp, s))
    ensures var d := Dispatch(Pcp, s); d.current.Some? ==> AcquireFrom(Pcp, d, d.current.value, 0).1
  {
    hide Dispatch, Tick, Wakes, Ceiling, DueFree, Together, AcquireFrom;
    TickCeilingIff(s);
    DispatchKeeps(Pcp, s);
    DispatchObeys(Bundles, Pcp, s);
    DispatchCeiling(s);
    var d := Dispatch(Pcp, s);
    if d.current.Some? {
      var p := P(d, d.current.value);
      assert Obeys(Bundles, d.current.value, p) && Sane(p);
      BundlesFit(p);
      AcquireIff(d, d.current.value, 0);
    }
  }

  /** The ceiling policy over whole runs of processes below MAX_PRIO whose overlapping claims are for different
      resources and end together: no acquire ever fails, so every wait queue stays empty. */
  lemma {:induction false} RunsUnderCeiling(s: Sched, n: nat)
    requires Inv(s) && Obey(Bundles, s) && Ceiling(s)
    ensures var e := Ticks(Pcp, s, n);
      && Inv(e) && Obey(Bundles, e) && Ceiling(e)
      && var d := Dispatch(Pcp, e); d.current.Some? ==> AcquireFrom(Pcp, d, d.current.value, 0).1
    decreases n
  {
    hide Dispatch, Tick, Inv, Ceiling, AcquireFrom, Obey;
    TickCeiling(s);
    if n > 0 {
      TickKeeps(Pcp, s);
      TickObeys(Bundles, Pcp, s);
      RunsUnderCeiling(Tick(Pcp, s), n - 1);
    }
  }

  /** From a loaded script of such processes: at every moment nobody waits for a resource, an owner is the one
      that runs, and the process dispatched next gets all it asks for. */
  lemma NobodyWaits(s: Sched, n: nat)
    requires Loaded(s) && Obey(Bundles, s) && forall i :: 0 <= i < |s.procs| ==> P(s, i).prioOrig < MAX_PRIO
    ensures var e := Ticks(Pcp, s, n);
      && (forall r: ResId :: e.res[r].waitq == [] && (e.res[r].owner.Some? ==> e.current == e.res[r].owner))
      && var d := Dispatch(Pcp, e); d.current.Some? ==> AcquireFrom(Pcp, d, d.current.value, 0).1
  {
    hide Dispatch, Ticks, Inv, AcquireFrom, Obey;
    LoadedInv(s);
    LoadedCeiling(s);
    RunsUnderCeiling(s, n);
  }
}
