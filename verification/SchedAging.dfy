/** Priority with aging: no ready process starves. One with priority `a` is dispatched within
    max(0, P - a) + n iterations, for `n` processes of original priorities at most `P`. */
module SchedAging {
  import opened Common
  import opened SchedModel
  import opened SchedInvariant
  import opened SchedStep
  import opened SchedRuns

  /** Only processes on the ready queue have aged; in particular the current process has not. */
  ghost predicate Aged(s: Sched) {
    forall i :: 0 <= i < |s.procs| ==>
      P(s, i).prio >= P(s, i).prioOrig && (i !in s.ready ==> P(s, i).prio == P(s, i).prioOrig)
  }

  ghost predicate BoundedBy(s: Sched, top: nat) {
    forall i :: 0 <= i < |s.procs| ==> P(s, i).prioOrig <= top
  }

  /** The ready processes a scan picks before `i`. */
  ghost function Ahead(s: Sched, i: nat): set<nat> {
    set j | j in s.ready && (P(s, j).prio > P(s, i).prio || (P(s, j).prio == P(s, i).prio && Before(s.ready, j, i)))
  }

  /** How many more iterations `i` can be passed over, plus one. */
  ghost function Patience(s: Sched, i: nat, top: nat): nat {
    if P(s, i).prio < top then top - P(s, i).prio + |s.procs| else 1 + |Ahead(s, i)|
  }

  lemma {:induction false} SmallSet(a: set<nat>, n: nat)
    requires forall i :: i in a ==> i < n
    ensures |a| <= n
  {
    if n == 0 {
      assert a == {};
    } else {
      SmallSet(a - {n - 1}, n - 1);
      assert |a| <= |a - {n - 1}| + 1;
    }
  }

  lemma AheadIsSmall(s: Sched, i: nat)
    requires ReadyOk(s) && i in s.ready
    ensures i !in Ahead(s, i) && |Ahead(s, i)| < |s.procs|
  {
    var a := Ahead(s, i);
    assert !Before(s.ready, i, i);
    SmallSet(a + {i}, |s.procs|);
    assert |a + {i}| == |a| + 1;
  }

  // ---------------------------------------------------------------- order on the ready queue

  lemma BeforeAppend(q: seq<nat>, x: seq<nat>, i: nat, j: nat)
    requires NoDup(q + x) && j in q && Before(q + x, i, j)
    ensures Before(q, i, j)
  {
    var a, b :| 0 <= a < b < |q + x| && (q + x)[a] == i && (q + x)[b] == j;
    var c :| 0 <= c < |q| && q[c] == j;
    assert (q + x)[c] == j;
    assert q[a] == i && q[b] == j;
  }

  lemma BeforeWithout(q: seq<nat>, k: nat, i: nat, j: nat)
    requires k < |q| && Before(Without(q, k), i, j)
    ensures Before(q, i, j)
  {
    var w := Without(q, k);
    var a, b :| 0 <= a < b < |w| && w[a] == i && w[b] == j;
    assert q[if a < k then a else a + 1] == i && q[if b < k then b else b + 1] == j;
  }

  // ---------------------------------------------------------------- one iteration

  /** A prefix, and what was appended to it. */
  ghost predicate Extends(q: seq<nat>, q': seq<nat>) { |q| <= |q'| && q'[..|q|] == q }

  /** The choice of PA: the ready processes gain one, the chosen one is reset to its original priority. */
  ghost predicate PaChose(f: Sched, ready: seq<nat>, next: Option<nat>) {
    if f.ready == [] then ready == []
    else
      || (ready == f.ready && next == f.current && f.current.Some? && f.current.value !in f.ready
          && forall i :: i in f.ready ==> P(f, i).prio + 1 < P(f, f.current.value).prio)
      || (var k := Pick(Pa, f);
          && next == Some(f.ready[k])
          && (ready == Without(f.ready, k)
              || (f.current.Some? && f.current.value !in f.ready
                  && ready == Without(f.ready + [f.current.value], k))))
  }

  function PaPrio(f: Sched, next: Option<nat>, i: nat): nat {
    if f.ready == [] || i !in f.ready then P(f, i).prio
    else if next == Some(i) then P(f, i).prioOrig
    else P(f, i).prio + 1
  }

  lemma PaScheduleFacts(f: Sched)
    requires Core(f)
    ensures var c := PaSchedule(f);
      && PaChose(f, c.s.ready, c.next)
      && forall i: nat :: P(c.s, i).prio == PaPrio(f, c.next, i)
  {
    hide Boost, Best, WaitqOk, Owners, AllSane;
    if Runnable(f) {
      assert Placed(f, f.current.value);
    }
    BoostFacts(f);
    if f.ready != [] {
      var b := Boost(f);
      var k := Best(Prios(b, f.ready));
      assert f.ready[k] in f.ready;
      forall i | i in f.ready
        ensures P(b, i).prio <= P(b, f.ready[k]).prio
      {
        var j :| 0 <= j < |f.ready| && f.ready[j] == i;
        assert Prios(b, f.ready)[j] <= Prios(b, f.ready)[k];
      }
    }
  }

  lemma ChoiceDispatched(s: Sched)
    ensures var c, d := PaSchedule(ForkFrom(s, 0)), Dispatch(Pa, s);
      d.ready == c.s.ready && d.current == c.next && forall i: nat :: P(d, i).prio == P(c.s, i).prio
  {
    hide PaSchedule, ForkFrom;
    RetirePrio(PaSchedule(ForkFrom(s, 0)).s, s.current);
  }

  lemma PaDispatch(s: Sched)
    requires Inv(s)
    ensures var f, d := ForkFrom(s, 0), Dispatch(Pa, s);
      && Core(f) && f == s.(forkq := f.forkq, ready := f.ready) && Extends(s.ready, f.ready)
      && PaChose(f, d.ready, d.current)
      && forall i: nat :: P(d, i).prio == PaPrio(f, d.current, i)
  {
    hide PaSchedule, PaChose, PaPrio, Core, Wakes, ForkFrom;
    ForkKeeps(s, 0);
    PaScheduleFacts(ForkFrom(s, 0));
    ChoiceDispatched(s);
  }

  // ---------------------------------------------------------------- running

  lemma {:induction false} AcquirePrio(s: Sched, c: nat, k: nat)
    requires c < |s.procs|
    ensures var s' := AcquireFrom(Pa, s, c, k).0;
      s'.ready == s.ready && forall i: nat :: P(s', i).prio == P(s, i).prio
    decreases |P(s, c).pending| - k
  {
    var p := P(s, c);
    if k < |p.pending| {
      if p.pending[k].at != p.age {
        AcquirePrio(s, c, k + 1);
      } else if s.res[p.pending[k].res].owner.None? {
        OwnFacts(Pa, s, c, k);
        AcquirePrio(Own(Pa, s, c, k), c, k);
      }
    }
  }

  lemma GiveBackExtends(s: Sched, c: nat, k: nat)
    requires Queues(s) && RunsAs(s, c) && k < |P(s, c).holding|
    ensures Extends(s.ready, GiveBack(Pa, s, c, k).ready)
    ensures forall i: nat :: P(GiveBack(Pa, s, c, k), i).prio == P(s, i).prio
  {
    hide GiveBack, Queues;
    GiveBackFacts(Pa, s, c, k);
    var q := s.res[P(s, c).holding[k].res].waitq;
    if q != [] {
      var j :| 0 <= j < |q| && Woken(Pa, s, GiveBack(Pa, s, c, k), c, P(s, c).holding[k].res, j);
    }
  }

  lemma {:induction false} ReleasePrio(s: Sched, c: nat, k: nat)
    requires Releasing(s, c, k) && k <= |P(s, c).holding|
    ensures var s' := ReleaseFrom(Pa, s, c, k);
      && Extends(s.ready, s'.ready)
      && forall i: nat :: P(s', i).prio == P(s, i).prio
    decreases |P(s, c).holding| - k
  {
    hide ReleaseFrom, GiveBack, Queues, Owners, Wakes;
    ReleaseUnfolds(Pa, s, c, k);
    var p := P(s, c);
    if k < |p.holding| {
      if p.holding[k].left > 1 {
        CountKeeps(s, c, k);
        ReleasePrio(SetP(s, c, p.(holding := p.holding[k := p.holding[k].(left := p.holding[k].left - 1)])), c, k + 1);
      } else {
        GiveBackFacts(Pa, s, c, k);
        GiveBackKeeps(Pa, s, c, k);
        GiveBackExtends(s, c, k);
        var s1 := GiveBack(Pa, s, c, k);
        ReleasePrio(s1, c, k);
        assert ReleaseFrom(Pa, s1, c, k).ready[..|s.ready|] == s1.ready[..|s.ready|];
      }
    }
  }

  lemma RunPrio(d: Sched, c: nat)
    requires Core(d) && Wakes(d, Some(c)) && RunsAs(d, c) && Alive(P(d, c))
    ensures var e := RunCurrent(Pa, d, c);
      Extends(d.ready, e.ready) && forall i: nat :: P(e, i).prio == P(d, i).prio
  {
    hide AcquireFrom, ReleaseFrom, Core, Wakes, Releasing;
    AcquireKeeps(Pa, d, c, 0);
    AcquirePrio(d, c, 0);
    var (s1, ok) := AcquireFrom(Pa, d, c, 0);
    if ok {
      AgeKeeps(s1, c);
      ReleasePrio(SetP(s1, c, P(s1, c).(age := P(s1, c).age + 1)), c, 0);
    }
  }

  /** What an iteration under PA does after dispatching: priorities stay, woken processes go to the tail. */
  lemma PaTick(s: Sched)
    requires Inv(s)
    ensures var d, e := Dispatch(Pa, s), Tick(Pa, s);
      && Extends(d.ready, e.ready)
      && forall i: nat :: P(e, i).prio == P(d, i).prio && P(e, i).prioOrig == P(s, i).prioOrig
  {
    hide Dispatch, AcquireFrom, ReleaseFrom, Core, Wakes, Releasing;
    DispatchKeeps(Pa, s);
    DispatchLives(Pa, s);
    var d := Dispatch(Pa, s);
    assert forall i: nat :: SameClock(P(s, i), P(d, i));
    if d.current.Some? {
      var c := d.current.value;
      RunPrio(d, c);
      RunLives(Pa, d, c);
    }
    var e := Tick(Pa, s);
    var ran := if d.current.None? then d else RunCurrent(Pa, d, d.current.value);
    assert e.procs == if Halts(d) then d.procs else ran.procs;
    assert forall i: nat :: P(e, i) == P(if Halts(d) then d else ran, i);
  }

  // ---------------------------------------------------------------- no starvation

  lemma ExtendsMembers(q: seq<nat>, q': seq<nat>)
    requires Extends(q, q')
    ensures forall i :: i in q ==> i in q'
  {
    assert forall i :: i in q'[..|q|] ==> i in q';
  }

  /** A ready process that is not chosen stays ready. */
  lemma StaysReady(f: Sched, ready: seq<nat>, next: Option<nat>, i: nat)
    requires PaChose(f, ready, next) && i in f.ready
    ensures i in ready || next == Some(i)
  {
    hide Pick;
    if next != Some(i) && ready != f.ready {
      var k := Pick(Pa, f);
      var j :| 0 <= j < |f.ready| && f.ready[j] == i;
      assert j != k;
      assert ready[if j < k then j else j - 1] == i;
    }
  }

  /** Aging keeps its invariant: only ready processes are above their original priority. */
  lemma TickAged(s: Sched)
    requires Inv(s) && Aged(s)
    ensures Aged(Tick(Pa, s))
  {
    hide Dispatch, Tick;
    PaDispatch(s);
    PaTick(s);
    TickKeeps(Pa, s);
    var f, d, e := ForkFrom(s, 0), Dispatch(Pa, s), Tick(Pa, s);
    ExtendsMembers(s.ready, f.ready);
    ExtendsMembers(d.ready, e.ready);
    hide Core, Wakes, Inv;
    forall i | 0 <= i < |s.procs|
      ensures P(e, i).prio >= P(e, i).prioOrig && (i !in e.ready ==> P(e, i).prio == P(e, i).prioOrig)
    {
      assert P(f, i) == P(s, i);
      if i !in e.ready && i in f.ready {
        StaysReady(f, d.ready, d.current, i);
      }
    }
  }

  lemma {:induction false} Subset(a: set<nat>, b: set<nat>)
    requires a <= b
    ensures |a| <= |b|
  {
    if a != {} {
      var x :| x in a;
      Subset(a - {x}, b - {x});
    }
  }

  /** What was appended by forking is not aged. */
  lemma NewcomerAfter(s: Sched, f: Sched, k: nat)
    requires ReadyOk(f) && Aged(s) && f == s.(forkq := f.forkq, ready := f.ready) && Extends(s.ready, f.ready)
    requires k < |f.ready|
    ensures k >= |s.ready| ==>
              f.ready[k] !in s.ready && P(s, f.ready[k]).prio == P(s, f.ready[k]).prioOrig && f.ready[k] < |s.procs|
  {
    assert f.ready[k] in f.ready;
    forall a | 0 <= a < |s.ready|
      ensures k >= |s.ready| ==> s.ready[a] != f.ready[k]
    {
      assert f.ready[..|s.ready|][a] == f.ready[a];
    }
  }

  lemma PickedIsAhead(s: Sched, f: Sched, i: nat, top: nat)
    requires ReadyOk(f) && Aged(s) && BoundedBy(s, top) && f == s.(forkq := f.forkq, ready := f.ready)
    requires Extends(s.ready, f.ready) && i in s.ready && P(s, i).prio >= top
    requires f.ready != [] && f.ready[Pick(Pa, f)] != i
    ensures f.ready[Pick(Pa, f)] in Ahead(s, i)
  {
    hide Best, Boost;
    var b := Boost(f);
    BoostFacts(f);
    var keys := Prios(b, f.ready);
    var k := Pick(Pa, f);
    var n := f.ready[k];
    var a :| 0 <= a < |s.ready| && s.ready[a] == i;
    assert s.ready == f.ready[..|s.ready|];
    assert f.ready[a] == i && keys[a] <= keys[k] && (a < k ==> keys[a] < keys[k]);
    assert n in f.ready && i in f.ready;
    assert P(s, i).prio <= P(s, n).prio && (a < k ==> P(s, i).prio < P(s, n).prio);
    NewcomerAfter(s, f, k);
    assert k < |s.ready|;
    assert s.ready[k] == n;
    if P(s, n).prio == P(s, i).prio {
      assert k < a;
      assert Before(s.ready, n, i);
    }
  }

  /** Position `k` of the ready queue was taken, with or without the current process requeued. */
  ghost predicate TookFrom(f: Sched, ready: seq<nat>, k: nat) {
    k < |f.ready| &&
    (ready == Without(f.ready, k)
     || (f.current.Some? && ready == Without(f.ready + [f.current.value], k) && f.current.value !in f.ready))
  }

  lemma NewcomerNotBefore(q: seq<nat>, q': seq<nat>, j: nat, i: nat)
    requires Extends(q, q') && NoDup(q') && i in q && j !in q
    ensures !Before(q', j, i)
  {
    assert q' == q + q'[|q|..];
    if Before(q', j, i) {
      BeforeAppend(q, q'[|q|..], j, i);
    }
  }

  /** The order of two processes at the end of an iteration is the one the scan saw. */
  lemma OrderBack(f: Sched, d: Sched, e: Sched, k: nat, i: nat, j: nat)
    requires NoDup(f.ready) && NoDup(e.ready) && Extends(d.ready, e.ready) && Before(e.ready, j, i)
    requires TookFrom(f, d.ready, k) && i in d.ready && i in f.ready
    ensures Before(f.ready, j, i)
  {
    assert e.ready == d.ready + e.ready[|d.ready|..];
    BeforeAppend(d.ready, e.ready[|d.ready|..], j, i);
    if d.ready == Without(f.ready, k) {
      BeforeWithout(f.ready, k, j, i);
    } else {
      var q := f.ready + [f.current.value];
      BeforeWithout(q, k, j, i);
      BeforeAppend(f.ready, [f.current.value], j, i);
    }
  }

  lemma SameOrder(s: Sched, f: Sched, d: Sched, e: Sched, k: nat, i: nat, j: nat)
    requires ReadyOk(f) && ReadyOk(e) && Extends(s.ready, f.ready) && Extends(d.ready, e.ready)
    requires TookFrom(f, d.ready, k) && i in s.ready && i in d.ready && i in f.ready && j in f.ready
    requires Before(e.ready, j, i)
    ensures j in s.ready && Before(s.ready, j, i)
  {
    OrderBack(f, d, e, k, i, j);
    if j !in s.ready {
      NewcomerNotBefore(s.ready, f.ready, j, i);
    } else {
      assert f.ready == s.ready + f.ready[|s.ready|..];
      BeforeAppend(s.ready, f.ready[|s.ready|..], j, i);
    }
  }

  lemma StillAhead(s: Sched, f: Sched, d: Sched, e: Sched, k: nat, i: nat, j: nat, top: nat)
    requires ReadyOk(s) && ReadyOk(f) && ReadyOk(e) && Aged(s) && BoundedBy(s, top)
    requires f == s.(forkq := f.forkq, ready := f.ready) && Extends(s.ready, f.ready) && Extends(d.ready, e.ready)
    requires TookFrom(f, d.ready, k) && d.current == Some(f.ready[k]) && d.current != Some(i)
    requires i in s.ready && i in d.ready && i in f.ready
    requires forall x: nat :: P(e, x).prio == PaPrio(f, d.current, x)
    requires |e.procs| == |s.procs| && P(s, i).prio >= top && j in Ahead(e, i)
    ensures j in Ahead(s, i) && j != f.ready[k]
  {
    assert forall x: nat :: P(f, x) == P(s, x);
    assert P(e, i).prio == P(s, i).prio + 1;
    assert j < |s.procs| && P(e, j).prio > top;
    assert j in f.ready && d.current != Some(j);
    assert P(e, j).prio == P(s, j).prio + 1;
    hide ReadyOk;
    if j !in s.ready {
      assert P(s, j).prio <= top;
    }
    if P(e, j).prio == P(e, i).prio {
      SameOrder(s, f, d, e, k, i, j);
    }
  }

  /** Past `top`, nobody new gets ahead, and the process dispatched was ahead. */
  lemma FewerAhead(s: Sched, f: Sched, d: Sched, e: Sched, i: nat, top: nat)
    requires ReadyOk(s) && ReadyOk(f) && ReadyOk(e) && Aged(s) && BoundedBy(s, top)
    requires f == s.(forkq := f.forkq, ready := f.ready) && Extends(s.ready, f.ready) && Extends(d.ready, e.ready)
    requires PaChose(f, d.ready, d.current) && d.current != Some(i) && i in s.ready && i in d.ready
    requires forall j: nat :: P(e, j).prio == PaPrio(f, d.current, j) && P(e, j).prioOrig == P(s, j).prioOrig
    requires |e.procs| == |s.procs| && P(s, i).prio >= top
    ensures |Ahead(e, i)| < |Ahead(s, i)|
  {
    ExtendsMembers(s.ready, f.ready);
    assert forall j: nat :: P(f, j) == P(s, j);
    assert i in f.ready;
    var k := Pick(Pa, f);
    assert forall j: nat :: j !in s.ready ==> P(s, j).prio <= top;
    assert d.current == Some(f.ready[k]);
    var n := f.ready[k];
    PickedIsAhead(s, f, i, top);
    forall j | j in Ahead(e, i)
      ensures j in Ahead(s, i) && j != n
    {
      StillAhead(s, f, d, e, k, i, j, top);
    }
    assert Ahead(e, i) <= Ahead(s, i) - {n};
    Subset(Ahead(e, i), Ahead(s, i) - {n});
  }

  /** A ready process is dispatched, or loses patience. */
  lemma PatienceRunsOut(s: Sched, i: nat, top: nat)
    requires Inv(s) && Aged(s) && BoundedBy(s, top) && i in s.ready
    ensures var e := Tick(Pa, s);
      Dispatch(Pa, s).current == Some(i) || (i in e.ready && Patience(e, i, top) < Patience(s, i, top))
  {
    hide Dispatch, Tick;
    if Dispatch(Pa, s).current == Some(i) {
      return;
    }
    PaDispatch(s);
    PaTick(s);
    TickKeeps(Pa, s);
    var f, d, e := ForkFrom(s, 0), Dispatch(Pa, s), Tick(Pa, s);
    ExtendsMembers(s.ready, f.ready);
    ExtendsMembers(d.ready, e.ready);
    StaysReady(f, d.ready, d.current, i);
    assert P(f, i) == P(s, i) && P(e, i).prio == P(s, i).prio + 1;
    AheadIsSmall(e, i);
    if P(s, i).prio >= top {
      FewerAhead(s, f, d, e, i, top);
    }
  }

  lemma TickBounded(s: Sched, top: nat)
    requires Inv(s) && BoundedBy(s, top)
    ensures BoundedBy(Tick(Pa, s), top)
  {
    hide Tick, Dispatch;
    PaTick(s);
    TickKeeps(Pa, s);
  }

  /** A ready process is dispatched before its patience runs out. */
  lemma {:induction false} NoStarvation(s: Sched, i: nat, top: nat)
    requires Inv(s) && Aged(s) && BoundedBy(s, top) && i in s.ready
    ensures exists k :: 0 <= k < Patience(s, i, top) && Dispatch(Pa, Ticks(Pa, s, k)).current == Some(i)
    decreases Patience(s, i, top)
  {
    hide Dispatch, Tick, Ahead, Core, Wakes;
    if Dispatch(Pa, s).current == Some(i) {
      assert Ticks(Pa, s, 0) == s;
      assert Patience(s, i, top) > 0;
    } else {
      PatienceRunsOut(s, i, top);
      TickAged(s);
      TickKeeps(Pa, s);
      TickBounded(s, top);
      var e := Tick(Pa, s);
      NoStarvation(e, i, top);
      var k :| 0 <= k < Patience(e, i, top) && Dispatch(Pa, Ticks(Pa, e, k)).current == Some(i);
      assert Ticks(Pa, s, k + 1) == Ticks(Pa, e, k);
    }
  }

  /** The bound on the wait: max(0, top - priority) + the number of processes. */
  lemma StarvationBound(s: Sched, i: nat, top: nat)
    requires Inv(s) && Aged(s) && BoundedBy(s, top) && i in s.ready
    ensures var wait := (if P(s, i).prio < top then top - P(s, i).prio else 0) + |s.procs|;
      exists k :: 0 <= k < wait && Dispatch(Pa, Ticks(Pa, s, k)).current == Some(i)
  {
    hide Dispatch, Ticks;
    NoStarvation(s, i, top);
    AheadIsSmall(s, i);
  }

  lemma {:induction false} RunsAge(s: Sched, n: nat, top: nat)
    requires Inv(s) && Aged(s) && BoundedBy(s, top)
    ensures var e := Ticks(Pa, s, n); Inv(e) && Aged(e) && BoundedBy(e, top) && |e.procs| == |s.procs|
    decreases n
  {
    if n > 0 {
      TickAged(s);
      TickKeeps(Pa, s);
      TickBounded(s, top);
      RunsAge(Tick(Pa, s), n - 1, top);
    }
  }

  lemma LoadedAged(s: Sched)
    requires Loaded(s)
    ensures Aged(s)
  {
  }

  /** From a loaded script: whoever is ready at any time of the run is dispatched within the bound. */
  lemma NobodyStarves(s: Sched, n: nat, i: nat, top: nat)
    requires Loaded(s) && BoundedBy(s, top) && i in Ticks(Pa, s, n).ready
    ensures var p := P(Ticks(Pa, s, n), i);
      var wait := (if p.prio < top then top - p.prio else 0) + |s.procs|;
      exists k :: n <= k < n + wait && Dispatch(Pa, Ticks(Pa, s, k)).current == Some(i)
  {
    hide Dispatch, Ticks, Inv, Aged;
    LoadedInv(s);
    LoadedAged(s);
    RunsAge(s, n, top);
    var e := Ticks(Pa, s, n);
    StarvationBound(e, i, top);
    var k :| 0 <= k < (if P(e, i).prio < top then top - P(e, i).prio else 0) + |s.procs|
      && Dispatch(Pa, Ticks(Pa, e, k)).current == Some(i);
    TicksSplit(Pa, s, n, k);
    assert Dispatch(Pa, Ticks(Pa, s, n + k)).current == Some(i);
  }

  // ---------------------------------------------------------------- how far priorities go

  /** Who has reached the largest original priority has only so many more raises ahead. */
  ghost predicate Within(s: Sched, top: nat) {
    forall i :: i in s.ready && P(s, i).prio >= top ==> P(s, i).prio + |Ahead(s, i)| < top + |s.procs|
  }

  lemma TickCurrent(s: Sched)
    requires Inv(s)
    ensures Tick(Pa, s).current == Dispatch(Pa, s).current
  {
    hide Dispatch, AcquireFrom, ReleaseFrom, Core, Wakes, Releasing;
    DispatchKeeps(Pa, s);
    var d := Dispatch(Pa, s);
    assert d.current.Some? ==> Placed(d, d.current.value) && RunsAs(d, d.current.value);
    if d.current.Some? {
      var c := d.current.value;
      AcquireKeeps(Pa, d, c, 0);
      var (s1, ok) := AcquireFrom(Pa, d, c, 0);
      if ok {
        AgeKeeps(s1, c);
        ReleaseKeeps(Pa, SetP(s1, c, P(s1, c).(age := P(s1, c).age + 1)), c, 0);
      }
    }
  }

  lemma CurrentNotAhead(s: Sched, i: nat)
    requires Core(s) && s.current.Some? && i in s.ready
    ensures |Ahead(s, i)| + 2 <= |s.procs|
  {
    AheadIsSmall(s, i);
    var a, c := Ahead(s, i), s.current.value;
    assert c !in s.ready && c !in a + {i};
    assert forall j :: j in a + {i} + {c} ==> j < |s.procs|;
    SmallSet(a + {i} + {c}, |s.procs|);
    assert |a + {i} + {c}| == |a + {i}| + 1 && |a + {i}| == |a| + 1;
  }

  lemma SomebodyChosen(s: Sched)
    requires Inv(s) && ForkFrom(s, 0).ready != []
    ensures Dispatch(Pa, s).current.Some?
  {
    hide Dispatch, Core, Wakes, ForkFrom;
    PaDispatch(s);
  }

  /** A process that was not ready before is raised by at most one. */
  lemma NewlyReady(s: Sched, i: nat)
    requires Inv(s) && Aged(s) && i !in s.ready && i < |s.procs|
    ensures var e := Tick(Pa, s);
      P(e, i).prio <= P(s, i).prioOrig || (P(e, i).prio == P(s, i).prioOrig + 1 && e.current.Some?)
  {
    hide Dispatch, Tick, Core, Wakes, PaChose;
    PaDispatch(s);
    PaTick(s);
    TickCurrent(s);
    var f, d := ForkFrom(s, 0), Dispatch(Pa, s);
    assert P(f, i) == P(s, i) && P(s, i).prio == P(s, i).prioOrig;
    if f.ready != [] {
      SomebodyChosen(s);
    }
  }

  lemma ReadyAhead(e: Sched, i: nat)
    requires Core(e) && i in e.ready
    ensures i < |e.procs| && |Ahead(e, i)| < |e.procs|
  {
    AheadIsSmall(e, i);
  }

  lemma RaisedByOne(s: Sched, i: nat)
    requires Inv(s) && Aged(s) && i in s.ready
    ensures var d, e := Dispatch(Pa, s), Tick(Pa, s);
      if d.current == Some(i) then P(e, i).prio == P(s, i).prioOrig else P(e, i).prio == P(s, i).prio + 1
  {
    hide Dispatch, Tick, Core, Wakes, PaChose;
    PaDispatch(s);
    PaTick(s);
    ExtendsMembers(s.ready, ForkFrom(s, 0).ready);
  }

  lemma WithinOne(s: Sched, e: Sched, i: nat, top: nat)
    requires Inv(s) && Aged(s) && BoundedBy(s, top) && Within(s, top) && e == Tick(Pa, s)
    requires Inv(e) && |e.procs| == |s.procs| && i in e.ready && P(e, i).prio >= top
    ensures P(e, i).prio + |Ahead(e, i)| < top + |e.procs|
  {
    hide Dispatch, Tick, Ahead, Wakes;
    ReadyAhead(e, i);
    hide Core;
    if i !in s.ready {
      NewlyReady(s, i);
      if e.current.Some? {
        CurrentNotAhead(e, i);
      }
    } else {
      RaisedByOne(s, i);
      PatienceRunsOut(s, i, top);
    }
  }

  lemma TickWithin(s: Sched, top: nat)
    requires Inv(s) && Aged(s) && BoundedBy(s, top) && Within(s, top)
    ensures Within(Tick(Pa, s), top)
  {
    hide Dispatch, Tick, Ahead, Core, Wakes;
    TickKeeps(Pa, s);
    var e := Tick(Pa, s);
    forall i | i in e.ready && P(e, i).prio >= top
      ensures P(e, i).prio + |Ahead(e, i)| < top + |e.procs|
    {
      WithinOne(s, e, i, top);
    }
  }

  lemma {:induction false} RunsWithin(s: Sched, n: nat, top: nat)
    requires Inv(s) && Aged(s) && BoundedBy(s, top) && Within(s, top)
    ensures var e := Ticks(Pa, s, n);
      && |e.procs| == |s.procs| && Aged(e) && BoundedBy(e, top) && Within(e, top)
    decreases n
  {
    hide Tick, Inv, Within, Aged, BoundedBy;
    if n > 0 {
      TickAged(s);
      TickKeeps(Pa, s);
      TickBounded(s, top);
      TickWithin(s, top);
      RunsWithin(Tick(Pa, s), n - 1, top);
    }
  }

  /** From a loaded script: no priority ever reaches `top` plus the number of processes, so none passes
      MAX_PRIO when `top` leaves that much room. */
  lemma PrioritiesBounded(s: Sched, n: nat, i: nat, top: nat)
    requires Loaded(s) && BoundedBy(s, top) && i < |s.procs|
    ensures P(Ticks(Pa, s, n), i).prio < top + |s.procs|
    ensures top + |s.procs| <= MAX_PRIO + 1 ==> P(Ticks(Pa, s, n), i).prio <= MAX_PRIO
  {
    hide Ticks, Inv, Ahead;
    LoadedInv(s);
    LoadedAged(s);
    RunsWithin(s, n, top);
  }

  /** A process that is due is on the ready queue once forking is done. */
  lemma DueIsReady(s: Sched, i: nat)
    requires Inv(s) && i in s.forkq && P(s, i).startsAt <= s.ticks
    ensures i in ForkFrom(s, 0).ready
  {
    hide ForkFrom, Owners, AllSane, Wakes;
    ForkKeeps(s, 0);
    ForkLeaves(s, 0);
    var f := ForkFrom(s, 0);
    assert P(f, i) == P(s, i) && P(f, i).status == Ready && Placed(f, i);
  }

  /** There is no cap: of two processes that start at once with MAX_PRIO, one has passed it after a tick. */
  lemma AgingPassesCap(s: Sched, i: nat, j: nat)
    requires Loaded(s) && i < j < |s.procs|
    requires P(s, i).startsAt == P(s, j).startsAt == 0 && P(s, i).prioOrig == P(s, j).prioOrig == MAX_PRIO
    ensures var e := Tick(Pa, s); P(e, i).prio == MAX_PRIO + 1 || P(e, j).prio == MAX_PRIO + 1
  {
    assert s.forkq[i] == i && s.forkq[j] == j;
    LoadedInv(s);
    hide Dispatch, Tick, Inv, ForkFrom;
    DueIsReady(s, i);
    DueIsReady(s, j);
    PaDispatch(s);
    PaTick(s);
    assert forall k: nat :: P(ForkFrom(s, 0), k) == P(s, k);
  }
}
