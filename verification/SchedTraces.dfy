/** The failures of the schedulers, from a loaded script: a blocked process that round robin and STCF put
    back on the ready queue, and releases that reset the priority while another resource is held. */
module SchedTraces {
  import opened Common
  import opened SchedModel
  import opened SchedInvariant
  import opened SchedPreemptive
  import opened SchedAging
  import opened SchedInherit
  import opened SchedCeiling

  /** Two processes, and the resources 0 and 1. */
  function Two(p0: Proc, p1: Proc, forkq: seq<nat>, ready: seq<nat>, current: Option<nat>,
               r0: Resource, r1: Resource, ticks: nat): Sched
  {
    Sched([p0, p1], forkq, ready, current, FreeResources()[0 := r0][1 := r1], ticks)
  }

  function Script(lifespan: nat, prio: nat, startsAt: nat, claims: seq<Claim>): Proc {
    Proc(lifespan, prio, startsAt, 0, prio, Ready, claims, [])
  }

  const FREE := Resource(None, [])

  /** One iteration of a run that has the parts named: the state after forking, the one dispatched, the
      one after acquiring, and, when the process was not blocked, the one after releasing. */
  lemma OneTick(policy: Policy, s: Sched, f: Sched, d: Sched, c: nat, a: Sched, ok: bool, e: Sched)
    requires ForkFrom(s, 0) == f
    requires var x := Schedule(policy, f);
      d == SetStatus(Retire(x.s, s.current).(current := x.next), c, Running) && x.next == Some(c)
    requires d.current == Some(c) && AcquireFrom(policy, d, c, 0) == (a, ok)
    requires e == if ok then ReleaseFrom(policy, SetP(a, c, P(a, c).(age := P(a, c).age + 1)), c, 0) else a
    ensures Tick(policy, s) == e.(ticks := d.ticks + 1)
  {
    hide ForkFrom, Schedule, AcquireFrom, ReleaseFrom, Retire, SetStatus, SetP, P;
    assert Dispatch(policy, s) == d;
    assert RunCurrent(policy, d, c) == e;
  }

  lemma SetProcs(p0: Proc, p1: Proc, forkq: seq<nat>, ready: seq<nat>, current: Option<nat>,
                 r0: Resource, r1: Resource, ticks: nat, x: Proc)
    ensures SetP(Two(p0, p1, forkq, ready, current, r0, r1, ticks), 0, x)
         == Two(x, p1, forkq, ready, current, r0, r1, ticks)
    ensures SetP(Two(p0, p1, forkq, ready, current, r0, r1, ticks), 1, x)
         == Two(p0, x, forkq, ready, current, r0, r1, ticks)
  {
    assert [p0, p1][0 := x] == [x, p1] && [p0, p1][1 := x] == [p0, x];
  }

  lemma SetZero(p0: Proc, p1: Proc, forkq: seq<nat>, ready: seq<nat>, current: Option<nat>,
                r0: Resource, r1: Resource, ticks: nat, x: Resource)
    ensures SetRes(Two(p0, p1, forkq, ready, current, r0, r1, ticks), 0, x)
         == Two(p0, p1, forkq, ready, current, x, r1, ticks)
    ensures SetRes(Two(p0, p1, forkq, ready, current, r0, r1, ticks), 1, x)
         == Two(p0, p1, forkq, ready, current, r0, x, ticks)
  {
    var q := FreeResources();
    assert q[0 := r0][1 := r1][0 := x] == q[0 := x][1 := r1];
    assert q[0 := r0][1 := r1][1 := x] == q[0 := r0][1 := x];
  }

  lemma NoneLeft(s: Sched)
    requires s.forkq == []
    ensures ForkFrom(s, 0) == s
  {
  }

  lemma TwoTicks(policy: Policy, s: Sched)
    ensures Ticks(policy, s, 2) == Tick(policy, Tick(policy, s))
  {
    assert Ticks(policy, s, 2) == Ticks(policy, Tick(policy, s), 1) == Ticks(policy, Tick(policy, Tick(policy, s)), 0);
  }

  /** Process 1 starts in place of process 0, which has life left. */
  lemma Switches(x: Sched, d: Sched, p: Proc, q: Proc, ready: seq<nat>, r0: Resource, r1: Resource, t: nat)
    requires p.status == Running && p.age < p.lifespan && x == Two(p, q, [], ready, Some(0), r0, r1, t)
    requires d == Two(p.(status := Ready), q.(status := Running), [], ready, Some(1), r0, r1, t)
    ensures d == SetStatus(Retire(x, Some(0)).(current := Some(1)), 1, Running)
  {
    SetProcs(p, q, [], ready, Some(0), r0, r1, t, p.(status := Ready));
    SetProcs(p.(status := Ready), q, [], ready, Some(1), r0, r1, t, q.(status := Running));
  }

  // ---------------------------------------------------------------- round robin and STCF

  const BOTH := Claim(0, 0, 2, 2)

  /** Both claim resource 0 at age 0 for two ticks; the second, shorter one comes a tick later. */
  function Rivals(): Sched {
    Two(Script(5, 0, 0, [BOTH]), Script(2, 0, 1, [BOTH]), [0, 1], [], None, FREE, FREE, 0)
  }

  function RivalsOne(): Sched {
    var p := Script(5, 0, 0, []).(age := 1, status := Running, holding := [Claim(0, 0, 2, 1)]);
    Two(p, Script(2, 0, 1, [BOTH]), [1], [], Some(0), Resource(Some(0), []), FREE, 1)
  }

  function RivalsTwo(): Sched {
    var p := Script(5, 0, 0, []).(age := 1, status := Ready, holding := [Claim(0, 0, 2, 1)]);
    Two(p, Script(2, 0, 1, [BOTH]).(status := Blocked), [], [0], Some(1), Resource(Some(0), [1]), FREE, 2)
  }

  lemma FirstForks(s: Sched)
    requires s == Rivals()
    ensures ForkFrom(s, 0) == Two(Script(5, 0, 0, [BOTH]), Script(2, 0, 1, [BOTH]), [1], [0], None, FREE, FREE, 0)
  {
    var f := Two(Script(5, 0, 0, [BOTH]), Script(2, 0, 1, [BOTH]), [1], [0], None, FREE, FREE, 0);
    assert Without([0, 1], 0) == [1];
    assert ForkFrom(f, 0) == f;
  }

  lemma {:induction false} NoneDue(policy: Policy, s: Sched, c: nat, k: nat)
    requires forall j :: k <= j < |P(s, c).pending| ==> P(s, c).pending[j].at != P(s, c).age
    ensures AcquireFrom(policy, s, c, k) == (s, true)
    decreases |P(s, c).pending| - k
  {
    if k < |P(s, c).pending| {
      NoneDue(policy, s, c, k + 1);
    }
  }

  /** A running process 0 takes the free resource 0 it is due. */
  lemma TakesZero(policy: Policy, d: Sched, p: Proc, q: Proc, forkq: seq<nat>, ready: seq<nat>, r1: Resource, t: nat,
                  c: Claim, rest: seq<Claim>)
    requires policy != Pcp && d == Two(p, q, forkq, ready, Some(0), FREE, r1, t)
    requires p.pending == [c] + rest && c.res == 0 && c.at == p.age
    requires forall j :: 0 <= j < |rest| ==> rest[j].at != p.age
    ensures AcquireFrom(policy, d, 0, 0)
         == (Two(p.(pending := rest, holding := p.holding + [c]), q, forkq, ready, Some(0),
                 Resource(Some(0), []), r1, t), true)
  {
    var p' := p.(pending := rest, holding := p.holding + [c]);
    var a := Two(p', q, forkq, ready, Some(0), Resource(Some(0), []), r1, t);
    SetZero(p, q, forkq, ready, Some(0), FREE, r1, t, Resource(Some(0), []));
    SetProcs(p, q, forkq, ready, Some(0), Resource(Some(0), []), r1, t, p');
    assert Without(p.pending, 0) == rest;
    NoneDue(policy, a, 0, 0);
    assert MoveClaim(Acquire(policy, d, 0, 0).0, 0, 0) == a;
  }

  lemma OnlyOne(s: Sched, i: nat, bound: int)
    requires Remaining(P(s, i)) < bound
    ensures Shortest(s, [i], bound) == Some(0)
  {
  }

  lemma FirstChosen(policy: Policy, f: Sched, d: Sched)
    requires policy in {Rr, Stcf}
      && f == Two(Script(5, 0, 0, [BOTH]), Script(2, 0, 1, [BOTH]), [1], [0], None, FREE, FREE, 0)
    requires d == Two(Script(5, 0, 0, [BOTH]).(status := Running), Script(2, 0, 1, [BOTH]), [1], [], Some(0),
                      FREE, FREE, 0)
    ensures var x := Schedule(policy, f);
      d == SetStatus(Retire(x.s, None).(current := x.next), 0, Running) && x.next == Some(0)
  {
    OnlyOne(f, 0, MAX_TC);
    hide Shortest, Best, Prios, Brevity;
    assert Without([0], 0) == [];
  }

  lemma FirstCounts(policy: Policy, b: Sched)
    requires b == Two(Script(5, 0, 0, []).(age := 1, status := Running, holding := [BOTH]), Script(2, 0, 1, [BOTH]),
                      [1], [], Some(0), Resource(Some(0), []), FREE, 0)
    ensures ReleaseFrom(policy, b, 0, 0).(ticks := 1) == RivalsOne()
  {
    assert [BOTH][0 := Claim(0, 0, 2, 1)] == [Claim(0, 0, 2, 1)];
  }

  lemma FirstRuns(policy: Policy, s: Sched)
    requires policy in {Rr, Stcf} && s == Rivals()
    ensures Tick(policy, s) == RivalsOne()
  {
    var p, q := Script(5, 0, 0, [BOTH]), Script(2, 0, 1, [BOTH]);
    var f := Two(p, q, [1], [0], None, FREE, FREE, 0);
    FirstForks(s);
    var d := Two(p.(status := Running), q, [1], [], Some(0), FREE, FREE, 0);
    FirstChosen(policy, f, d);
    TakesZero(policy, d, p.(status := Running), q, [1], [], FREE, 0, BOTH, []);
    var a := AcquireFrom(policy, d, 0, 0).0;
    var b := SetP(a, 0, P(a, 0).(age := 1));
    SetProcs(P(a, 0), q, [1], [], Some(0), Resource(Some(0), []), FREE, 0, P(a, 0).(age := 1));
    assert [] + [BOTH] == [BOTH];
    FirstCounts(policy, b);
    OneTick(policy, s, f, d, 0, a, true, ReleaseFrom(policy, b, 0, 0));
  }

  lemma SecondForks(s: Sched, f: Sched)
    requires s == RivalsOne() && f == s.(forkq := [], ready := [1])
    ensures ForkFrom(s, 0) == f
  {
    assert Without([1], 0) == [];
    assert ForkFrom(f, 0) == f;
  }

  lemma SecondChosen(policy: Policy, f: Sched, d: Sched, p: Proc, q: Proc)
    requires policy in {Rr, Stcf} && p == RivalsOne().procs[0] && q == Script(2, 0, 1, [BOTH])
    requires f == Two(p, q, [], [1], Some(0), Resource(Some(0), []), FREE, 1)
    requires d == Two(p.(status := Ready), q.(status := Running), [], [0], Some(1), Resource(Some(0), []), FREE, 1)
    ensures var x := Schedule(policy, f);
      d == SetStatus(Retire(x.s, Some(0)).(current := x.next), 1, Running) && x.next == Some(1)
  {
    OnlyOne(f, 1, 4);
    hide Shortest, Best, Prios, Brevity, Retire, SetStatus;
    assert [1] + [0] == [1, 0] && Without([1, 0], 0) == [0];
    Switches(f.(ready := [0]), d, p, q, [0], Resource(Some(0), []), FREE, 1);
  }

  /** A process 1 without luck: what it is due is owned by process 0. */
  lemma BlocksOnZero(policy: Policy, d: Sched, p: Proc, q: Proc, ready: seq<nat>, r1: Resource, t: nat, c: Claim)
    requires policy != Pip && d == Two(p, q, [], ready, Some(1), Resource(Some(0), []), r1, t)
    requires q.pending == [c] && c.res == 0 && c.at == q.age
    ensures AcquireFrom(policy, d, 1, 0)
         == (Two(p, q.(status := Blocked), [], ready, Some(1), Resource(Some(0), [1]), r1, t), false)
  {
    var r := Resource(Some(0), []);
    assert [] + [1] == [1];
    SetProcs(p, q, [], ready, Some(1), r, r1, t, q.(status := Blocked));
    SetZero(p, q.(status := Blocked), [], ready, Some(1), r, r1, t, Resource(Some(0), [1]));
  }

  lemma SecondBlocks(policy: Policy, s: Sched)
    requires policy in {Rr, Stcf} && s == RivalsOne()
    ensures Tick(policy, s) == RivalsTwo()
  {
    hide ForkFrom, Schedule, AcquireFrom, Retire, SetStatus, Tick;
    var p, q, r := s.procs[0], s.procs[1], Resource(Some(0), []);
    var f := Two(p, q, [], [1], Some(0), r, FREE, 1);
    SecondForks(s, f);
    var d := Two(p.(status := Ready), q.(status := Running), [], [0], Some(1), r, FREE, 1);
    SecondChosen(policy, f, d, p, q);
    BlocksOnZero(policy, d, p.(status := Ready), q.(status := Running), [0], FREE, 1, BOTH);
    var a := AcquireFrom(policy, d, 1, 0).0;
    OneTick(policy, s, f, d, 1, a, false, a);
  }

  lemma RivalsLoaded(s: Sched)
    requires s == Rivals()
    ensures Loaded(s)
  {
    assert s.forkq == seq(|s.procs|, i => i);
    assert s.res == FreeResources();
  }

  lemma ThirdMisfits(policy: Policy, t: Sched)
    requires policy in {Rr, Stcf} && t == RivalsTwo()
    ensures ForkFrom(t, 0) == t && !Fits(policy, t)
  {
  }

  lemma ThirdChosen(policy: Policy, t: Sched, e: Sched)
    requires policy in {Rr, Stcf} && t == RivalsTwo() && e == t.(ready := [1])
    ensures Schedule(policy, t) == Choice(e, Some(0))
  {
    OnlyOne(t, 0, MAX_TC);
    hide Shortest, Best, Prios, Brevity;
    assert [0] + [1] == [0, 1] && Without([0, 1], 0) == [1];
  }

  lemma ThirdRequeues(policy: Policy, t: Sched)
    requires policy in {Rr, Stcf} && t == RivalsTwo()
    ensures !Fits(policy, ForkFrom(t, 0))
    ensures var d := Dispatch(policy, t); 1 in d.ready && 1 in d.res[0].waitq && P(d, 1).status == Blocked
  {
    hide ForkFrom, Schedule, Fits;
    ThirdMisfits(policy, t);
    ThirdChosen(policy, t, t.(ready := [1]));
    assert [1][0] == 1;
  }

  /** Round robin and STCF: after two ticks the process that blocked is put on the ready queue while it
      still stands in the wait queue. */
  lemma BlockedIsReady(policy: Policy, s: Sched)
    requires policy in {Rr, Stcf} && s == Rivals()
    ensures Loaded(s) && Ticks(policy, s, 2) == RivalsTwo() && !Fits(policy, ForkFrom(RivalsTwo(), 0))
    ensures var d := Dispatch(policy, RivalsTwo()); 1 in d.ready && 1 in d.res[0].waitq && P(d, 1).status == Blocked
  {
    FirstRuns(policy, s);
    SecondBlocks(policy, RivalsOne());
    TwoTicks(policy, s);
    RivalsLoaded(s);
    ThirdRequeues(policy, RivalsTwo());
  }

  // ---------------------------------------------------------------- nested claims under PIP

  const OUTER := Claim(0, 0, 5, 5)
  const INNER := Claim(1, 1, 2, 2)
  const URGENT := Claim(0, 0, 1, 1)

  /** A low process holds resource 1 inside resource 0; a high one wants resource 0 from tick 2 on. */
  function Nested(): Sched {
    Two(Script(6, 1, 0, [OUTER, INNER]), Script(2, 10, 2, [URGENT]), [0, 1], [], None, FREE, FREE, 0)
  }

  function Low(age: nat, prio: nat, pending: seq<Claim>, holding: seq<Claim>): Proc {
    Script(6, 1, 0, pending).(age := age, prio := prio, status := Running, holding := holding)
  }

  function High(): Proc { Script(2, 10, 2, [URGENT]) }

  function NestedOne(): Sched {
    Two(Low(1, 1, [INNER], [OUTER.(left := 4)]), High(), [1], [], Some(0), Resource(Some(0), []), FREE, 1)
  }

  function NestedTwo(): Sched {
    Two(Low(2, 1, [], [OUTER.(left := 3), INNER.(left := 1)]), High(), [1], [], Some(0),
        Resource(Some(0), []), Resource(Some(0), []), 2)
  }

  function NestedThree(): Sched {
    Two(Low(2, 10, [], [OUTER.(left := 3), INNER.(left := 1)]).(status := Ready), High().(status := Blocked),
        [], [0], Some(1), Resource(Some(0), [1]), Resource(Some(0), []), 3)
  }

  function NestedFour(): Sched {
    Two(Low(3, 1, [], [OUTER.(left := 2)]), High().(status := Blocked), [], [], Some(0),
        Resource(Some(0), [1]), FREE, 4)
  }

  lemma NestedCounts(b: Sched)
    requires b == Two(Low(1, 1, [INNER], [OUTER]), High(), [1], [], Some(0), Resource(Some(0), []), FREE, 0)
    ensures ReleaseFrom(Pip, b, 0, 0).(ticks := 1) == NestedOne()
  {
    assert [OUTER][0 := OUTER.(left := 4)] == [OUTER.(left := 4)];
  }

  lemma NestedForks(s: Sched, f: Sched)
    requires s == Nested() && f == Two(Script(6, 1, 0, [OUTER, INNER]), High(), [1], [0], None, FREE, FREE, 0)
    ensures ForkFrom(s, 0) == f
  {
    assert Without([0, 1], 0) == [1];
    assert ForkFrom(f, 0) == f;
  }

  lemma NestedStarts(f: Sched, d: Sched)
    requires f == Two(Script(6, 1, 0, [OUTER, INNER]), High(), [1], [0], None, FREE, FREE, 0)
    requires d == Two(Script(6, 1, 0, [OUTER, INNER]).(status := Running), High(), [1], [], Some(0), FREE, FREE, 0)
    ensures var x := Schedule(Pip, f);
      x.next == Some(0) && d == SetStatus(Retire(x.s, None).(current := x.next), 0, Running)
  {
    assert Without([0], 0) == [] && Prios(f, [0]) == [1];
  }

  lemma NestedFirst(s: Sched)
    requires s == Nested()
    ensures Tick(Pip, s) == NestedOne()
  {
    var p, q := Script(6, 1, 0, [OUTER, INNER]), High();
    var f := Two(p, q, [1], [0], None, FREE, FREE, 0);
    NestedForks(s, f);
    var d := Two(p.(status := Running), q, [1], [], Some(0), FREE, FREE, 0);
    NestedStarts(f, d);
    hide ForkFrom, Schedule;
    assert [OUTER, INNER] == [OUTER] + [INNER] && [] + [OUTER] == [OUTER];
    TakesZero(Pip, d, p.(status := Running), q, [1], [], FREE, 0, OUTER, [INNER]);
    var a := AcquireFrom(Pip, d, 0, 0).0;
    var b := SetP(a, 0, P(a, 0).(age := 1));
    SetProcs(P(a, 0), q, [1], [], Some(0), Resource(Some(0), []), FREE, 0, P(a, 0).(age := 1));
    NestedCounts(b);
    OneTick(Pip, s, f, d, 0, a, true, ReleaseFrom(Pip, b, 0, 0));
  }

  lemma NestedKeeps(s: Sched)
    requires s == NestedOne()
    ensures var x := Schedule(Pip, s);
      x.next == Some(0) && s == SetStatus(Retire(x.s, s.current).(current := x.next), 0, Running)
  {
    SetProcs(s.procs[0], s.procs[1], [1], [], Some(0), Resource(Some(0), []), FREE, 1, s.procs[0].(status := Ready));
    SetProcs(s.procs[0].(status := Ready), s.procs[1], [1], [], Some(0), Resource(Some(0), []), FREE, 1, s.procs[0]);
  }

  lemma NestedCountsTwo(b: Sched)
    requires b == Two(Low(2, 1, [], [OUTER.(left := 4), INNER]), High(), [1], [], Some(0),
                      Resource(Some(0), []), Resource(Some(0), []), 1)
    ensures ReleaseFrom(Pip, b, 0, 0).(ticks := 2) == NestedTwo()
  {
    var o, n := OUTER.(left := 3), INNER.(left := 1);
    var r := Resource(Some(0), []);
    assert [OUTER.(left := 4), INNER][0 := o] == [o, INNER] && [o, INNER][1 := n] == [o, n];
    var b1 := Two(Low(2, 1, [], [o, INNER]), High(), [1], [], Some(0), r, r, 1);
    SetProcs(P(b, 0), High(), [1], [], Some(0), r, r, 1, P(b1, 0));
    var b2 := Two(Low(2, 1, [], [o, n]), High(), [1], [], Some(0), r, r, 1);
    SetProcs(P(b1, 0), High(), [1], [], Some(0), r, r, 1, P(b2, 0));
    assert ReleaseFrom(Pip, b2, 0, 2) == b2;
    assert ReleaseFrom(Pip, b1, 0, 1) == b2;
    assert ReleaseFrom(Pip, b, 0, 0) == b2;
  }

  lemma NestedSecond(s: Sched)
    requires s == NestedOne()
    ensures Tick(Pip, s) == NestedTwo()
  {
    var p, q := s.procs[0], s.procs[1];
    var r := Resource(Some(0), []);
    assert ForkFrom(s, 0) == s;
    var a := Two(Low(1, 1, [], [OUTER.(left := 4), INNER]), q, [1], [], Some(0), r, r, 1);
    assert AcquireFrom(Pip, s, 0, 0) == (a, true) by {
      SetZero(p, q, [1], [], Some(0), r, FREE, 1, r);
      SetProcs(p, q, [1], [], Some(0), r, r, 1, P(a, 0));
      assert Without([INNER], 0) == [] && [OUTER.(left := 4)] + [INNER] == [OUTER.(left := 4), INNER];
      NoneDue(Pip, a, 0, 0);
      assert MoveClaim(Acquire(Pip, s, 0, 1).0, 0, 0) == a;
    }
    var b := Two(Low(2, 1, [], [OUTER.(left := 4), INNER]), q, [1], [], Some(0), r, r, 1);
    SetProcs(P(a, 0), q, [1], [], Some(0), r, r, 1, P(b, 0));
    NestedCountsTwo(b);
    NestedKeeps(s);
    OneTick(Pip, s, s, s, 0, a, true, ReleaseFrom(Pip, b, 0, 0));
  }

  lemma NestedPreempts(f: Sched, d: Sched)
    requires f == NestedTwo().(forkq := [], ready := [1])
    requires d == Two(NestedTwo().procs[0].(status := Ready), High().(status := Running), [], [0], Some(1),
                      Resource(Some(0), []), Resource(Some(0), []), 2)
    ensures var x := Schedule(Pip, f);
      x.next == Some(1) && d == SetStatus(Retire(x.s, f.current).(current := x.next), 1, Running)
  {
    assert Prios(f, [1]) == [10] && [1] + [0] == [1, 0] && Without([1, 0], 0) == [0];
  }

  lemma NestedThird(s: Sched)
    requires s == NestedTwo()
    ensures Tick(Pip, s) == NestedThree()
  {
    var p, q := s.procs[0], s.procs[1];
    var r := Resource(Some(0), []);
    var f := Two(p, q, [], [1], Some(0), r, r, 2);
    assert ForkFrom(s, 0) == f by {
      assert Without([1], 0) == [];
      assert ForkFrom(f, 0) == f;
    }
    var d := Two(p.(status := Ready), q.(status := Running), [], [0], Some(1), r, r, 2);
    NestedPreempts(f, d);
    var a := Two(p.(status := Ready, prio := 10), q.(status := Blocked), [], [0], Some(1),
                 Resource(Some(0), [1]), r, 2);
    assert AcquireFrom(Pip, d, 1, 0) == (a, false) by {
      SetProcs(p.(status := Ready), q.(status := Running), [], [0], Some(1), r, r, 2, p.(status := Ready, prio := 10));
      SetProcs(p.(status := Ready, prio := 10), q.(status := Running), [], [0], Some(1), r, r, 2,
        q.(status := Blocked));
      SetZero(p.(status := Ready, prio := 10), q.(status := Blocked), [], [0], Some(1), r, r, 2,
        Resource(Some(0), [1]));
    }
    OneTick(Pip, s, f, d, 1, a, false, a);
  }

  lemma NestedResumes(s: Sched, d: Sched)
    requires s == NestedThree()
    requires d == Two(s.procs[0].(status := Running), s.procs[1], [], [], Some(0),
                      Resource(Some(0), [1]), Resource(Some(0), []), 3)
    ensures var x := Schedule(Pip, s);
      x.next == Some(0) && d == SetStatus(Retire(x.s, s.current).(current := x.next), 0, Running)
  {
    assert Prios(s, [0]) == [10] && Without([0], 0) == [];
    assert [0][0] == 0;
  }

  lemma NestedForgets(b: Sched)
    requires b == Two(Low(3, 10, [], [OUTER.(left := 3), INNER.(left := 1)]), High().(status := Blocked),
                      [], [], Some(0), Resource(Some(0), [1]), Resource(Some(0), []), 3)
    ensures ReleaseFrom(Pip, b, 0, 0).(ticks := 4) == NestedFour()
  {
    var o, n := OUTER.(left := 2), INNER.(left := 1);
    var q := High().(status := Blocked);
    var r0, r1 := Resource(Some(0), [1]), Resource(Some(0), []);
    assert [OUTER.(left := 3), n][0 := o] == [o, n] && Without([o, n], 1) == [o];
    var b1 := Two(Low(3, 10, [], [o, n]), q, [], [], Some(0), r0, r1, 3);
    SetProcs(P(b, 0), q, [], [], Some(0), r0, r1, 3, P(b1, 0));
    var b2 := Two(Low(3, 1, [], [o, n]), q, [], [], Some(0), r0, FREE, 3);
    assert Release(Pip, b1, 0, 1) == b2 by {
      SetProcs(P(b1, 0), q, [], [], Some(0), r0, r1, 3, P(b2, 0));
      SetZero(P(b2, 0), q, [], [], Some(0), r0, r1, 3, FREE);
    }
    var b3 := Two(Low(3, 1, [], [o]), q, [], [], Some(0), r0, FREE, 3);
    SetProcs(P(b2, 0), q, [], [], Some(0), r0, FREE, 3, P(b3, 0));
    assert ReleaseFrom(Pip, b3, 0, 1) == b3;
    assert ReleaseFrom(Pip, b1, 0, 1) == b3;
    assert ReleaseFrom(Pip, b, 0, 0) == b3;
  }

  lemma NestedFourth(s: Sched)
    requires s == NestedThree()
    ensures Tick(Pip, s) == NestedFour()
  {
    var p, q := s.procs[0], s.procs[1];
    var r0, r1 := Resource(Some(0), [1]), Resource(Some(0), []);
    NoneLeft(s);
    var d := Two(p.(status := Running), q, [], [], Some(0), r0, r1, 3);
    NestedResumes(s, d);
    NoneDue(Pip, d, 0, 0);
    var b := Two(Low(3, 10, [], p.holding), q, [], [], Some(0), r0, r1, 3);
    SetProcs(P(d, 0), q, [], [], Some(0), r0, r1, 3, P(b, 0));
    NestedForgets(b);
    OneTick(Pip, s, s, d, 0, d, true, ReleaseFrom(Pip, b, 0, 0));
  }

  lemma NestedLoaded(s: Sched)
    requires s == Nested()
    ensures Loaded(s)
  {
    assert s.forkq == seq(|s.procs|, i => i);
    assert s.res == FreeResources();
  }

  lemma NestedWaits(e: Sched)
    requires e == NestedFour()
    ensures e.res[0].owner == Some(0) && 1 in e.res[0].waitq && P(e, 0).prio < P(e, 1).prio && !Inherits(e, 0)
  {
    assert e.res[0] == Resource(Some(0), [1]) && [1][0] == 1;
    assert WaitsOn(e, 1, 0);
  }

  lemma FourTicks(policy: Policy, s: Sched)
    ensures Ticks(policy, s, 4) == Tick(policy, Tick(policy, Tick(policy, Tick(policy, s))))
  {
    var t := Tick(policy, s);
    TwoTicks(policy, Tick(policy, t));
    assert Ticks(policy, s, 4) == Ticks(policy, t, 3) == Ticks(policy, Tick(policy, t), 2);
  }

  /** After four ticks the low process is back at its own priority while the high one waits for what it holds. */
  lemma ReleaseForgets(s: Sched, e: Sched)
    requires s == Nested() && e == NestedFour()
    ensures Loaded(s) && Ticks(Pip, s, 4) == e
    ensures e.res[0].owner == Some(0) && 1 in e.res[0].waitq && P(e, 0).prio < P(e, 1).prio && !Inherits(e, 0)
  {
    NestedLoaded(s);
    NestedWaits(e);
    hide Tick, Loaded, Inherits, NestedFour, NestedThree, NestedTwo, NestedOne, Nested, Ticks;
    NestedFirst(s);
    NestedSecond(NestedOne());
    NestedThird(NestedTwo());
    NestedFourth(NestedThree());
    FourTicks(Pip, s);
  }

  // ---------------------------------------------------------------- nested claims under PCP

  const LONG := Claim(0, 0, 3, 3)
  const SHORT := Claim(1, 0, 1, 1)

  /** A low process takes resources 0 and 1 at once and gives 1 back first; a high one wants resource 0. */
  function Bracket(): Sched {
    Two(Script(4, 1, 0, [LONG, SHORT]), Script(2, 10, 1, [URGENT]), [0, 1], [], None, FREE, FREE, 0)
  }

  function Inner(age: nat, prio: nat, holding: seq<Claim>): Proc {
    Script(4, 1, 0, []).(age := age, prio := prio, status := Running, holding := holding)
  }

  function BracketOne(): Sched {
    Two(Inner(1, 1, [LONG.(left := 2)]), Script(2, 10, 1, [URGENT]), [1], [], Some(0), Resource(Some(0), []), FREE, 1)
  }

  function BracketTwo(): Sched {
    Two(Inner(1, 1, [LONG.(left := 2)]).(status := Ready), Script(2, 10, 1, [URGENT]).(status := Blocked),
        [], [0], Some(1), Resource(Some(0), [1]), FREE, 2)
  }

  lemma BracketStarts(s: Sched, f: Sched, d: Sched)
    requires s == Bracket() && f == s.(forkq := [1], ready := [0])
    requires d == Two(s.procs[0].(status := Running), s.procs[1], [1], [], Some(0), FREE, FREE, 0)
    ensures ForkFrom(s, 0) == f
    ensures var x := Schedule(Pcp, f);
      x.next == Some(0) && d == SetStatus(Retire(x.s, None).(current := x.next), 0, Running)
  {
    assert Without([0, 1], 0) == [1] && Without([0], 0) == [];
    assert ForkFrom(f, 0) == f;
    assert Prios(f, [0]) == [1];
  }

  /** Process 0 takes the free resource that is due at the head of its pending claims. */
  lemma TakesHead(d: Sched, p: Proc, q: Proc, r0: Resource, r1: Resource, c: Claim, rest: seq<Claim>)
    requires d == Two(p, q, [1], [], Some(0), r0, r1, 0) && p.pending == [c] + rest && c.at == p.age && c.res < 2
    requires (if c.res == 0 then r0 else r1) == FREE
    ensures var p' := p.(pending := rest, holding := p.holding + [c], prio := MAX_PRIO);
      var owned := Resource(Some(0), []);
      var s0, s1 := if c.res == 0 then owned else r0, if c.res == 1 then owned else r1;
      AcquireFrom(Pcp, d, 0, 0) == AcquireFrom(Pcp, Two(p', q, [1], [], Some(0), s0, s1, 0), 0, 0)
  {
    var owned := Resource(Some(0), []);
    var s0, s1 := if c.res == 0 then owned else r0, if c.res == 1 then owned else r1;
    SetZero(p, q, [1], [], Some(0), r0, r1, 0, owned);
    SetProcs(p, q, [1], [], Some(0), s0, s1, 0, p.(prio := MAX_PRIO));
    var p' := p.(pending := rest, holding := p.holding + [c], prio := MAX_PRIO);
    SetProcs(p.(prio := MAX_PRIO), q, [1], [], Some(0), s0, s1, 0, p');
    assert Without(p.pending, 0) == rest;
    assert MoveClaim(Acquire(Pcp, d, 0, c.res).0, 0, 0) == Two(p', q, [1], [], Some(0), s0, s1, 0);
  }

  lemma BracketTakes(d: Sched, a: Sched)
    requires d == Two(Bracket().procs[0].(status := Running), Bracket().procs[1], [1], [], Some(0), FREE, FREE, 0)
    requires a == Two(Inner(0, MAX_PRIO, [LONG, SHORT]), Bracket().procs[1], [1], [], Some(0),
                      Resource(Some(0), []), Resource(Some(0), []), 0)
    ensures AcquireFrom(Pcp, d, 0, 0) == (a, true)
  {
    hide AcquireFrom;
    var p, q := Bracket().procs[0].(status := Running), Bracket().procs[1];
    assert [LONG, SHORT] == [LONG] + [SHORT] && [] + [LONG] == [LONG];
    TakesHead(d, p, q, FREE, FREE, LONG, [SHORT]);
    var p1 := p.(pending := [SHORT], holding := [LONG], prio := MAX_PRIO);
    var d1 := Two(p1, q, [1], [], Some(0), Resource(Some(0), []), FREE, 0);
    assert [SHORT] == [SHORT] + [] && [LONG] + [SHORT] == [LONG, SHORT];
    TakesHead(d1, p1, q, Resource(Some(0), []), FREE, SHORT, []);
    NoneDue(Pcp, a, 0, 0);
  }

  lemma BracketGivesBack(b: Sched)
    requires b == Two(Inner(1, MAX_PRIO, [LONG, SHORT]), Bracket().procs[1], [1], [], Some(0),
                      Resource(Some(0), []), Resource(Some(0), []), 0)
    ensures ReleaseFrom(Pcp, b, 0, 0).(ticks := 1) == BracketOne()
  {
    var o, q, r := LONG.(left := 2), Bracket().procs[1], Resource(Some(0), []);
    assert [LONG, SHORT][0 := o] == [o, SHORT] && Without([o, SHORT], 1) == [o];
    var b1 := Two(Inner(1, MAX_PRIO, [o, SHORT]), q, [1], [], Some(0), r, r, 0);
    SetProcs(P(b, 0), q, [1], [], Some(0), r, r, 0, P(b1, 0));
    var b2 := Two(Inner(1, 1, [o, SHORT]), q, [1], [], Some(0), r, FREE, 0);
    assert Release(Pcp, b1, 0, 1) == b2 by {
      SetProcs(P(b1, 0), q, [1], [], Some(0), r, r, 0, P(b2, 0));
      SetZero(P(b2, 0), q, [1], [], Some(0), r, r, 0, FREE);
    }
    var b3 := Two(Inner(1, 1, [o]), q, [1], [], Some(0), r, FREE, 0);
    SetProcs(P(b2, 0), q, [1], [], Some(0), r, FREE, 0, P(b3, 0));
    assert ReleaseFrom(Pcp, b3, 0, 1) == b3;
    assert ReleaseFrom(Pcp, b1, 0, 1) == b3;
    assert ReleaseFrom(Pcp, b, 0, 0) == b3;
  }

  lemma BracketFirst(s: Sched)
    requires s == Bracket()
    ensures Tick(Pcp, s) == BracketOne()
  {
    hide ForkFrom, Schedule, AcquireFrom, ReleaseFrom, Tick;
    var q, r := s.procs[1], Resource(Some(0), []);
    var f := s.(forkq := [1], ready := [0]);
    var d := Two(s.procs[0].(status := Running), q, [1], [], Some(0), FREE, FREE, 0);
    BracketStarts(s, f, d);
    var a := Two(Inner(0, MAX_PRIO, [LONG, SHORT]), q, [1], [], Some(0), r, r, 0);
    BracketTakes(d, a);
    var b := Two(Inner(1, MAX_PRIO, [LONG, SHORT]), q, [1], [], Some(0), r, r, 0);
    SetProcs(P(a, 0), q, [1], [], Some(0), r, r, 0, P(b, 0));
    BracketGivesBack(b);
    OneTick(Pcp, s, f, d, 0, a, true, ReleaseFrom(Pcp, b, 0, 0));
  }

  lemma BracketForks(s: Sched, f: Sched)
    requires s == BracketOne() && f == s.(forkq := [], ready := [1])
    ensures ForkFrom(s, 0) == f
  {
    assert Without([1], 0) == [];
    assert ForkFrom(f, 0) == f;
  }

  lemma BracketPreempts(f: Sched, d: Sched, p: Proc, q: Proc)
    requires f == BracketOne().(forkq := [], ready := [1]) && p == f.procs[0] && q == f.procs[1]
    requires d == Two(p.(status := Ready), q.(status := Running), [], [0], Some(1), Resource(Some(0), []), FREE, 1)
    ensures var x := Schedule(Pcp, f);
      x.next == Some(1) && d == SetStatus(Retire(x.s, Some(0)).(current := x.next), 1, Running)
  {
    hide Retire, SetStatus;
    assert Prios(f, [1]) == [10] && [1] + [0] == [1, 0] && Without([1, 0], 0) == [0];
    Switches(f.(ready := [0]), d, p, q, [0], Resource(Some(0), []), FREE, 1);
  }

  lemma BracketSecond(s: Sched)
    requires s == BracketOne()
    ensures Tick(Pcp, s) == BracketTwo()
  {
    hide ForkFrom, Schedule, AcquireFrom, ReleaseFrom, Tick;
    var p, q, r := s.procs[0].(status := Ready), s.procs[1].(status := Running), Resource(Some(0), []);
    var f, d := s.(forkq := [], ready := [1]), Two(p, q, [], [0], Some(1), r, FREE, 1);
    BracketForks(s, f);
    BracketPreempts(f, d, s.procs[0], s.procs[1]);
    BlocksOnZero(Pcp, d, p, q, [0], FREE, 1, URGENT);
    var a := Two(p, q.(status := Blocked), [], [0], Some(1), Resource(Some(0), [1]), FREE, 1);
    OneTick(Pcp, s, f, d, 1, a, false, a);
  }

  lemma BracketLoaded(s: Sched)
    requires s == Bracket()
    ensures Loaded(s) && forall i :: 0 <= i < |s.procs| ==> P(s, i).prioOrig < MAX_PRIO
  {
    assert s.forkq == seq(|s.procs|, i => i);
    assert s.res == FreeResources();
  }

  /** After two ticks under the ceiling policy the more important process waits for what the other one,
      back at its own priority, still holds. */
  lemma CeilingForgets(s: Sched, e: Sched)
    requires s == Bracket() && e == BracketTwo()
    ensures Loaded(s) && forall i :: 0 <= i < |s.procs| ==> P(s, i).prioOrig < MAX_PRIO
    ensures Ticks(Pcp, s, 2) == e && !Ceiling(e)
    ensures e.res[0].owner == Some(0) && 1 in e.res[0].waitq && P(e, 0).prio < P(e, 1).prio
  {
    hide Tick, Ticks, Loaded;
    BracketLoaded(s);
    BracketFirst(s);
    BracketSecond(BracketOne());
    TwoTicks(Pcp, s);
    assert e.res[0] == Resource(Some(0), [1]) && [1][0] == 1;
  }

  // ---------------------------------------------------------------- aging

  /** Two processes at MAX_PRIO that start together. */
  function Twins(): Sched {
    Two(Script(2, MAX_PRIO, 0, []), Script(2, MAX_PRIO, 0, []), [0, 1], [], None, FREE, FREE, 0)
  }

  lemma TwinsPassCap(s: Sched)
    requires s == Twins()
    ensures Loaded(s)
    ensures var e := Tick(Pa, s); P(e, 0).prio == MAX_PRIO + 1 || P(e, 1).prio == MAX_PRIO + 1
  {
    hide Tick;
    assert s.forkq == seq(|s.procs|, i => i);
    assert s.res == FreeResources();
    AgingPassesCap(s, 0, 1);
  }
}
