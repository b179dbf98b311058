/** Whole runs: the loop terminates under every policy that suits, and when each process uses one
    resource at a time it ends with every process having lived its lifespan. */
module SchedRuns {
  import opened Common
  import opened SchedModel
  import opened SchedInvariant
  import opened SchedStep
  import opened SchedPreemptive

  // ---------------------------------------------------------------- what an iteration leaves alone

  predicate SameClock(p: Proc, p': Proc) {
    p'.age == p.age && p'.lifespan == p.lifespan && p'.startsAt == p.startsAt && p'.prioOrig == p.prioOrig
  }

  /** Everything but priorities, statuses and claims is as before; so is who is blocked, except for `about`. */
  ghost predicate SameLives(s: Sched, s': Sched, about: Option<nat>) {
    && |s'.procs| == |s.procs| && s'.ticks == s.ticks
    && (forall i: nat :: SameClock(P(s, i), P(s', i)))
    && (forall i: nat :: about != Some(i) && P(s, i).status != Blocked ==> P(s', i).status != Blocked)
    && (forall i: nat :: about != Some(i) && P(s, i).status == Blocked ==> P(s', i).status == Blocked)
  }

  lemma {:induction false} ForkLives(s: Sched, k: nat)
    requires Core(s) && Wakes(s, None)
    ensures SameLives(s, ForkFrom(s, k), None)
  {
    ForkKeeps(s, k);
  }

  /** The chosen process is not blocked, and a blocked current process has not finished. */
  lemma ChoiceStatus(f: Sched, c: Choice, k: nat)
    requires Core(f) && Chose(f, c, k)
    ensures |c.s.procs| == |f.procs| && c.s == f.(procs := c.s.procs, ready := c.s.ready)
    ensures forall i: nat :: P(c.s, i) == P(f, i).(prio := P(c.s, i).prio)
    ensures f.current.Some? && P(f, f.current.value).status == Blocked ==> Alive(P(f, f.current.value))
    ensures c.next.Some? ==> P(f, c.next.value).status != Blocked
  {
    hide Owners;
    forall i: nat
      ensures P(c.s, i) == P(f, i).(prio := P(c.s, i).prio)
    {
      assert P(c.s.(ready := f.ready), i) == P(c.s, i);
    }
    if f.current.Some? {
      assert Sane(P(f, f.current.value));
    }
    if c.next.Some? && c.next != f.current {
      assert c.next.value in f.ready;
    }
  }

  lemma RetireStatus(s: Sched, prev: Option<nat>)
    requires prev.Some? && P(s, prev.value).status == Blocked ==> P(s, prev.value).age != P(s, prev.value).lifespan
    ensures var r := Retire(s, prev);
      && r == s.(procs := r.procs) && |r.procs| == |s.procs|
      && (forall i: nat :: P(r, i) == P(s, i).(status := P(r, i).status))
      && (forall i: nat :: P(r, i).status == Blocked <==> P(s, i).status == Blocked)
  {
  }

  lemma RetireLives(f: Sched, c: Choice, k: nat)
    requires Core(f) && Chose(f, c, k)
    ensures var r := Retire(c.s, f.current).(current := c.next);
      var d := if c.next.None? then r else SetStatus(r, c.next.value, Running);
      && SameLives(f, d, None) && d.res == f.res && d.forkq == f.forkq
      && forall i: nat :: P(d, i).pending == P(f, i).pending && P(d, i).holding == P(f, i).holding
  {
    hide Core, Chose;
    ChoiceStatus(f, c, k);
    RetireStatus(c.s, f.current);
    var r := Retire(c.s, f.current).(current := c.next);
    assert forall i: nat :: P(r, i) == P(Retire(c.s, f.current), i);
  }

  lemma DispatchLives(policy: Policy, s: Sched)
    requires Inv(s) && Suits(policy, ForkFrom(s, 0))
    ensures SameLives(s, Dispatch(policy, s), None)
    ensures var d := Dispatch(policy, s);
      forall i: nat :: P(d, i).pending == P(s, i).pending && P(d, i).holding == P(s, i).holding
    ensures var d := Dispatch(policy, s); d.res == s.res && d.forkq == ForkFrom(s, 0).forkq
  {
    hide Schedule, ForkFrom, Core, Wakes, Suits;
    ForkKeeps(s, 0);
    var f := ForkFrom(s, 0);
    var k := SuitingChoice(policy, f);
    RetireLives(f, Schedule(policy, f), k);
  }

  /** Retiring changes statuses only. */
  lemma RetirePrio(s: Sched, prev: Option<nat>)
    ensures var r := Retire(s, prev);
      r == s.(procs := r.procs) && |r.procs| == |s.procs|
        && forall i: nat :: P(r, i) == P(s, i).(status := P(r, i).status)
  {
  }

  // ---------------------------------------------------------------- the measure

  /** Ticks of life the processes still have ahead. */
  function LifeLeft(procs: seq<Proc>): nat {
    if procs == [] then 0
    else
      var p := procs[|procs| - 1];
      LifeLeft(procs[..|procs| - 1]) + (if Alive(p) then p.lifespan - p.age else 0)
  }

  function Unblocked(procs: seq<Proc>): nat {
    if procs == [] then 0
    else Unblocked(procs[..|procs| - 1]) + (if procs[|procs| - 1].status == Blocked then 0 else 1)
  }

  /** Ticks until the last process on `q` is forked. */
  function ForkWait(s: Sched, q: seq<nat>): nat {
    if q == [] then 0
    else
      var before := ForkWait(s, q[..|q| - 1]);
      var at := P(s, q[|q| - 1]).startsAt;
      if at > s.ticks && at - s.ticks > before then at - s.ticks else before
  }

  lemma {:induction false} LifeSame(a: seq<Proc>, b: seq<Proc>)
    requires |a| == |b| && forall i :: 0 <= i < |a| ==> SameClock(a[i], b[i])
    ensures LifeLeft(a) == LifeLeft(b)
  {
    if a != [] {
      LifeSame(a[..|a| - 1], b[..|b| - 1]);
      assert SameClock(a[|a| - 1], b[|b| - 1]);
    }
  }

  lemma {:induction false} LifeAges(a: seq<Proc>, b: seq<Proc>, c: nat)
    requires |a| == |b| && c < |a| && Alive(a[c]) && b[c].age == a[c].age + 1 && b[c].lifespan == a[c].lifespan
    requires forall i :: 0 <= i < |a| && i != c ==> SameClock(a[i], b[i])
    ensures LifeLeft(b) == LifeLeft(a) - 1
  {
    var n := |a| - 1;
    if c == n {
      LifeSame(a[..n], b[..n]);
    } else {
      assert SameClock(a[n], b[n]);
      LifeAges(a[..n], b[..n], c);
    }
  }

  lemma {:induction false} UnblockedSame(a: seq<Proc>, b: seq<Proc>)
    requires |a| == |b| && forall i :: 0 <= i < |a| ==> (a[i].status == Blocked <==> b[i].status == Blocked)
    ensures Unblocked(a) == Unblocked(b)
  {
    if a != [] {
      UnblockedSame(a[..|a| - 1], b[..|b| - 1]);
    }
  }

  lemma {:induction false} UnblockedDrops(a: seq<Proc>, b: seq<Proc>, c: nat)
    requires |a| == |b| && c < |a| && a[c].status != Blocked && b[c].status == Blocked
    requires forall i :: 0 <= i < |a| && i != c ==> (a[i].status == Blocked <==> b[i].status == Blocked)
    ensures Unblocked(b) == Unblocked(a) - 1
  {
    var n := |a| - 1;
    if c == n {
      UnblockedSame(a[..n], b[..n]);
    } else {
      UnblockedDrops(a[..n], b[..n], c);
    }
  }

  lemma {:induction false} ForkWaitMonotone(s: Sched, s': Sched, q: seq<nat>)
    requires s'.ticks >= s.ticks && forall i: nat :: P(s', i).startsAt == P(s, i).startsAt
    ensures ForkWait(s', q) <= ForkWait(s, q)
    ensures s'.ticks > s.ticks && ForkWait(s, q) > 0 ==> ForkWait(s', q) < ForkWait(s, q)
  {
    if q != [] {
      ForkWaitMonotone(s, s', q[..|q| - 1]);
    }
  }

  lemma {:induction false} ForkWaitAtLeast(s: Sched, q: seq<nat>, k: nat)
    requires k < |q|
    ensures ForkWait(s, q) >= P(s, q[k]).startsAt - s.ticks
  {
    if k < |q| - 1 {
      assert q[..|q| - 1][k] == q[k];
      ForkWaitAtLeast(s, q[..|q| - 1], k);
    }
  }

  lemma {:induction false} ForkWaitSubset(s: Sched, q: seq<nat>, q': seq<nat>)
    requires forall i :: i in q' ==> i in q
    ensures ForkWait(s, q') <= ForkWait(s, q)
  {
    if q' != [] {
      var n := |q'| - 1;
      ForkWaitSubset(s, q, q'[..n]);
      assert q'[n] in q;
      var k :| 0 <= k < |q| && q[k] == q'[n];
      ForkWaitAtLeast(s, q, k);
    }
  }

  /** Whoever stays on the fork queue starts later. */
  lemma {:induction false} ForkLeaves(s: Sched, k: nat)
    requires Core(s) && Wakes(s, None)
    requires forall j :: 0 <= j < k && j < |s.forkq| ==> P(s, s.forkq[j]).startsAt > s.ticks
    ensures forall j :: 0 <= j < |ForkFrom(s, k).forkq| ==> P(s, ForkFrom(s, k).forkq[j]).startsAt > s.ticks
    ensures forall i :: i in ForkFrom(s, k).forkq ==> i in s.forkq
    decreases |s.forkq| - k
  {
    if k < |s.forkq| {
      var p := s.forkq[k];
      if P(s, p).startsAt <= s.ticks {
        ForkOne(s, k);
        var s1 := SetStatus(s, p, Ready).(forkq := Without(s.forkq, k), ready := s.ready + [p]);
        WithoutMembers(s.forkq, k);
        assert forall i :: P(s1, i) == P(s, i);
        ForkLeaves(s1, k);
      } else {
        ForkLeaves(s, k + 1);
      }
    }
  }

  // ---------------------------------------------------------------- acquire and release, for others

  lemma {:induction false} AcquireLives(policy: Policy, s: Sched, c: nat, k: nat)
    requires c < |s.procs|
    ensures SameLives(s, AcquireFrom(policy, s, c, k).0, Some(c))
    decreases |P(s, c).pending| - k
  {
    var p := P(s, c);
    if k < |p.pending| {
      if p.pending[k].at != p.age {
        AcquireLives(policy, s, c, k + 1);
      } else if s.res[p.pending[k].res].owner.None? {
        OwnFacts(policy, s, c, k);
        AcquireLives(policy, Own(policy, s, c, k), c, k);
      }
    }
  }

  lemma {:induction false} ReleaseClock(policy: Policy, s: Sched, c: nat, k: nat)
    requires Releasing(s, c, k) && k <= |P(s, c).holding|
    ensures var s' := ReleaseFrom(policy, s, c, k);
      |s'.procs| == |s.procs| && s'.ticks == s.ticks && forall i: nat :: SameClock(P(s, i), P(s', i))
    decreases |P(s, c).holding| - k
  {
    hide ReleaseFrom, GiveBack, Queues, Owners, Wakes;
    ReleaseUnfolds(policy, s, c, k);
    var p := P(s, c);
    if k < |p.holding| {
      if p.holding[k].left > 1 {
        CountKeeps(s, c, k);
        var h := p.holding[k].(left := p.holding[k].left - 1);
        ReleaseClock(policy, SetP(s, c, p.(holding := p.holding[k := h])), c, k + 1);
      } else {
        GiveBackFacts(policy, s, c, k);
        GiveBackKeeps(policy, s, c, k);
        ReleaseClock(policy, GiveBack(policy, s, c, k), c, k);
      }
    }
  }

  /** A process that runs either ages by one tick or gets blocked; the others keep their age. */
  lemma RunLives(policy: Policy, s: Sched, c: nat)
    requires Core(s) && Wakes(s, Some(c)) && RunsAs(s, c) && Alive(P(s, c))
    ensures var s' := RunCurrent(policy, s, c);
      && |s'.procs| == |s.procs|
      && (forall i: nat :: i != c ==> SameClock(P(s, i), P(s', i)))
      && P(s', c).lifespan == P(s, c).lifespan && P(s', c).startsAt == P(s, c).startsAt
        && P(s', c).prioOrig == P(s, c).prioOrig
      && if AcquireFrom(policy, s, c, 0).1 then P(s', c).age == P(s, c).age + 1 && P(s', c).status == Running
         else P(s', c).age == P(s, c).age && P(s', c).status == Blocked && SameLives(s, s', Some(c))
  {
    hide AcquireFrom, ReleaseFrom, Core, Wakes, Releasing;
    AcquireKeeps(policy, s, c, 0);
    AcquireLives(policy, s, c, 0);
    var (s1, ok) := AcquireFrom(policy, s, c, 0);
    if ok {
      AgeKeeps(s1, c);
      var s2 := SetP(s1, c, P(s1, c).(age := P(s1, c).age + 1));
      assert forall i: nat :: i != c ==> P(s2, i) == P(s1, i);
      ReleaseKeeps(policy, s2, c, 0);
      ReleaseClock(policy, s2, c, 0);
      var s' := RunCurrent(policy, s, c);
      assert forall i: nat :: SameClock(P(s, i), P(s1, i)) && SameClock(P(s2, i), P(s', i));
    }
  }

  // ---------------------------------------------------------------- termination

  lemma DispatchMeasure(s: Sched, d: Sched)
    requires SameLives(s, d, None)
    ensures LifeLeft(d.procs) == LifeLeft(s.procs) && Unblocked(d.procs) == Unblocked(s.procs)
  {
    forall i | 0 <= i < |s.procs|
      ensures SameClock(s.procs[i], d.procs[i]) && (s.procs[i].status == Blocked <==> d.procs[i].status == Blocked)
    {
      assert s.procs[i] == P(s, i) && d.procs[i] == P(d, i);
    }
    LifeSame(s.procs, d.procs);
    UnblockedSame(s.procs, d.procs);
  }

  lemma RunMeasure(d: Sched, s': Sched, c: nat)
    requires |s'.procs| == |d.procs| && c < |d.procs| && Alive(P(d, c)) && P(d, c).status == Running
    requires forall i: nat :: i != c ==> SameClock(P(d, i), P(s', i))
    requires P(s', c).lifespan == P(d, c).lifespan && P(s', c).startsAt == P(d, c).startsAt
      && P(s', c).prioOrig == P(d, c).prioOrig
    requires P(s', c).age == P(d, c).age + 1
             || (P(s', c).age == P(d, c).age && P(s', c).status == Blocked && SameLives(d, s', Some(c)))
    ensures LifeLeft(s'.procs) < LifeLeft(d.procs)
            || (LifeLeft(s'.procs) == LifeLeft(d.procs) && Unblocked(s'.procs) < Unblocked(d.procs))
  {
    forall i | 0 <= i < |d.procs|
      ensures d.procs[i] == P(d, i) && s'.procs[i] == P(s', i)
    {
    }
    if P(s', c).age == P(d, c).age + 1 {
      LifeAges(d.procs, s'.procs, c);
    } else {
      LifeSame(d.procs, s'.procs);
      UnblockedDrops(d.procs, s'.procs, c);
    }
  }

  lemma IdleMeasure(policy: Policy, s: Sched, d: Sched)
    requires Inv(s) && d == Dispatch(policy, s) && d.current == None && !Halts(d) && d.ready == []
    requires SameLives(s, d, None) && d.forkq == ForkFrom(s, 0).forkq
    ensures ForkWait(d.(ticks := d.ticks + 1), d.forkq) < ForkWait(s, s.forkq)
  {
    hide Dispatch;
    ForkLeaves(s, 0);
    var q := d.forkq;
    assert q != [];
    ForkWaitSubset(s, s.forkq, q);
    ForkWaitAtLeast(s, q, 0);
    var d' := d.(ticks := d.ticks + 1);
    assert forall i: nat :: SameClock(P(s, i), P(d, i)) && P(d', i) == P(d, i);
    ForkWaitMonotone(s, d', q);
  }

  /** One iteration that does not end the loop brings the end nearer: a process lives one more tick;
      or none does and one gets blocked; or the processor idles and the next fork comes closer. */
  lemma TickDecreases(policy: Policy, s: Sched)
    requires Inv(s) && Suits(policy, ForkFrom(s, 0)) && !Halts(Dispatch(policy, s))
    ensures var s' := Tick(policy, s);
      || LifeLeft(s'.procs) < LifeLeft(s.procs)
      || (LifeLeft(s'.procs) == LifeLeft(s.procs) && Unblocked(s'.procs) < Unblocked(s.procs))
      || (LifeLeft(s'.procs) == LifeLeft(s.procs) && Unblocked(s'.procs) == Unblocked(s.procs)
          && ForkWait(s', s'.forkq) < ForkWait(s, s.forkq))
  {
    hide Dispatch, RunCurrent, Core, Wakes, Suits, ForkFrom;
    SuitingKeeps(policy, s);
    DispatchLives(policy, s);
    var d := Dispatch(policy, s);
    DispatchedRuns(d);
    DispatchMeasure(s, d);
    if d.current.Some? {
      var c := d.current.value;
      RunLives(policy, d, c);
      RunMeasure(d, RunCurrent(policy, d, c), c);
    } else {
      IdleMeasure(policy, s, d);
    }
  }

  // ---------------------------------------------------------------- rules for scripts

  predicate Apart(c: Claim, d: Claim) { c.at + c.span <= d.at || d.at + d.span <= c.at }

  /** Rules on the claims of a script: none of one process overlap; or those that do are for different
      resources and end together; or they are taken in ascending order; or each resource has one user,
      who never claims it twice at a time. */
  datatype Rule = OneByOne | Bundles | Ascending | Private(users: seq<nat>)

  /** What a rule says of two claims of one process, `c` being the one taken first. */
  predicate InOrder(rule: Rule, c: Claim, d: Claim) {
    || Apart(c, d)
    || match rule
       case OneByOne => false
       case Bundles => c.res != d.res && c.at + c.span == d.at + d.span
       case Ascending => c.res < d.res
       case Private(_) => c.res != d.res
  }

  /** What a rule says of a claim of process `i`. */
  predicate Allowed(rule: Rule, i: nat, c: Claim) {
    rule.Private? ==> c.res < |rule.users| && rule.users[c.res] == i
  }

  /** Claims are taken in the order of their ages, those of one age as they stand in the list. */
  predicate TakenFirst(q: seq<Claim>, j: nat, k: nat)
    requires j < |q| && k < |q|
  {
    q[j].at < q[k].at || (q[j].at == q[k].at && j < k)
  }

  /** What is left of the claims of process `i` obeys the rule. */
  ghost predicate Obeys(rule: Rule, i: nat, p: Proc) {
    && (forall j :: 0 <= j < |p.pending| ==> Allowed(rule, i, p.pending[j]))
    && (forall j :: 0 <= j < |p.holding| ==> Allowed(rule, i, p.holding[j]))
    && (forall j, k :: 0 <= j < |p.pending| && 0 <= k < |p.pending| && TakenFirst(p.pending, j, k) ==>
          InOrder(rule, p.pending[j], p.pending[k]))
    && (forall j, k :: 0 <= j < |p.holding| && 0 <= k < |p.pending| ==> InOrder(rule, p.holding[j], p.pending[k]))
    && (forall j, k :: 0 <= j < k < |p.holding| ==> InOrder(rule, p.holding[j], p.holding[k]))
    && (rule.OneByOne? ==> |p.holding| <= 1)
  }

  ghost predicate Obey(rule: Rule, s: Sched) { forall i :: 0 <= i < |s.procs| ==> Obeys(rule, i, P(s, i)) }

  /** No two of the process's claims overlap. */
  ghost predicate OneAtATime(p: Proc) { Obeys(OneByOne, 0, p) }

  /** A held claim covers the present age. */
  lemma HeldNow(p: Proc)
    requires Sane(p) && p.holding != []
    ensures p.holding[0].at <= p.age < p.holding[0].at + p.holding[0].span
  {
  }

  /** A process that is due a claim holds nothing. */
  lemma DueHoldsNothing(p: Proc, k: nat)
    requires Sane(p) && OneAtATime(p) && k < |p.pending| && p.pending[k].at == p.age
    ensures p.holding == []
  {
    assert p.holding != [] ==> InOrder(OneByOne, p.holding[0], p.pending[k]);
    if p.holding != [] {
      HeldNow(p);
    }
  }

  /** Scripts without overlaps obey the other rules about overlaps. */
  lemma SinglesObey(s: Sched)
    requires Obey(OneByOne, s)
    ensures Obey(Bundles, s) && Obey(Ascending, s)
  {
    forall i | 0 <= i < |s.procs|
      ensures Obeys(Bundles, i, P(s, i)) && Obeys(Ascending, i, P(s, i))
    {
      var p := P(s, i);
      assert Obeys(OneByOne, i, p);
      assert forall c, d :: InOrder(OneByOne, c, d) ==> InOrder(Bundles, c, d) && InOrder(Ascending, c, d);
    }
  }

  /** Obeying depends on the claim lists only, and not on how much of a claim is left. */
  lemma SameClaimsObey(rule: Rule, s: Sched, s': Sched)
    requires Obey(rule, s) && |s'.procs| == |s.procs|
    requires forall i :: 0 <= i < |s.procs| ==>
      P(s', i).pending == P(s, i).pending && P(s', i).holding == P(s, i).holding
    ensures Obey(rule, s')
  {
    forall i | 0 <= i < |s.procs|
      ensures Obeys(rule, i, P(s', i))
    {
      assert Obeys(rule, i, P(s, i));
    }
  }

  lemma DispatchObeys(rule: Rule, policy: Policy, s: Sched)
    requires Inv(s) && Suits(policy, ForkFrom(s, 0)) && Obey(rule, s)
    ensures Obey(rule, Dispatch(policy, s))
  {
    hide Dispatch, Suits, ForkFrom, Obey;
    DispatchLives(policy, s);
    SameClaimsObey(rule, s, Dispatch(policy, s));
  }

  /** A claim taken goes from the pending list to the end of the holding list. */
  lemma TakeObeys(rule: Rule, i: nat, p: Proc, p': Proc, k: nat)
    requires Obeys(rule, i, p) && Sane(p) && NoneDueBefore(p, k) && k < |p.pending| && p.pending[k].at == p.age
    requires p'.pending == Without(p.pending, k) && p'.holding == p.holding + [p.pending[k]]
    ensures Obeys(rule, i, p')
  {
    var q, q', c := p.pending, p'.pending, p.pending[k];
    if rule.OneByOne? {
      assert OneAtATime(p);
      DueHoldsNothing(p, k);
    }
    forall j | 0 <= j < |q'|
      ensures Allowed(rule, i, q'[j]) && InOrder(rule, c, q'[j])
      ensures forall m :: 0 <= m < |p.holding| ==> InOrder(rule, p.holding[m], q'[j])
    {
      var x := if j < k then j else j + 1;
      assert q'[j] == q[x] && TakenFirst(q, k, x);
    }
    forall j, m | 0 <= j < |q'| && 0 <= m < |q'| && TakenFirst(q', j, m)
      ensures InOrder(rule, q'[j], q'[m])
    {
      assert TakenFirst(q, if j < k then j else j + 1, if m < k then m else m + 1);
    }
  }

  lemma OwnObeys(rule: Rule, policy: Policy, s: Sched, c: nat, k: nat)
    requires Core(s) && Obey(rule, s) && RunsAs(s, c) && NoneDueBefore(P(s, c), k)
    requires k < |P(s, c).pending| && P(s, c).pending[k].at == P(s, c).age
    requires s.res[P(s, c).pending[k].res].owner == None
    ensures Obey(rule, Own(policy, s, c, k))
  {
    hide Own, Obeys;
    OwnFacts(policy, s, c, k);
    var s' := Own(policy, s, c, k);
    TakeObeys(rule, c, P(s, c), P(s', c), k);
    forall i | 0 <= i < |s'.procs|
      ensures Obeys(rule, i, P(s', i))
    {
      assert Obeys(rule, i, P(s, i));
    }
  }

  lemma BlockObeys(rule: Rule, policy: Policy, s: Sched, c: nat, r: ResId)
    requires Obey(rule, s) && c < |s.procs| && s.res[r].owner.Some?
    ensures Obey(rule, Acquire(policy, s, c, r).0)
  {
    var s' := Acquire(policy, s, c, r).0;
    assert forall i :: P(s', i).pending == P(s, i).pending && P(s', i).holding == P(s, i).holding;
    hide Acquire, Obey;
    SameClaimsObey(rule, s, s');
  }

  lemma {:induction false} AcquireObeys(rule: Rule, policy: Policy, s: Sched, c: nat, k: nat)
    requires Core(s) && Wakes(s, Some(c)) && RunsAs(s, c) && Alive(P(s, c)) && NoneDueBefore(P(s, c), k)
    requires Obey(rule, s)
    ensures Obey(rule, AcquireFrom(policy, s, c, k).0)
    decreases |P(s, c).pending| - k
  {
    hide Obey;
    var p := P(s, c);
    if k < |p.pending| {
      if p.pending[k].at != p.age {
        AcquireObeys(rule, policy, s, c, k + 1);
      } else if s.res[p.pending[k].res].owner.None? {
        OwnKeeps(policy, s, c, k);
        OwnObeys(rule, policy, s, c, k);
        OwnFacts(policy, s, c, k);
        AcquireObeys(rule, policy, Own(policy, s, c, k), c, k);
      } else {
        BlockObeys(rule, policy, s, c, p.pending[k].res);
      }
    }
  }

  lemma DropObeys(rule: Rule, i: nat, p: Proc, p': Proc, k: nat)
    requires Obeys(rule, i, p) && k < |p.holding|
    requires p'.pending == p.pending && p'.holding == Without(p.holding, k)
    ensures Obeys(rule, i, p')
  {
  }

  lemma ObeysSame(rule: Rule, i: nat, p: Proc, p': Proc)
    requires Obeys(rule, i, p) && p'.pending == p.pending
    ensures p'.holding == p.holding ==> Obeys(rule, i, p')
  {
  }

  lemma GiveBackObeys(rule: Rule, policy: Policy, s: Sched, c: nat, k: nat)
    requires Queues(s) && RunsAs(s, c) && k < |P(s, c).holding| && Obey(rule, s)
    ensures Obey(rule, GiveBack(policy, s, c, k))
  {
    hide GiveBack, Queues, Obeys;
    GiveBackFacts(policy, s, c, k);
    var s1 := GiveBack(policy, s, c, k);
    DropObeys(rule, c, P(s, c), P(s1, c), k);
    forall i | 0 <= i < |s1.procs|
      ensures Obeys(rule, i, P(s1, i))
    {
      assert Obeys(rule, i, P(s, i));
      assert i != c ==> P(s1, i).pending == P(s, i).pending && P(s1, i).holding == P(s, i).holding;
      ObeysSame(rule, i, P(s, i), P(s1, i));
    }
  }

  /** Counting a held claim down leaves what the rules speak of. */
  lemma CountObeys(rule: Rule, s: Sched, c: nat, k: nat)
    requires c < |s.procs| && k < |P(s, c).holding| && P(s, c).holding[k].left > 0 && Obey(rule, s)
    ensures var p := P(s, c);
      Obey(rule, SetP(s, c, p.(holding := p.holding[k := p.holding[k].(left := p.holding[k].left - 1)])))
  {
    var p := P(s, c);
    var s1 := SetP(s, c, p.(holding := p.holding[k := p.holding[k].(left := p.holding[k].left - 1)]));
    forall i | 0 <= i < |s.procs|
      ensures Obeys(rule, i, P(s1, i))
    {
      assert Obeys(rule, i, P(s, i));
    }
  }

  lemma {:induction false} ReleaseObeys(rule: Rule, policy: Policy, s: Sched, c: nat, k: nat)
    requires Releasing(s, c, k) && k <= |P(s, c).holding| && Obey(rule, s)
    ensures Obey(rule, ReleaseFrom(policy, s, c, k))
    decreases |P(s, c).holding| - k
  {
    hide ReleaseFrom, GiveBack, Queues, Owners, Wakes, Obey;
    ReleaseUnfolds(policy, s, c, k);
    var p := P(s, c);
    if k < |p.holding| {
      if p.holding[k].left > 1 {
        CountKeeps(s, c, k);
        CountObeys(rule, s, c, k);
        var h := p.holding[k].(left := p.holding[k].left - 1);
        ReleaseObeys(rule, policy, SetP(s, c, p.(holding := p.holding[k := h])), c, k + 1);
      } else {
        GiveBackFacts(policy, s, c, k);
        GiveBackKeeps(policy, s, c, k);
        GiveBackObeys(rule, policy, s, c, k);
        ReleaseObeys(rule, policy, GiveBack(policy, s, c, k), c, k);
      }
    }
  }

  lemma RunObeys(rule: Rule, policy: Policy, d: Sched, c: nat)
    requires Core(d) && Wakes(d, Some(c)) && RunsAs(d, c) && Alive(P(d, c)) && Obey(rule, d)
    ensures Obey(rule, RunCurrent(policy, d, c))
  {
    hide AcquireFrom, ReleaseFrom, Core, Wakes, Releasing, Obey;
    AcquireKeeps(policy, d, c, 0);
    AcquireObeys(rule, policy, d, c, 0);
    var (s1, ok) := AcquireFrom(policy, d, c, 0);
    if ok {
      AgeKeeps(s1, c);
      var s2 := SetP(s1, c, P(s1, c).(age := P(s1, c).age + 1));
      assert forall i :: P(s2, i).pending == P(s1, i).pending && P(s2, i).holding == P(s1, i).holding;
      SameClaimsObey(rule, s1, s2);
      ReleaseObeys(rule, policy, s2, c, 0);
    }
  }

  /** Every iteration keeps every rule. */
  lemma TickObeys(rule: Rule, policy: Policy, s: Sched)
    requires Inv(s) && Suits(policy, ForkFrom(s, 0)) && Obey(rule, s)
    ensures Obey(rule, Tick(policy, s))
  {
    hide Dispatch, AcquireFrom, ReleaseFrom, Core, Wakes, Releasing, Suits, ForkFrom, Obey;
    SuitingKeeps(policy, s);
    DispatchObeys(rule, policy, s);
    var d := Dispatch(policy, s);
    DispatchedRuns(d);
    var ran := if d.current.None? then d else RunCurrent(policy, d, d.current.value);
    if d.current.Some? {
      RunObeys(rule, policy, d, d.current.value);
    }
    if !Halts(d) {
      assert forall i :: P(Tick(policy, s), i) == P(ran, i);
      SameClaimsObey(rule, ran, Tick(policy, s));
    }
  }

  lemma {:induction false} RunsObey(rule: Rule, policy: Policy, s: Sched, n: nat)
    requires Inv(s) && SuitsAlong(policy, s) && Obey(rule, s)
    ensures Obey(rule, Ticks(policy, s, n))
    decreases n
  {
    hide Tick, Inv, Suits, SuitsAlong, ForkFrom, Obey;
    if n > 0 {
      SuitsNext(policy, s);
      SuitingKeeps(policy, s);
      TickObeys(rule, policy, s);
      RunsObey(rule, policy, Tick(policy, s), n - 1);
    }
  }

  // ---------------------------------------------------------------- the end of a run

  /** When the loop ends, whoever has not exited waits for a resource whose owner waits too. */
  lemma EndedWaits(s: Sched, i: nat)
    requires Inv(s) && Halts(s) && i < |s.procs| && P(s, i).status != Exited
    ensures P(s, i).status == Blocked && WaitsFor(P(s, i)).Some?
    ensures var r := WaitsFor(P(s, i)).value;
      s.res[r].owner.Some? && s.res[r].owner.value < |s.procs|
      && P(s, s.res[r].owner.value).holding != [] && P(s, s.res[r].owner.value).status == Blocked
  {
    assert Placed(s, i);
    var r := WaitsFor(P(s, i)).value;
    assert s.res[r].owner.None? ==> Awaited(s, None, r);
    var j := s.res[r].owner.value;
    assert Holds(s, j, r) && Placed(s, j) && Sane(P(s, j));
  }

  ghost predicate Stuck(s: Sched, i: nat) { i < |s.procs| && P(s, i).status != Exited }

  /** `i` waits for a resource that `j` owns. */
  ghost predicate WaitsForOwner(s: Sched, i: nat, j: nat) {
    && P(s, i).status == Blocked && WaitsFor(P(s, i)).Some?
    && s.res[WaitsFor(P(s, i)).value].owner == Some(j)
  }

  ghost predicate Linked(s: Sched, q: seq<nat>, k: nat)
    requires k + 1 < |q|
  {
    WaitsForOwner(s, q[k], q[k + 1])
  }

  /** From a stuck process, `n` steps from waiter to owner. */
  lemma {:induction false} WaitPath(s: Sched, i: nat, n: nat) returns (q: seq<nat>)
    requires Inv(s) && Halts(s) && Stuck(s, i)
    ensures |q| == n + 1 && q[0] == i && (forall k :: 0 <= k <= n ==> Stuck(s, q[k]))
    ensures forall k :: 0 <= k < n ==> Linked(s, q, k)
    decreases n
  {
    hide Inv;
    if n == 0 {
      q := [i];
    } else {
      EndedWaits(s, i);
      var rest := WaitPath(s, s.res[WaitsFor(P(s, i)).value].owner.value, n - 1);
      q := [i] + rest;
      forall k | 0 <= k < n
        ensures Linked(s, q, k)
      {
        assert k > 0 ==> Linked(s, rest, k - 1);
      }
    }
  }

  /** When the loop ends with somebody left, there is a deadlock: a cycle of blocked processes, each waiting
      for a resource the next one owns. */
  lemma EndedInCycle(s: Sched, i: nat) returns (cycle: seq<nat>)
    requires Inv(s) && Halts(s) && Stuck(s, i)
    ensures cycle != [] && forall k :: 0 <= k < |cycle| ==>
      WaitsForOwner(s, cycle[k], cycle[if k + 1 < |cycle| then k + 1 else 0])
  {
    hide Inv, WaitsForOwner;
    var q := WaitPath(s, i, |s.procs|);
    if NoDup(q) {
      Pigeonhole(q, |s.procs|);
    }
    var a, b :| 0 <= a < b < |q| && q[a] == q[b];
    cycle := q[a..b];
    forall k | 0 <= k < b - a
      ensures WaitsForOwner(s, cycle[k], cycle[if k + 1 < b - a then k + 1 else 0])
    {
      assert Linked(s, q, a + k);
    }
  }

  lemma {:induction false} DueExists(p: Proc, k: nat)
    requires DueFrom(p, k).Some?
    ensures exists j :: k <= j < |p.pending| && p.pending[j].at == p.age && DueFrom(p, k) == Some(p.pending[j].res)
    decreases |p.pending| - k
  {
    if k < |p.pending| && p.pending[k].at != p.age {
      DueExists(p, k + 1);
    }
  }

  /** A process that waits under the rule of ascending resources holds only smaller ones. */
  lemma WaitsForLarger(p: Proc, h: nat)
    requires Sane(p) && Obeys(Ascending, 0, p) && WaitsFor(p).Some? && h < |p.holding|
    ensures p.holding[h].res < WaitsFor(p).value
  {
    DueExists(p, 0);
    var k :| 0 <= k < |p.pending| && p.pending[k].at == p.age && WaitsFor(p) == Some(p.pending[k].res);
    assert InOrder(Ascending, p.holding[h], p.pending[k]);
  }

  lemma StepAscends(s: Sched, i: nat, j: nat)
    requires Inv(s) && Obey(Ascending, s) && WaitsForOwner(s, i, j) && WaitsFor(P(s, j)).Some?
    ensures WaitsFor(P(s, i)).value < WaitsFor(P(s, j)).value
  {
    var r := WaitsFor(P(s, i)).value;
    assert Holds(s, j, r) && Sane(P(s, j)) && Obeys(Ascending, j, P(s, j));
    var h :| 0 <= h < |P(s, j).holding| && P(s, j).holding[h].res == r;
    WaitsForLarger(P(s, j), h);
  }

  /** Along a cycle of waiting processes the resources waited for would ascend for ever. */
  lemma {:induction false} CycleAscends(s: Sched, cycle: seq<nat>, k: nat)
    requires Inv(s) && Obey(Ascending, s) && k < |cycle|
    requires forall j :: 0 <= j < |cycle| ==> WaitsForOwner(s, cycle[j], cycle[if j + 1 < |cycle| then j + 1 else 0])
    ensures WaitsFor(P(s, cycle[0])).Some? && WaitsFor(P(s, cycle[k])).Some?
    ensures WaitsFor(P(s, cycle[k])).value >= WaitsFor(P(s, cycle[0])).value
  {
    assert WaitsForOwner(s, cycle[0], cycle[if 1 < |cycle| then 1 else 0]);
    assert WaitsForOwner(s, cycle[k], cycle[if k + 1 < |cycle| then k + 1 else 0]);
    if k > 0 {
      CycleAscends(s, cycle, k - 1);
      StepAscends(s, cycle[k - 1], cycle[k]);
    }
  }

  /** No deadlock: when every process takes its resources in ascending order, the loop ends with every process
      exited, aged by exactly its lifespan, and every claim acquired and released. */
  lemma EndedExited(s: Sched, i: nat)
    requires Inv(s) && Obey(Ascending, s) && Halts(s) && i < |s.procs|
    ensures var p := P(s, i);
      p.status == Exited && p.age == p.lifespan && p.pending == [] && p.holding == []
  {
    assert Sane(P(s, i));
    if P(s, i).status != Exited {
      var cycle := EndedInCycle(s, i);
      var n := |cycle| - 1;
      CycleAscends(s, cycle, n);
      StepAscends(s, cycle[n], cycle[0]);
    }
  }

  /** The number of iterations a run takes until the loop ends. */
  ghost function TicksToEnd(policy: Policy, s: Sched): nat
    requires Inv(s) && SuitsAlong(policy, s)
    decreases LifeLeft(s.procs), Unblocked(s.procs), ForkWait(s, s.forkq)
  {
    SuitsNext(policy, s);
    if Halts(Dispatch(policy, s)) then 0
    else
      TickDecreases(policy, s);
      SuitingKeeps(policy, s);
      1 + TicksToEnd(policy, Tick(policy, s))
  }

  /** Every run ends; a run of processes that take their resources in ascending order, or one at a time,
      ends with all of them exited at full age. */
  lemma {:induction false} RunsEnd(policy: Policy, s: Sched)
    requires Inv(s) && SuitsAlong(policy, s)
    ensures var e := Dispatch(policy, Ticks(policy, s, TicksToEnd(policy, s)));
      && Inv(e) && Halts(e) && |e.procs| == |s.procs|
      && (Obey(Ascending, s) ==> forall i :: 0 <= i < |s.procs| ==>
            P(e, i).status == Exited && P(e, i).age == P(e, i).lifespan)
    decreases LifeLeft(s.procs), Unblocked(s.procs), ForkWait(s, s.forkq)
  {
    hide Dispatch, Tick, Core, Wakes, LifeLeft, Unblocked, ForkWait, SuitsAlong, Suits, ForkFrom;
    SuitsNext(policy, s);
    SuitingKeeps(policy, s);
    if Halts(Dispatch(policy, s)) {
      DispatchLives(policy, s);
      var e := Dispatch(policy, s);
      if Obey(Ascending, s) {
        DispatchObeys(Ascending, policy, s);
        forall i | 0 <= i < |s.procs|
          ensures P(e, i).status == Exited && P(e, i).age == P(e, i).lifespan
        {
          EndedExited(e, i);
        }
      }
    } else {
      TickDecreases(policy, s);
      if Obey(Ascending, s) {
        TickObeys(Ascending, policy, s);
      }
      RunsEnd(policy, Tick(policy, s));
    }
  }

  /** One turn of the loop, in terms of the run that is left. */
  lemma TickOrEnd(policy: Policy, s: Sched)
    requires Inv(s) && SuitsAlong(policy, s)
    ensures Suits(policy, ForkFrom(s, 0))
    ensures Halts(Dispatch(policy, s)) ==>
              Tick(policy, s) == Dispatch(policy, s) && Ticks(policy, s, TicksToEnd(policy, s)) == s
    ensures !Halts(Dispatch(policy, s)) ==>
      var s' := Tick(policy, s);
      && Inv(s') && SuitsAlong(policy, s')
      && Ticks(policy, s, TicksToEnd(policy, s)) == Ticks(policy, s', TicksToEnd(policy, s'))
      && (|| LifeLeft(s'.procs) < LifeLeft(s.procs)
          || (LifeLeft(s'.procs) == LifeLeft(s.procs) && Unblocked(s'.procs) < Unblocked(s.procs))
          || (LifeLeft(s'.procs) == LifeLeft(s.procs) && Unblocked(s'.procs) == Unblocked(s.procs)
              && ForkWait(s', s'.forkq) < ForkWait(s, s.forkq)))
  {
    hide Dispatch, ForkFrom, Fits, Inv, SuitsAlong, Suits, LifeLeft, Unblocked, ForkWait;
    SuitsNext(policy, s);
    SuitingKeeps(policy, s);
    if !Halts(Dispatch(policy, s)) {
      TickDecreases(policy, s);
    }
  }
}
