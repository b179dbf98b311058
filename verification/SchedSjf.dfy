/** Shortest job first, on processes that start together and use no resources: they complete in stable
    order of their lifespans, and no other order has a smaller sum of completion times. */
module SchedSjf {
  import opened Common
  import opened SchedModel
  import opened SchedInvariant
  import opened SchedStep
  import opened SchedRuns

  // ---------------------------------------------------------------- sums of completion times

  /** The sum of the times at which jobs of these lengths complete, run one after the other from `t` on. */
  function CompletionSum(jobs: seq<nat>, t: nat): nat {
    if jobs == [] then 0 else t + jobs[0] + CompletionSum(jobs[1..], t + jobs[0])
  }

  /** Moving a shortest job to the front does not increase the sum. */
  lemma {:induction false} MoveToFront(jobs: seq<nat>, k: nat, t: nat)
    requires k < |jobs| && forall j :: 0 <= j < |jobs| ==> jobs[k] <= jobs[j]
    ensures CompletionSum([jobs[k]] + Without(jobs, k), t) <= CompletionSum(jobs, t)
  {
    var x, m, rest := jobs[k], jobs[0], jobs[1..];
    if k == 0 {
      assert [x] + Without(jobs, 0) == jobs;
    } else {
      var w := Without(rest, k - 1);
      MoveToFront(rest, k - 1, t + m);
      assert ([x] + w)[1..] == w;
      assert Without(jobs, k) == [m] + w;
      assert ([x] + ([m] + w))[1..] == [m] + w && ([m] + w)[1..] == w;
      assert CompletionSum([x] + ([m] + w), t) == (t + x) + (t + x + m) + CompletionSum(w, t + x + m);
    }
  }

  lemma CompletionFirst(x: nat, rest: seq<nat>, t: nat)
    ensures CompletionSum([x] + rest, t) == t + x + CompletionSum(rest, t + x)
  {
    assert ([x] + rest)[1..] == rest;
  }

  lemma SameRest(a: seq<nat>, b: seq<nat>, k: nat)
    requires multiset(a) == multiset(b) && a != [] && k < |b| && b[k] == a[0]
    ensures multiset(a[1..]) == multiset(Without(b, k))
  {
    WithoutMultiset(b, k);
    WithoutMultiset(a, 0);
    assert Without(a, 0) == a[1..];
  }

  lemma ShortestFirst(sorted: seq<nat>, jobs: seq<nat>)
    requires multiset(sorted) == multiset(jobs) && sorted != []
    requires forall i, j :: 0 <= i < j < |sorted| ==> sorted[i] <= sorted[j]
    ensures forall j :: 0 <= j < |jobs| ==> sorted[0] <= jobs[j]
  {
    forall j | 0 <= j < |jobs|
      ensures sorted[0] <= jobs[j]
    {
      assert jobs[j] in multiset(sorted);
    }
  }

  /** Of all orders of the same jobs, a nondecreasing one has the least sum of completion times. */
  lemma {:induction false} SortedIsOptimal(sorted: seq<nat>, jobs: seq<nat>, t: nat)
    requires multiset(sorted) == multiset(jobs)
    requires forall i, j :: 0 <= i < j < |sorted| ==> sorted[i] <= sorted[j]
    ensures CompletionSum(sorted, t) <= CompletionSum(jobs, t)
    decreases |sorted|
  {
    hide CompletionSum;
    assert |sorted| == |multiset(sorted)| == |jobs|;
    if sorted != [] {
      var x := sorted[0];
      assert x in multiset(jobs);
      var k :| 0 <= k < |jobs| && jobs[k] == x;
      ShortestFirst(sorted, jobs);
      MoveToFront(jobs, k, t);
      SameRest(sorted, jobs, k);
      SortedIsOptimal(sorted[1..], Without(jobs, k), t + x);
      CompletionFirst(x, sorted[1..], t);
      CompletionFirst(x, Without(jobs, k), t);
      assert [x] + sorted[1..] == sorted;
    } else {
      assert jobs == sorted;
    }
  }

  // ---------------------------------------------------------------- the order SJF runs in

  /** The ready queue in the order in which repeated picks empty it. */
  function SjfOrder(s: Sched, q: seq<nat>): (r: seq<nat>)
    ensures |r| == |q| && multiset(r) == multiset(q)
    decreases |q|
  {
    if q == [] then []
    else
      var k := Best(Brevity(s, q));
      WithoutMultiset(q, k);
      [q[k]] + SjfOrder(s, Without(q, k))
  }

  function Lifespans(s: Sched, q: seq<nat>): (r: seq<nat>)
    ensures |r| == |q| && forall i :: 0 <= i < |q| ==> r[i] == P(s, q[i]).lifespan
  {
    seq(|q|, i requires 0 <= i < |q| => P(s, q[i]).lifespan)
  }

  /** `i` is shorter than `j`, or as long and before it in `q`. */
  ghost predicate Earlier(s: Sched, q: seq<nat>, i: nat, j: nat) {
    P(s, i).lifespan < P(s, j).lifespan || (P(s, i).lifespan == P(s, j).lifespan && Before(q, i, j))
  }

  /** Shorter first, and first come first among equals. */
  ghost predicate StablySorted(s: Sched, q: seq<nat>, r: seq<nat>) {
    forall i, j :: 0 <= i < j < |r| ==> Earlier(s, q, r[i], r[j])
  }

  /** The picked process comes before every other one of the queue. */
  lemma PickedIsEarlier(s: Sched, q: seq<nat>, j: nat)
    requires q != [] && j in Without(q, Best(Brevity(s, q)))
    ensures Earlier(s, q, q[Best(Brevity(s, q))], j)
  {
    var keys := Brevity(s, q);
    var k := Best(keys);
    var w := Without(q, k);
    var b :| 0 <= b < |w| && w[b] == j;
    var b' := if b < k then b else b + 1;
    assert q[b'] == j && keys[b'] <= keys[k] && (b' < k ==> keys[b'] < keys[k]);
  }

  lemma EarlierBack(s: Sched, q: seq<nat>, k: nat, i: nat, j: nat)
    requires k < |q| && Earlier(s, Without(q, k), i, j)
    ensures Earlier(s, q, i, j)
  {
    var w := Without(q, k);
    if Before(w, i, j) {
      var a, b :| 0 <= a < b < |w| && w[a] == i && w[b] == j;
      assert q[if a < k then a else a + 1] == i && q[if b < k then b else b + 1] == j;
    }
  }

  lemma OrderMembers(s: Sched, w: seq<nat>, j: nat)
    requires j < |w|
    ensures SjfOrder(s, w)[j] in w
  {
    assert SjfOrder(s, w)[j] in multiset(SjfOrder(s, w));
    assert SjfOrder(s, w)[j] in multiset(w);
  }

  /** The iterations up to and including the run of position `j` of the order. */
  function FinishTime(s: Sched, order: seq<nat>, j: nat): nat
    requires j < |order|
  {
    (if j == 0 then 0 else FinishTime(s, order, j - 1)) + P(s, order[j]).lifespan
  }

  lemma SjfOrderUnfolds(s: Sched, q: seq<nat>)
    requires q != []
    ensures var k := Best(Brevity(s, q));
      SjfOrder(s, q) == [q[k]] + SjfOrder(s, Without(q, k)) && FinishTime(s, SjfOrder(s, q), 0) == P(s, q[k]).lifespan
  {
  }

  lemma {:induction false} SjfOrderIsStable(s: Sched, q: seq<nat>)
    ensures StablySorted(s, q, SjfOrder(s, q))
    decreases |q|
  {
    hide Best, Without, Before, P, SjfOrder, Brevity, Earlier;
    if q != [] {
      SjfOrderUnfolds(s, q);
      var k := Best(Brevity(s, q));
      var w := Without(q, k);
      var r := SjfOrder(s, w);
      SjfOrderIsStable(s, w);
      var all := SjfOrder(s, q);
      assert all == [q[k]] + r;
      forall i, j | 0 <= i < j < |all|
        ensures Earlier(s, q, all[i], all[j])
      {
        if i == 0 {
          assert all[j] == r[j - 1];
          OrderMembers(s, w, j - 1);
          PickedIsEarlier(s, q, all[j]);
        } else {
          assert all[i] == r[i - 1] && all[j] == r[j - 1] && Earlier(s, w, r[i - 1], r[j - 1]);
          EarlierBack(s, q, k, all[i], all[j]);
        }
      }
    }
  }

  lemma LifespansWithout(s: Sched, q: seq<nat>, k: nat)
    requires k < |q|
    ensures multiset(Lifespans(s, q)) == multiset(Lifespans(s, Without(q, k))) + multiset{P(s, q[k]).lifespan}
  {
    assert Lifespans(s, Without(q, k)) == Without(Lifespans(s, q), k);
    WithoutMultiset(Lifespans(s, q), k);
  }

  lemma {:induction false} LifespansMultiset(s: Sched, q: seq<nat>, r: seq<nat>)
    requires multiset(q) == multiset(r)
    ensures multiset(Lifespans(s, q)) == multiset(Lifespans(s, r))
    decreases |q|
  {
    hide Lifespans;
    assert |q| == |multiset(q)| == |r|;
    if q == [] {
      assert r == q;
    } else {
      assert q[0] in multiset(r);
      var k :| 0 <= k < |r| && r[k] == q[0];
      SameRest(q, r, k);
      assert q[1..] == Without(q, 0);
      LifespansMultiset(s, q[1..], Without(r, k));
      LifespansWithout(s, q, 0);
      LifespansWithout(s, r, k);
    }
  }

  // ---------------------------------------------------------------- the run

  /** No process has claims, every waiting one is on the ready queue, and none of those has run. */
  ghost predicate Batch(s: Sched, q: seq<nat>) {
    && Inv(s)
    && (forall i: nat :: P(s, i).pending == [] && P(s, i).holding == [])
    && ForkFrom(s, 0).forkq == [] && ForkFrom(s, 0).ready == q
    && (forall i :: i in q ==> P(s, i).age == 0)
  }

  /** Between two picks: there is no current process, or it has just reached its lifespan. */
  predicate Between(s: Sched) {
    s.current.Some? ==> P(s, s.current.value).status == Running && !Alive(P(s, s.current.value))
  }

  /** A process without claims only ages. */
  lemma RunWithoutClaims(policy: Policy, d: Sched, c: nat)
    requires c < |d.procs| && P(d, c).pending == [] && P(d, c).holding == []
    ensures RunCurrent(policy, d, c) == SetP(d, c, P(d, c).(age := P(d, c).age + 1))
  {
  }

  /** An iteration in which nothing is forked and the current process goes on. */
  lemma KeepTick(s: Sched, c: nat)
    requires Inv(s) && s.forkq == [] && RunsAs(s, c) && Alive(P(s, c)) && P(s, c).pending == [] && P(s, c).holding == []
    ensures Tick(Sjf, s) == SetP(s, c, P(s, c).(age := P(s, c).age + 1)).(ticks := s.ticks + 1)
  {
    assert ForkFrom(s, 0) == s;
    assert Schedule(Sjf, s) == Keep(s);
    assert s.procs[c := P(s, c).(status := Ready)][c := P(s, c)] == s.procs;
    assert Dispatch(Sjf, s) == s;
    RunWithoutClaims(Sjf, s, c);
  }

  /** The tick of a process without claims, in terms of the dispatched state. */
  lemma PickAges(s: Sched, c: nat)
    requires var d := Dispatch(Sjf, s);
      d.current == Some(c) && c < |d.procs| && P(d, c).pending == [] && P(d, c).holding == []
    ensures var d, e := Dispatch(Sjf, s), Tick(Sjf, s);
      && e == d.(procs := e.procs, ticks := d.ticks + 1) && |e.procs| == |d.procs|
      && forall i: nat :: P(e, i) == if i == c then P(d, c).(age := P(d, c).age + 1) else P(d, i)
  {
    hide Dispatch;
    RunWithoutClaims(Sjf, Dispatch(Sjf, s), c);
  }

  /** Retiring and starting processes leaves the queue that the choice left. */
  lemma DispatchTakes(policy: Policy, s: Sched)
    ensures var c, d := Schedule(policy, ForkFrom(s, 0)), Dispatch(policy, s);
      d.current == c.next && d.ready == c.s.ready && d.ticks == c.s.ticks
  {
    hide ForkFrom, Schedule;
  }

  lemma SjfPicks(s: Sched, f: Sched)
    requires f == ForkFrom(s, 0) && f == s.(forkq := f.forkq, ready := f.ready) && Between(s) && f.ready != []
    ensures var k := Best(Brevity(s, f.ready)); var d := Dispatch(Sjf, s);
      d.current == Some(f.ready[k]) && d.ready == Without(f.ready, k) && d.ticks == s.ticks
  {
    hide ForkFrom, Best, Dispatch;
    DispatchTakes(Sjf, s);
    assert Brevity(f, f.ready) == Brevity(s, f.ready);
  }

  /** An iteration in which the first of the shortest ready processes starts. */
  lemma PickTick(s: Sched, q: seq<nat>)
    requires Batch(s, q) && Between(s) && q != []
    ensures var k := Best(Brevity(s, q)); var e := Tick(Sjf, s);
      && RunsAs(e, q[k]) && e.ready == Without(q, k) && e.forkq == [] && e.ticks == s.ticks + 1 && Inv(e)
      && P(e, q[k]).age == 1 && P(e, q[k]).lifespan == P(s, q[k]).lifespan >= 1
      && (forall i: nat :: i != q[k] ==> SameClock(P(s, i), P(e, i)))
      && (forall i: nat :: P(e, i).pending == [] && P(e, i).holding == [])
  {
    hide Schedule, Dispatch, Tick, ForkFrom, Core, Wakes, Best;
    TickKeeps(Sjf, s);
    DispatchKeeps(Sjf, s);
    DispatchLives(Sjf, s);
    ForkKeeps(s, 0);
    var f, d := ForkFrom(s, 0), Dispatch(Sjf, s);
    SjfPicks(s, f);
    var k := Best(Brevity(s, q));
    assert q[k] in q && d.current == Some(q[k]);
    PickAges(s, q[k]);
    assert forall i: nat :: SameClock(P(s, i), P(d, i));
  }

  /** A process that has started runs to its end without interruption. */
  lemma {:induction false} Burst(s: Sched, c: nat, n: nat)
    requires Inv(s) && s.forkq == [] && RunsAs(s, c) && n <= P(s, c).lifespan - P(s, c).age
    requires forall i: nat :: P(s, i).pending == [] && P(s, i).holding == []
    ensures var e := Ticks(Sjf, s, n);
      && Inv(e) && e.forkq == [] && e.ready == s.ready && RunsAs(e, c) && e.ticks == s.ticks + n
      && P(e, c) == P(s, c).(age := P(s, c).age + n)
      && (forall i: nat :: i != c ==> P(e, i) == P(s, i))
    decreases n
  {
    hide Tick, Core, Wakes;
    if n > 0 {
      KeepTick(s, c);
      TickKeeps(Sjf, s);
      var s1 := Tick(Sjf, s);
      assert forall i: nat :: P(s1, i) == if i == c then P(s, c).(age := P(s, c).age + 1) else P(s, i);
      Burst(s1, c, n - 1);
    }
  }

  lemma NotAgain(s: Sched, q: seq<nat>, k: nat)
    requires Batch(s, q) && k < |q|
    ensures NoDup(q) && forall i :: i in Without(q, k) <==> i in q && i != q[k]
  {
    ForkKeeps(s, 0);
    WithoutMembers(q, k);
  }

  /** From one pick to the next. */
  lemma RunOne(s: Sched, q: seq<nat>)
    requires Batch(s, q) && Between(s) && q != []
    ensures var k := Best(Brevity(s, q)); var n := P(s, q[k]).lifespan; var e := Ticks(Sjf, s, n);
      && n >= 1 && Batch(e, Without(q, k)) && Between(e) && e.ticks == s.ticks + n
      && P(e, q[k]).age == n
      && (forall u: nat, i: nat :: u <= n && i != q[k] ==> SameClock(P(s, i), P(Ticks(Sjf, s, u), i)))
      && P(e, q[k]).lifespan == n
      && CompletesAfter(Sjf, s, q[k], n)
  {
    hide Tick, Core, Wakes, Best;
    var k := Best(Brevity(s, q));
    var c, n := q[k], P(s, q[k]).lifespan;
    assert c in q;
    PickTick(s, q);
    var s1 := Tick(Sjf, s);
    Burst(s1, c, n - 1);
    var e := Ticks(Sjf, s, n);
    assert e == Ticks(Sjf, s1, n - 1);
    forall u: nat, i: nat | u <= n
      ensures i != c ==> SameClock(P(s, i), P(Ticks(Sjf, s, u), i))
      ensures u < n ==> P(Ticks(Sjf, s, u), c).age < n
    {
      if u > 0 {
        Burst(s1, c, u - 1);
        assert Ticks(Sjf, s, u) == Ticks(Sjf, s1, u - 1);
      }
    }
    assert ForkFrom(e, 0) == e;
    NotAgain(s, q, k);
    forall i | i in Without(q, k)
      ensures P(e, i).age == 0
    {
      assert i in q && i != c;
      assert SameClock(P(s, i), P(e, i));
    }
  }

  lemma {:induction false} FinishShift(s: Sched, s': Sched, order: seq<nat>, j: nat)
    requires 0 < j < |order| && forall i: nat :: P(s', i).lifespan == P(s, i).lifespan
    ensures FinishTime(s, order, j) == P(s, order[0]).lifespan + FinishTime(s', order[1..], j - 1)
    decreases j
  {
    if j > 1 {
      FinishShift(s, s', order, j - 1);
    }
  }

  lemma {:induction false} SjfOrderSame(s: Sched, s': Sched, q: seq<nat>)
    requires forall i: nat :: P(s', i).lifespan == P(s, i).lifespan
    ensures SjfOrder(s', q) == SjfOrder(s, q)
    decreases |q|
  {
    if q != [] {
      assert Brevity(s', q) == Brevity(s, q);
      SjfOrderSame(s, s', Without(q, Best(Brevity(s, q))));
    }
  }

  lemma SameLifespans(s: Sched, e: Sched, q: seq<nat>, k: nat, n: nat)
    requires k < |q| && e == Ticks(Sjf, s, n) && P(e, q[k]).lifespan == P(s, q[k]).lifespan
    requires forall u: nat, x: nat :: u <= n && x != q[k] ==> SameClock(P(s, x), P(Ticks(Sjf, s, u), x))
    ensures forall i: nat :: P(e, i).lifespan == P(s, i).lifespan
  {
    forall i: nat | i != q[k]
      ensures P(e, i).lifespan == P(s, i).lifespan
    {
      assert SameClock(P(s, i), P(Ticks(Sjf, s, n), i));
    }
  }

  lemma SameLifespan(s: Sched, e: Sched, i: nat, u: nat)
    requires e == Ticks(Sjf, s, u) && SameClock(P(s, i), P(Ticks(Sjf, s, u), i))
    ensures P(e, i).age == P(s, i).age && P(e, i).lifespan == P(s, i).lifespan
  {
  }

  lemma WaitingIsAlive(s: Sched, q: seq<nat>, i: nat)
    requires Batch(s, q) && i in q
    ensures P(s, i).age == 0 < P(s, i).lifespan
  {
    ForkKeeps(s, 0);
    assert P(ForkFrom(s, 0), i) == P(s, i) && Sane(P(ForkFrom(s, 0), i));
  }

  /** What completes `t` iterations after the first run completes `n + t` after its start. */
  lemma Later(s: Sched, e: Sched, q: seq<nat>, k: nat, n: nat, i: nat, t: nat)
    requires Batch(s, q) && k < |q| && n == P(s, q[k]).lifespan && e == Ticks(Sjf, s, n) && i in Without(q, k)
    requires forall u: nat, x: nat :: u <= n && x != q[k] ==> SameClock(P(s, x), P(Ticks(Sjf, s, u), x))
    requires CompletesAfter(Sjf, e, i, t)
    ensures CompletesAfter(Sjf, s, i, n + t)
  {
    hide Tick, Best, Ticks, SameClock;
    NotAgain(s, q, k);
    WaitingIsAlive(s, q, i);
    hide Batch, Inv;
    SameLifespan(s, e, i, n);
    TicksSplit(Sjf, s, n, t);
    forall u | 0 <= u < n + t
      ensures P(Ticks(Sjf, s, u), i).age < P(s, i).lifespan
    {
      if u <= n {
        SameLifespan(s, Ticks(Sjf, s, u), i, u);
      } else {
        TicksSplit(Sjf, s, n, u - n);
      }
    }
  }

  /** Every process completes at its place in the order, having run without interruption. */
  lemma {:induction false} CompletesInOrder(s: Sched, q: seq<nat>, j: nat)
    requires Batch(s, q) && Between(s) && j < |q|
    ensures CompletesAfter(Sjf, s, SjfOrder(s, q)[j], FinishTime(s, SjfOrder(s, q), j))
    decreases j
  {
    hide P, Tick, Inv, Best, Ticks, Batch, Between, CompletesAfter, SameClock, SjfOrder, FinishTime, Without, Brevity;
    SjfOrderUnfolds(s, q);
    var k := Best(Brevity(s, q));
    RunOne(s, q);
    if j > 0 {
      var n, w := P(s, q[k]).lifespan, Without(q, k);
      var e := Ticks(Sjf, s, n);
      var order, rest := SjfOrder(s, q), SjfOrder(e, w);
      SameLifespans(s, e, q, k, n);
      SjfOrderSame(s, e, w);
      assert order == [q[k]] + rest;
      assert order[1..] == rest && order[j] == rest[j - 1];
      CompletesInOrder(e, w, j - 1);
      FinishShift(s, e, order, j);
      assert rest[j - 1] in multiset(w);
      Later(s, e, q, k, n, rest[j - 1], FinishTime(e, rest, j - 1));
    }
  }

  /** SJF on a batch: processes complete in stable order of lifespan, each at the sum of the lifespans up
      to its own, and no order of the same processes gives a smaller sum of completion times. */
  lemma SjfIsOptimal(s: Sched, q: seq<nat>, other: seq<nat>)
    requires Batch(s, q) && Between(s) && multiset(other) == multiset(q)
    ensures var order := SjfOrder(s, q);
      && multiset(order) == multiset(q) && StablySorted(s, q, order)
      && (forall j :: 0 <= j < |q| ==> CompletesAfter(Sjf, s, order[j], FinishTime(s, order, j)))
      && CompletionSum(Lifespans(s, order), 0) <= CompletionSum(Lifespans(s, other), 0)
  {
    hide Ticks, Tick, Best, CompletesAfter;
    var order := SjfOrder(s, q);
    ForkKeeps(s, 0);
    SjfOrderIsStable(s, q);
    forall j | 0 <= j < |q|
      ensures CompletesAfter(Sjf, s, order[j], FinishTime(s, order, j))
    {
      CompletesInOrder(s, q, j);
    }
    LifespansMultiset(s, order, other);
    SortedIsOptimal(Lifespans(s, order), Lifespans(s, other), 0);
  }

  /** The sum of the completion times of a batch is what `CompletionSum` says. */
  function FinishSum(s: Sched, order: seq<nat>, n: nat): nat
    requires n <= |order|
  {
    if n == 0 then 0 else FinishSum(s, order, n - 1) + FinishTime(s, order, n - 1)
  }

  function Total(jobs: seq<nat>): nat { if jobs == [] then 0 else jobs[0] + Total(jobs[1..]) }

  lemma {:induction false} CompletionSumSnoc(jobs: seq<nat>, x: nat, t: nat)
    ensures CompletionSum(jobs + [x], t) == CompletionSum(jobs, t) + CompletionSum([Total(jobs) + x], t)
  {
    if jobs == [] {
      assert jobs + [x] == [x];
    } else {
      assert (jobs + [x])[1..] == jobs[1..] + [x];
      CompletionSumSnoc(jobs[1..], x, t + jobs[0]);
    }
  }

  lemma {:induction false} TotalSnoc(jobs: seq<nat>, x: nat)
    ensures Total(jobs + [x]) == Total(jobs) + x
  {
    if jobs == [] {
      assert jobs + [x] == [x];
    } else {
      assert (jobs + [x])[1..] == jobs[1..] + [x];
      TotalSnoc(jobs[1..], x);
    }
  }

  lemma {:induction false} FinishSumIsCompletionSum(s: Sched, order: seq<nat>, n: nat)
    requires n <= |order|
    ensures FinishSum(s, order, n) == CompletionSum(Lifespans(s, order[..n]), 0)
    ensures n > 0 ==> FinishTime(s, order, n - 1) == Total(Lifespans(s, order[..n]))
    decreases n
  {
    if n > 0 {
      FinishSumIsCompletionSum(s, order, n - 1);
      var jobs, x := Lifespans(s, order[..n - 1]), P(s, order[n - 1]).lifespan;
      assert Lifespans(s, order[..n]) == jobs + [x];
      CompletionSumSnoc(jobs, x, 0);
      TotalSnoc(jobs, x);
    }
  }

  lemma {:induction false} ForkAll(s: Sched, q: seq<nat>)
    requires Core(s) && Wakes(s, None) && s.ready + s.forkq == q && s.ticks == 0
    requires forall i: nat :: P(s, i).startsAt == 0
    ensures ForkFrom(s, 0).forkq == [] && ForkFrom(s, 0).ready == q
    decreases |s.forkq|
  {
    if s.forkq != [] {
      var p := s.forkq[0];
      var s1 := SetStatus(s, p, Ready).(forkq := Without(s.forkq, 0), ready := s.ready + [p]);
      ForkOne(s, 0);
      assert s1.ready + s1.forkq == q;
      assert forall i: nat :: P(s1, i) == P(s, i);
      ForkAll(s1, q);
    }
  }

  /** A loaded script whose processes all start at tick 0 and claim nothing is such a batch. */
  lemma LoadedBatch(s: Sched)
    requires Loaded(s) && forall i :: 0 <= i < |s.procs| ==> P(s, i).startsAt == 0 && P(s, i).pending == []
    ensures Batch(s, s.forkq) && Between(s)
  {
    LoadedInv(s);
    ForkAll(s, s.forkq);
  }
}
