/** Resource accounting over whole runs: every claim of the script is pending until its age, held while it
    lasts, and gone when the owner's age reaches its end, however often the owner was preempted. */
module SchedClaims {
  import opened Common
  import opened SchedModel
  import opened SchedInvariant
  import opened SchedStep
  import opened SchedPreemptive
  import opened SchedRuns

  /** What names a claim while its remaining duration changes. */
  function Key(c: Claim): Claim { c.(left := 0) }

  function Keys(q: seq<Claim>): multiset<Claim> {
    if q == [] then multiset{} else Keys(q[..|q| - 1]) + multiset{Key(q[|q| - 1])}
  }

  lemma {:induction false} KeysHave(q: seq<Claim>, x: Claim)
    ensures x in Keys(q) <==> exists j :: 0 <= j < |q| && Key(q[j]) == x
  {
    if q != [] {
      var n := |q| - 1;
      KeysHave(q[..n], x);
      if x in Keys(q[..n]) {
        var j :| 0 <= j < n && Key(q[..n][j]) == x;
        assert Key(q[j]) == x;
      }
      if j :| 0 <= j < |q| && Key(q[j]) == x {
        if j < n {
          assert q[..n][j] == q[j];
        }
      }
    }
  }

  lemma KeysAppend(q: seq<Claim>, c: Claim)
    ensures Keys(q + [c]) == Keys(q) + multiset{Key(c)}
  {
    assert (q + [c])[..|q|] == q;
  }

  lemma {:induction false} KeysWithout(q: seq<Claim>, k: nat)
    requires k < |q|
    ensures Keys(q) == Keys(Without(q, k)) + multiset{Key(q[k])}
  {
    hide Keys, Key;
    var n := |q| - 1;
    var front, last := q[..n], q[n];
    assert q == front + [last];
    KeysAppend(front, last);
    if k == n {
      assert Without(q, k) == front;
    } else {
      KeysWithout(front, k);
      assert Without(q, k) == Without(front, k) + [last];
      KeysAppend(Without(front, k), last);
    }
  }

  lemma {:induction false} KeysUpdate(q: seq<Claim>, k: nat, c: Claim)
    requires k < |q| && Key(c) == Key(q[k])
    ensures Keys(q[k := c]) == Keys(q)
  {
    var n := |q| - 1;
    if k == n {
      assert q[k := c][..n] == q[..n];
    } else {
      KeysUpdate(q[..n], k, c);
      assert q[k := c][..n] == q[..n][k := c];
    }
  }

  /** The claim does not end by the age `age`. */
  predicate Open(x: Claim, age: nat) { age < x.at + x.span }

  /** Between `p` and the later `q` no open claim was lost or doubled, and none was given back. */
  ghost predicate Kept(p: Proc, q: Proc) {
    && q.age >= p.age
    && (forall x: Claim ::
      Open(x, q.age) ==> Keys(q.pending)[x] + Keys(q.holding)[x] == Keys(p.pending)[x] + Keys(p.holding)[x])
    && (forall x: Claim :: Open(x, q.age) ==> Keys(q.holding)[x] >= Keys(p.holding)[x])
  }

  lemma KeptTwice(p: Proc, q: Proc, r: Proc)
    requires Kept(p, q) && Kept(q, r)
    ensures Kept(p, r)
  {
    forall x: Claim | Open(x, r.age)
      ensures Keys(r.pending)[x] + Keys(r.holding)[x] == Keys(p.pending)[x] + Keys(p.holding)[x]
      ensures Keys(r.holding)[x] >= Keys(p.holding)[x]
    {
      assert Open(x, q.age);
    }
  }

  // ---------------------------------------------------------------- one iteration

  lemma OwnUnfolds(policy: Policy, s: Sched, c: nat, k: nat)
    requires c < |s.procs| && k < |P(s, c).pending| && P(s, c).pending[k].at == P(s, c).age
    requires s.res[P(s, c).pending[k].res].owner == None
    ensures |Own(policy, s, c, k).procs| == |s.procs| && |P(Own(policy, s, c, k), c).pending| == |P(s, c).pending| - 1
    ensures AcquireFrom(policy, s, c, k) == AcquireFrom(policy, Own(policy, s, c, k), c, k)
  {
    OwnFacts(policy, s, c, k);
  }

  lemma OwnKept(policy: Policy, s: Sched, c: nat, k: nat)
    requires c < |s.procs| && k < |P(s, c).pending| && s.res[P(s, c).pending[k].res].owner == None
    ensures forall i: nat :: Kept(P(s, i), P(Own(policy, s, c, k), i))
  {
    hide Keys, Own;
    var p := P(s, c);
    OwnFacts(policy, s, c, k);
    KeysWithout(p.pending, k);
    KeysAppend(p.holding, p.pending[k]);
  }

  lemma BlockKept(policy: Policy, s: Sched, c: nat, r: ResId)
    requires s.res[r].owner.Some?
    ensures !Acquire(policy, s, c, r).1
    ensures forall i: nat :: Kept(P(s, i), P(Acquire(policy, s, c, r).0, i))
  {
    hide Keys;
  }

  lemma {:induction false} AcquireKept(policy: Policy, s: Sched, c: nat, k: nat)
    requires c < |s.procs|
    ensures var s' := AcquireFrom(policy, s, c, k).0; forall i: nat :: Kept(P(s, i), P(s', i))
    decreases |P(s, c).pending| - k
  {
    hide Keys, Own, Acquire;
    var p := P(s, c);
    var s' := AcquireFrom(policy, s, c, k).0;
    if k < |p.pending| {
      if p.pending[k].at != p.age {
        AcquireKept(policy, s, c, k + 1);
      } else if s.res[p.pending[k].res].owner.None? {
        var s1 := Own(policy, s, c, k);
        OwnUnfolds(policy, s, c, k);
        OwnKept(policy, s, c, k);
        AcquireKept(policy, s1, c, k);
        forall i: nat
          ensures Kept(P(s, i), P(s', i))
        {
          KeptTwice(P(s, i), P(s1, i), P(s', i));
        }
      } else {
        BlockKept(policy, s, c, p.pending[k].res);
      }
    }
  }

  lemma {:induction false} ReleaseKept(policy: Policy, s: Sched, c: nat, k: nat)
    requires Releasing(s, c, k) && k <= |P(s, c).holding|
    ensures var s' := ReleaseFrom(policy, s, c, k); forall i: nat :: Kept(P(s, i), P(s', i))
    decreases |P(s, c).holding| - k
  {
    hide ReleaseFrom, GiveBack, Queues, Owners, Wakes, Keys;
    ReleaseUnfolds(policy, s, c, k);
    var p := P(s, c);
    if k < |p.holding| {
      var s1 := if p.holding[k].left > 1
        then SetP(s, c, p.(holding := p.holding[k := p.holding[k].(left := p.holding[k].left - 1)]))
        else GiveBack(policy, s, c, k);
      if p.holding[k].left > 1 {
        CountKeeps(s, c, k);
        KeysUpdate(p.holding, k, p.holding[k].(left := p.holding[k].left - 1));
        ReleaseKept(policy, s1, c, k + 1);
      } else {
        GiveBackFacts(policy, s, c, k);
        GiveBackKeeps(policy, s, c, k);
        KeysWithout(p.holding, k);
        assert !Open(Key(p.holding[k]), p.age);
        ReleaseKept(policy, s1, c, k);
      }
      var s' := ReleaseFrom(policy, s, c, k);
      forall i: nat
        ensures Kept(P(s, i), P(s', i))
      {
        KeptTwice(P(s, i), P(s1, i), P(s', i));
      }
    }
  }

  lemma RunKept(policy: Policy, s: Sched, c: nat)
    requires Core(s) && Wakes(s, Some(c)) && RunsAs(s, c) && Alive(P(s, c))
    ensures var s' := RunCurrent(policy, s, c); forall i: nat :: Kept(P(s, i), P(s', i))
  {
    hide AcquireFrom, ReleaseFrom, Core, Wakes, Releasing, Keys;
    AcquireKeeps(policy, s, c, 0);
    AcquireKept(policy, s, c, 0);
    var (s1, ok) := AcquireFrom(policy, s, c, 0);
    if ok {
      AgeKeeps(s1, c);
      var s2 := SetP(s1, c, P(s1, c).(age := P(s1, c).age + 1));
      ReleaseKept(policy, s2, c, 0);
      var s' := RunCurrent(policy, s, c);
      forall i: nat
        ensures Kept(P(s, i), P(s', i))
      {
        KeptTwice(P(s, i), P(s1, i), P(s2, i));
        KeptTwice(P(s, i), P(s2, i), P(s', i));
      }
    }
  }

  /** One iteration keeps the claims of every process. */
  lemma TickKept(policy: Policy, s: Sched)
    requires Inv(s) && Suits(policy, ForkFrom(s, 0))
    ensures forall i: nat :: Kept(P(s, i), P(Tick(policy, s), i))
  {
    hide Dispatch, RunCurrent, Core, Wakes, Suits, ForkFrom, Keys;
    SuitingKeeps(policy, s);
    DispatchLives(policy, s);
    var d, e := Dispatch(policy, s), Tick(policy, s);
    DispatchedRuns(d);
    if d.current.Some? {
      RunKept(policy, d, d.current.value);
    }
    var ran := if d.current.None? then d else RunCurrent(policy, d, d.current.value);
    forall i: nat
      ensures Kept(P(s, i), P(e, i))
    {
      assert SameClock(P(s, i), P(d, i)) && P(e, i) == if Halts(d) then P(d, i) else P(ran, i);
      assert Kept(P(s, i), P(d, i));
      KeptTwice(P(s, i), P(d, i), P(ran, i));
    }
  }

  // ---------------------------------------------------------------- what a state says of a claim

  predicate IsPending(p: Proc, x: Claim) { exists j :: 0 <= j < |p.pending| && Key(p.pending[j]) == x }

  predicate IsHeld(p: Proc, x: Claim) { exists j :: 0 <= j < |p.holding| && Key(p.holding[j]) == x }

  /** `i` holds the claim for the time it has left, and owns the resource. */
  ghost predicate HoldsClaim(s: Sched, i: nat, x: Claim) {
    && s.res[x.res].owner == Some(i)
    && exists j :: 0 <= j < |P(s, i).holding| && Key(P(s, i).holding[j]) == x
                   && P(s, i).holding[j].left + P(s, i).age == x.at + x.span
  }

  /** In a state of the invariant pending claims are not overdue, held ones have begun and not ended, and
      a claim that is held is held in full. */
  lemma ClaimFacts(s: Sched, i: nat, x: Claim)
    requires Inv(s) && i < |s.procs|
    ensures IsPending(P(s, i), x) ==> x.at >= P(s, i).age && Open(x, P(s, i).age)
    ensures IsHeld(P(s, i), x) ==> x.at <= P(s, i).age && Open(x, P(s, i).age) && HoldsClaim(s, i, x)
    ensures IsPending(P(s, i), x) <==> Keys(P(s, i).pending)[x] > 0
    ensures IsHeld(P(s, i), x) <==> Keys(P(s, i).holding)[x] > 0
  {
    hide Keys, Queues, Wakes;
    var p := P(s, i);
    assert Sane(p);
    KeysHave(p.pending, x);
    KeysHave(p.holding, x);
    if IsHeld(p, x) {
      var j :| 0 <= j < |p.holding| && Key(p.holding[j]) == x;
      assert s.res[p.holding[j].res].owner == Some(i);
    }
  }

  /** After an iteration a claim that was held is held, and its resource owned, if and only if its owner's
      age has not reached the claim's end. */
  lemma HeldUntilItsEnd(policy: Policy, s: Sched, i: nat, x: Claim)
    requires Inv(s) && Suits(policy, ForkFrom(s, 0)) && i < |s.procs| && IsHeld(P(s, i), x)
    ensures var e := Tick(policy, s);
      && (IsHeld(P(e, i), x) <==> P(e, i).age < x.at + x.span)
      && (HoldsClaim(e, i, x) <==> P(e, i).age < x.at + x.span)
  {
    hide Tick, ForkFrom, Suits, Inv, Keys;
    TickKept(policy, s);
    SuitingKeeps(policy, s);
    var e := Tick(policy, s);
    ClaimFacts(s, i, x);
    ClaimFacts(e, i, x);
    assert Kept(P(s, i), P(e, i));
  }

  lemma {:induction false} RunsKept(policy: Policy, s: Sched, n: nat)
    requires Inv(s) && SuitsAlong(policy, s)
    ensures forall i: nat :: Kept(P(s, i), P(Ticks(policy, s, n), i))
    decreases n
  {
    hide Tick, Inv, Keys, ForkFrom, SuitsAlong, Suits;
    if n > 0 {
      SuitsNext(policy, s);
      TickKept(policy, s);
      SuitingKeeps(policy, s);
      var s1 := Tick(policy, s);
      RunsKept(policy, s1, n - 1);
      forall i: nat
        ensures Kept(P(s, i), P(Ticks(policy, s, n), i))
      {
        KeptTwice(P(s, i), P(s1, i), P(Ticks(policy, s, n), i));
      }
    }
  }

  /** A claim of the script, at any time of the run: pending before its age, held and its resource owned
      while it lasts, gone from its end on; at its age itself pending or held. */
  lemma ClaimOverRun(policy: Policy, s: Sched, n: nat, i: nat, k: nat)
    requires Loaded(s) && SuitsAlong(policy, s) && i < |s.procs| && k < |P(s, i).pending|
    ensures var e := Ticks(policy, s, n); var p, x := P(e, i), Key(P(s, i).pending[k]);
      && (p.age < x.at ==> IsPending(p, x) && !IsHeld(p, x))
      && (p.age == x.at ==> IsPending(p, x) || HoldsClaim(e, i, x))
      && (x.at < p.age < x.at + x.span ==> !IsPending(p, x) && HoldsClaim(e, i, x))
      && (p.age >= x.at + x.span ==> !IsPending(p, x) && !IsHeld(p, x))
  {
    hide Ticks, Inv, Keys, SuitsAlong;
    LoadedInv(s);
    SuitingRunsKeep(policy, s, n);
    RunsKept(policy, s, n);
    var e, x := Ticks(policy, s, n), Key(P(s, i).pending[k]);
    ClaimFacts(s, i, x);
    ClaimFacts(e, i, x);
    assert Kept(P(s, i), P(e, i)) && IsPending(P(s, i), x);
  }

  lemma NoKeys(p: Proc)
    ensures p.holding == [] ==> Keys(p.holding) == multiset{}
  {
  }

  /** No claim is lost or doubled: the open claims a process has are those of its script. */
  lemma OpenClaimsAreTheScripts(policy: Policy, s: Sched, n: nat, i: nat, x: Claim)
    requires Loaded(s) && SuitsAlong(policy, s) && i < |s.procs|
    ensures var p := P(Ticks(policy, s, n), i);
      Keys(p.pending)[x] + Keys(p.holding)[x] == if Open(x, p.age) then Keys(P(s, i).pending)[x] else 0
  {
    hide Ticks, Inv, Keys, SuitsAlong;
    LoadedInv(s);
    SuitingRunsKeep(policy, s, n);
    RunsKept(policy, s, n);
    var e := Ticks(policy, s, n);
    ClaimFacts(e, i, x);
    assert Kept(P(s, i), P(e, i));
    NoKeys(P(s, i));
  }
}
