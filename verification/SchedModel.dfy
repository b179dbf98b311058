/** The scheduler simulator as it is coded (os-pa2/sched.c and os-pa2/pa2.c): one iteration of the
    simulation loop is `Tick`. Processes are named by their position in the script. */
module SchedModel {
  import opened Common

  const MAX_PRIO: nat := 64
  const MAX_TC: nat := 100_000_000

  type ResId = r: nat | r < 16

  datatype Policy = Fifo | Sjf | Stcf | Rr | Prio | Pa | Pcp | Pip
  datatype Status = Ready | Running | Blocked | Exited

  /** struct resource_schedule. The code counts `duration` down in place; `span` keeps its first value. */
  datatype Claim = Claim(res: ResId, at: nat, span: nat, left: nat)

  datatype Proc = Proc(lifespan: nat, prioOrig: nat, startsAt: nat,
                       age: nat, prio: nat, status: Status, pending: seq<Claim>, holding: seq<Claim>)

  datatype Resource = Resource(owner: Option<nat>, waitq: seq<nat>)

  function FreeResources(): seq<Resource> { seq(16, i => Resource(None, [])) }
  type Resources = r: seq<Resource> | |r| == 16 witness FreeResources()

  datatype Sched = Sched(procs: seq<Proc>, forkq: seq<nat>, ready: seq<nat>,
                         current: Option<nat>, res: Resources, ticks: nat)

  const NOBODY := Proc(0, 0, 0, 0, 0, Exited, [], [])

  /** Process `i`; names outside the script do not occur. */
  function P(s: Sched, i: nat): Proc { if i < |s.procs| then s.procs[i] else NOBODY }

  function SetP(s: Sched, i: nat, p: Proc): Sched {
    if i < |s.procs| then s.(procs := s.procs[i := p]) else s
  }

  function SetStatus(s: Sched, i: nat, st: Status): Sched { SetP(s, i, P(s, i).(status := st)) }

  function SetPrio(s: Sched, i: nat, prio: nat): Sched { SetP(s, i, P(s, i).(prio := prio)) }

  function SetRes(s: Sched, r: ResId, x: Resource): Sched { s.(res := s.res[r := x]) }

  predicate Alive(p: Proc) { p.age < p.lifespan }

  // ---------------------------------------------------------------- picking from a queue

  /** The first position with the largest key: what the scan with `>` leaves in `next` or `waiter`. */
  function Best(keys: seq<int>): (k: nat)
    requires keys != []
    ensures k < |keys|
    ensures forall j :: 0 <= j < |keys| ==> keys[j] <= keys[k]
    ensures forall j :: 0 <= j < k ==> keys[j] < keys[k]
  {
    var n := |keys| - 1;
    if n == 0 then 0
    else
      var k := Best(keys[..n]);
      if keys[n] > keys[k] then n else k
  }

  function Prios(s: Sched, q: seq<nat>): (r: seq<int>)
    ensures |r| == |q| && forall i :: 0 <= i < |q| ==> r[i] == P(s, q[i]).prio
  {
    seq(|q|, i requires 0 <= i < |q| => P(s, q[i]).prio)
  }

  function Brevity(s: Sched, q: seq<nat>): (r: seq<int>)
    ensures |r| == |q| && forall i :: 0 <= i < |q| ==> r[i] == 0 - P(s, q[i]).lifespan
  {
    seq(|q|, i requires 0 <= i < |q| => 0 - P(s, q[i]).lifespan)
  }

  function Remaining(p: Proc): int { p.lifespan - p.age }

  /** The first position with the least remaining time, among those below `bound`. */
  function Shortest(s: Sched, q: seq<nat>, bound: int): (k: Option<nat>)
    ensures k.None? ==> forall j :: 0 <= j < |q| ==> Remaining(P(s, q[j])) >= bound
    ensures k.Some? ==>
              && k.value < |q| && Remaining(P(s, q[k.value])) < bound
              && (forall j :: 0 <= j < |q| ==> Remaining(P(s, q[k.value])) <= Remaining(P(s, q[j])))
              && (forall j :: 0 <= j < k.value ==> Remaining(P(s, q[k.value])) < Remaining(P(s, q[j])))
  {
    if q == [] then None
    else
      var n := |q| - 1;
      var k := Shortest(s, q[..n], bound);
      var least := if k.None? then bound else Remaining(P(s, q[k.value]));
      if Remaining(P(s, q[n])) < least then Some(n) else k
  }

  // ---------------------------------------------------------------- fork

  /** __fork_on_schedule from position `k` of the fork queue on. */
  function ForkFrom(s: Sched, k: nat): Sched
    decreases |s.forkq| - k
  {
    if k >= |s.forkq| then s
    else
      var p := s.forkq[k];
      if P(s, p).startsAt <= s.ticks then
        ForkFrom(SetStatus(s, p, Ready).(forkq := Without(s.forkq, k), ready := s.ready + [p]), k)
      else ForkFrom(s, k + 1)
  }

  // ---------------------------------------------------------------- schedule

  datatype Choice = Choice(s: Sched, next: Option<nat>)

  /** There is a current process and it is not blocked. */
  predicate Runnable(s: Sched) { s.current.Some? && P(s, s.current.value).status != Blocked }

  predicate CurrentAlive(s: Sched) { s.current.Some? && Alive(P(s, s.current.value)) }

  function Keep(s: Sched): Choice { Choice(s, s.current) }

  /** Detaches position `k` of the ready queue. */
  function Take(s: Sched, k: nat): Choice
    requires k < |s.ready|
  {
    Choice(s.(ready := Without(s.ready, k)), Some(s.ready[k]))
  }

  function Requeue(s: Sched): Sched
    requires s.current.Some?
  {
    s.(ready := s.ready + [s.current.value])
  }

  function FifoSchedule(s: Sched): Choice {
    if Runnable(s) && CurrentAlive(s) then Keep(s)
    else if s.ready == [] then Choice(s, None)
    else Take(s, 0)
  }

  function SjfSchedule(s: Sched): Choice {
    if Runnable(s) && CurrentAlive(s) then Keep(s)
    else if s.ready == [] then Choice(s, None)
    else Take(s, Best(Brevity(s, s.ready)))
  }

  /** As coded: a current that is blocked, or has finished, can be requeued or returned. */
  function StcfSchedule(s: Sched): Choice {
    if s.ready == [] then (if Runnable(s) && CurrentAlive(s) then Keep(s) else Choice(s, None))
    else
      var bound := if Runnable(s) && CurrentAlive(s) then Remaining(P(s, s.current.value)) else MAX_TC;
      var k := Shortest(s, s.ready, bound);
      if k.None? then Keep(s)
      else if CurrentAlive(s) then Take(Requeue(s), k.value)
      else Take(s, k.value)
  }

  /** As coded: a current that is blocked is requeued. */
  function RrSchedule(s: Sched): Choice {
    if s.ready == [] then (if Runnable(s) && CurrentAlive(s) then Keep(s) else Choice(s, None))
    else if CurrentAlive(s) then Take(Requeue(s), 0)
    else Take(s, 0)
  }

  function PrioSchedule(s: Sched): Choice {
    if s.ready == [] then (if Runnable(s) && CurrentAlive(s) then Keep(s) else Choice(s, None))
    else
      var k := Best(Prios(s, s.ready));
      if !Runnable(s) || !CurrentAlive(s) then Take(s, k)
      else if P(s, s.current.value).prio > P(s, s.ready[k]).prio then Keep(s)
      else Take(Requeue(s), k)
  }

  /** Every process on the ready queue gains one priority. */
  function Boost(s: Sched): Sched {
    s.(procs := seq(|s.procs|, i requires 0 <= i < |s.procs| =>
                      if i in s.ready then s.procs[i].(prio := s.procs[i].prio + 1) else s.procs[i]))
  }

  function PaSchedule(s: Sched): Choice {
    if s.ready == [] then (if Runnable(s) && CurrentAlive(s) then Keep(s) else Choice(s, None))
    else
      var b := Boost(s);
      var c := PrioSchedule(b);
      if c.next == s.current then c
      else c.(s := SetPrio(c.s, c.next.value, P(c.s, c.next.value).prioOrig))
  }

  function Schedule(policy: Policy, s: Sched): Choice {
    match policy
    case Fifo => FifoSchedule(s)
    case Sjf => SjfSchedule(s)
    case Stcf => StcfSchedule(s)
    case Rr => RrSchedule(s)
    case Pa => PaSchedule(s)
    case _ => PrioSchedule(s)
  }

  // ---------------------------------------------------------------- acquire and release

  predicate ByPriority(policy: Policy) { policy in {Prio, Pa, Pcp, Pip} }

  /** The policies' acquire callbacks, for the current process `c`. */
  function Acquire(policy: Policy, s: Sched, c: nat, r: ResId): (Sched, bool) {
    match s.res[r].owner
    case None =>
      var owned := SetRes(s, r, s.res[r].(owner := Some(c)));
      (if policy == Pcp then SetPrio(owned, c, MAX_PRIO) else owned, true)
    case Some(owner) =>
      var raised := if policy == Pip && P(s, owner).prio < P(s, c).prio then SetPrio(s, owner, P(s, c).prio) else s;
      (SetRes(SetStatus(raised, c, Blocked), r, s.res[r].(waitq := s.res[r].waitq + [c])), false)
  }

  /** Which waiter a release wakes: the first one, or the first of the highest priority. */
  function Waiter(policy: Policy, s: Sched, q: seq<nat>): (k: nat)
    requires q != []
    ensures k < |q|
  {
    if ByPriority(policy) then Best(Prios(s, q)) else 0
  }

  /** The policies' release callbacks. */
  function Release(policy: Policy, s: Sched, c: nat, r: ResId): Sched {
    var reset := if policy in {Pcp, Pip} then SetPrio(s, c, P(s, c).prioOrig) else s;
    var q := s.res[r].waitq;
    if q == [] then SetRes(reset, r, Resource(None, []))
    else
      var k := Waiter(policy, reset, q);
      SetRes(SetStatus(reset, q[k], Ready), r, Resource(None, Without(q, k))).(ready := s.ready + [q[k]])
  }

  /** Moves pending claim `k` to the tail of the holding list. */
  function MoveClaim(s: Sched, c: nat, k: nat): Sched {
    var p := P(s, c);
    if k >= |p.pending| then s
    else SetP(s, c, p.(pending := Without(p.pending, k), holding := p.holding + [p.pending[k]]))
  }

  /** __run_current_acquire from position `k` of the pending claims on; false when `c` gets blocked. */
  function AcquireFrom(policy: Policy, s: Sched, c: nat, k: nat): (Sched, bool)
    decreases |P(s, c).pending| - k
  {
    var p := P(s, c);
    if k >= |p.pending| then (s, true)
    else if p.pending[k].at != p.age then AcquireFrom(policy, s, c, k + 1)
    else
      var (s1, ok) := Acquire(policy, s, c, p.pending[k].res);
      if !ok then (s1, false) else AcquireFrom(policy, MoveClaim(s1, c, k), c, k)
  }

  /** __run_current_release from position `k` of the holding list on. */
  function ReleaseFrom(policy: Policy, s: Sched, c: nat, k: nat): Sched
    decreases |P(s, c).holding| - k
  {
    var p := P(s, c);
    if k >= |p.holding| then s
    else
      var h := p.holding[k].(left := Dec32(p.holding[k].left));
      if h.left != 0 then ReleaseFrom(policy, SetP(s, c, p.(holding := p.holding[k := h])), c, k + 1)
      else
        var s1 := Release(policy, s, c, h.res);
        var p1 := P(s1, c);
        if k >= |p1.holding| then s1
        else ReleaseFrom(policy, SetP(s1, c, p1.(holding := Without(p1.holding, k))), c, k)
  }

  // ---------------------------------------------------------------- one iteration of the loop

  /** What the loop does with the process that ran in the previous tick. */
  function Retire(s: Sched, prev: Option<nat>): Sched {
    if prev.None? then s
    else
      var i := prev.value;
      var s1 := if P(s, i).status == Running then SetStatus(s, i, Ready) else s;
      if P(s1, i).age == P(s1, i).lifespan then SetStatus(s1, i, Exited) else s1
  }

  function RunCurrent(policy: Policy, s: Sched, c: nat): Sched {
    var (s1, ok) := AcquireFrom(policy, s, c, 0);
    if !ok then s1 else ReleaseFrom(policy, SetP(s1, c, P(s1, c).(age := P(s1, c).age + 1)), c, 0)
  }

  /** Forking, scheduling and retiring: the state in which the chosen process is about to run. */
  function Dispatch(policy: Policy, s: Sched): Sched {
    var choice := Schedule(policy, ForkFrom(s, 0));
    var retired := Retire(choice.s, s.current).(current := choice.next);
    if choice.next.None? then retired else SetStatus(retired, choice.next.value, Running)
  }

  predicate Halts(s: Sched) { s.current.None? && s.ready == [] && s.forkq == [] }

  /** One iteration; when the loop ends, the state it ends in. */
  function Tick(policy: Policy, s: Sched): Sched {
    var d := Dispatch(policy, s);
    if Halts(d) then d
    else
      var ran := if d.current.None? then d else RunCurrent(policy, d, d.current.value);
      ran.(ticks := d.ticks + 1)
  }

  /** `n` iterations of the loop. */
  function Ticks(policy: Policy, s: Sched, n: nat): Sched
    decreases n
  {
    if n == 0 then s else Ticks(policy, Tick(policy, s), n - 1)
  }
}
