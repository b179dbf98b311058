/** The failures, from boot: for every branch of the guard a guarded trace that reaches it, what the
    simulator then answers and what the eager machine answers. */
module VmTraces {
  import opened Common
  import opened VmModel
  import opened VmEager
  import opened VmInvariant
  import opened VmTransparency
  import opened VmExact

  /** Running `trace` from `s`, with the guard met all along, leads to `t`. */
  ghost predicate Reaches(s: Vm, trace: seq<Command>, t: Vm)
    decreases |trace|
  {
    if trace == [] then s == t
    else
      && Guard(s, trace[0]) && !Ends(trace[0], Step(s, trace[0]).1)
      && Reaches(Step(s, trace[0]).0, trace[1..], t)
  }

  lemma {:induction false} ReachesMore(s: Vm, trace: seq<Command>, t: Vm, c: Command)
    requires Reaches(s, trace, t) && Guard(t, c) && !Ends(c, Step(t, c).1)
    ensures Reaches(s, trace + [c], Step(t, c).0)
    decreases |trace|
  {
    if trace == [] {
      assert trace + [c] == [c] && [c][1..] == [];
    } else {
      ReachesMore(Step(s, trace[0]).0, trace[1..], t, c);
      assert (trace + [c])[1..] == trace[1..] + [c];
    }
  }

  lemma {:induction false} ReachesDiffers(s: Vm, trace: seq<Command>, t: Vm, rest: seq<Command>)
    requires Good(s) && Reaches(s, trace, t) && Differs(t, View(t), rest)
    ensures Differs(s, View(s), trace + rest)
    decreases |trace|
  {
    hide Step, Guard, View, EagerStep, Good, Differs;
    if trace == [] {
      assert trace + rest == rest;
    } else {
      StepAgrees(s, trace[0]);
      ReachesDiffers(Step(s, trace[0]).0, trace[1..], t, rest);
      DiffersLater(s, View(s), trace[0], trace[1..] + rest);
      assert trace + rest == [trace[0]] + (trace[1..] + rest);
    }
  }

  /** A guarded trace from boot, and a continuation that shows a difference: the whole run shows it. */
  lemma DiffersFromBoot(mode: TlbMode, trace: seq<Command>, t: Vm, rest: seq<Command>)
    requires Reaches(Boot(mode), trace, t) && Differs(t, View(t), rest)
    ensures Differs(Boot(mode), View(Boot(mode)), trace + rest)
  {
    BootIsGood(mode);
    ReachesDiffers(Boot(mode), trace, t, rest);
  }

  lemma DiffersAtOnce(mode: TlbMode, trace: seq<Command>, t: Vm, c: Command)
    requires Reaches(Boot(mode), trace, t) && Step(t, c).1 != EagerStep(View(t), c).1
    ensures Differs(Boot(mode), View(Boot(mode)), trace + [c])
  {
    hide *;
    DiffersNow(t, View(t), c, []);
    assert [c] + [] == [c];
    DiffersFromBoot(mode, trace, t, [c]);
  }

  // ---------------------------------------------------------------- filling pages

  /** Pages `lo` to `hi` of `t` are in the frames of their numbers, with these bits; no other is mapped. */
  ghost predicate Filled(t: Table, lo: nat, hi: nat, rw: Flags, priv: Flags) {
    forall v: Vpn :: Entry(t, v) == if lo <= v < hi && v < 128 then Pte(true, rw, v, priv) else NO_PTE
  }

  ghost predicate Counted(s: Vm, n: nat, below: nat, above: nat) {
    forall f: Frame :: s.counts[f] == if f < n then below else above
  }

  function Allocs(n: nat): seq<Command>
    requires n <= 128
  {
    if n == 0 then [] else Allocs(n - 1) + [Alloc(n - 1, true)]
  }

  /** The state after `n` allocations at boot. */
  ghost predicate Fresh(s: Vm, mode: TlbMode, n: nat) {
    && Good(s) && s.mode == mode && s.tlb == [] && s.queue == [] && s.cur.pid == 0 && s.mem == NoMemory()
    && Filled(s.cur.table, 0, n, READ_WRITE, READ_WRITE) && Counted(s, n, 1, 0)
  }

  lemma {:induction false} FirstFreeIs(counts: seq<nat>, k: nat)
    requires k < |counts| && counts[k] == 0 && forall j :: 0 <= j < k ==> counts[j] != 0
    ensures FirstFree(counts) == k
  {
    var i := FirstFree(counts);
    assert i >= k;
  }

  lemma OneMorePage(s: Vm, mode: TlbMode, n: nat)
    requires Fresh(s, mode, n) && n < 128
    ensures var (t, o) := Step(s, Alloc(n, true)); Guard(s, Alloc(n, true)) && o == Done && Fresh(t, mode, n + 1)
  {
    var p := Pte(true, READ_WRITE, n, READ_WRITE);
    TranslateGood(s, n, ACCESS_READ);
    forall j | 0 <= j < n
      ensures s.counts[j] != 0
    {
      var f: Frame := j;
      assert s.counts[f] == 1;
    }
    var f: Frame := n;
    assert s.counts[f] == 0;
    FirstFreeIs(s.counts, n);
    StepAgrees(s, Alloc(n, true));
    SetEntryIsUpdate(s.cur.table, n, p);
    var t := Step(s, Alloc(n, true)).0;
    assert t.mem == NoMemory();
  }

  lemma {:induction false} Allocated(mode: TlbMode, n: nat) returns (t: Vm)
    requires n <= 128
    ensures Reaches(Boot(mode), Allocs(n), t) && Fresh(t, mode, n)
  {
    if n == 0 {
      BootIsGood(mode);
      t := Boot(mode);
      assert forall f: Frame :: t.counts[f] == 0;
    } else {
      var s := Allocated(mode, n - 1);
      hide Step, Guard, Fresh;
      OneMorePage(s, mode, n - 1);
      ReachesMore(Boot(mode), Allocs(n - 1), s, Alloc(n - 1, true));
      t := Step(s, Alloc(n - 1, true)).0;
    }
  }

  // ---------------------------------------------------------------- writes that never should be served

  /** A write right after boot dereferences a null directory. */
  lemma NullDirectoryCrashes(mode: TlbMode, value: int)
    ensures var s, c := Boot(mode), Access(0, ACCESS_WRITE, value);
      Step(s, c).1 == Crash && EagerStep(View(s), c).1 == Refused
    ensures Differs(Boot(mode), View(Boot(mode)), [Access(0, ACCESS_WRITE, value)])
  {
    var s := Boot(mode);
    assert Entry(s.cur.table, 0) == NO_PTE;
    DiffersAtOnce(mode, [], s, Access(0, ACCESS_WRITE, value));
    assert [] + [Access(0, ACCESS_WRITE, value)] == [Access(0, ACCESS_WRITE, value)];
  }

  /** alloc 0, write 1: the write to a page that is not there reports success. */
  lemma WildWriteSucceeds(mode: TlbMode, value: int) returns (s: Vm)
    ensures Reaches(Boot(mode), Allocs(1), s)
    ensures var c := Access(1, ACCESS_WRITE, value); Step(s, c).1 == Done && EagerStep(View(s), c).1 == Refused
    ensures Differs(Boot(mode), View(Boot(mode)), Allocs(1) + [Access(1, ACCESS_WRITE, value)])
  {
    s := Allocated(mode, 1);
    TranslateGood(s, 1, ACCESS_WRITE);
    var f: Frame := 0;
    assert s.counts[f] == 1;
    assert Entry(s.cur.table, 1) == NO_PTE && Entry(s.cur.table, 0).valid && s.cur.table[0].Some?;
    var p := NO_PTE.(rw := READ_WRITE, priv := ACCESS_WRITE);
    SetEntryIsUpdate(s.cur.table, 1, p);
    var s2 := HandlePageFault(s, 1, ACCESS_WRITE).0;
    assert Entry(s2.cur.table, 1) == p && s2.tlb == [];
    DiffersAtOnce(mode, Allocs(1), s, Access(1, ACCESS_WRITE, value));
  }

  // ---------------------------------------------------------------- after a fork

  /** Process 0 has filled `n` pages and forked process 1. */
  ghost predicate Shared2(s: Vm, mode: TlbMode, n: nat) {
    && Good(s) && s.mode == mode && s.tlb == [] && s.mem == NoMemory()
    && s.cur.pid == 1 && |s.queue| == 1 && s.queue[0].pid == 0
    && Filled(s.cur.table, 0, n, ACCESS_READ, READ_WRITE) && Filled(s.queue[0].table, 0, n, ACCESS_READ, READ_WRITE)
    && Counted(s, n, 2, 0)
  }

  lemma ForkFresh(s: Vm, mode: TlbMode, n: nat)
    requires Fresh(s, mode, n) && n <= 128
    ensures Shared2(SwitchProcess(s, 1), mode, n)
  {
    var t := SwitchProcess(s, 1);
    ProtectedEntries(s.cur.table, s.counts);
    forall f: Frame
      ensures t.counts[f] == if f < n then 2 else 0
    {
      assert s.counts[f] == TotalRefs(s, f);
    }
    StepAgrees(s, Switch(1));
  }

  function ForkTrace(n: nat): seq<Command>
    requires n <= 128
  {
    Allocs(n) + [Switch(1)]
  }

  lemma ForkReached(mode: TlbMode, n: nat) returns (t: Vm)
    requires n <= 128
    ensures Reaches(Boot(mode), ForkTrace(n), t) && Shared2(t, mode, n)
  {
    var s := Allocated(mode, n);
    ForkFresh(s, mode, n);
    ReachesMore(Boot(mode), Allocs(n), s, Switch(1));
    t := SwitchProcess(s, 1);
  }

  /** alloc 0, switch 1, access 0 w: the access asks for both bits and is refused. */
  lemma BothBitsRefused(mode: TlbMode, value: int) returns (s: Vm)
    ensures Reaches(Boot(mode), ForkTrace(1), s)
    ensures var c := Access(0, READ_WRITE, value); Step(s, c).1 == Refused && EagerStep(View(s), c).1 == Done
    ensures Differs(Boot(mode), View(Boot(mode)), ForkTrace(1) + [Access(0, READ_WRITE, value)])
  {
    s := ForkReached(mode, 1);
    TranslateGood(s, 0, READ_WRITE);
    assert Entry(s.cur.table, 0) == Pte(true, ACCESS_READ, 0, READ_WRITE);
    DiffersAtOnce(mode, ForkTrace(1), s, Access(0, READ_WRITE, value));
  }

  lemma NoneFree(s: Vm)
    requires Counted(s, 128, 2, 0)
    ensures !FreeFrame(s)
  {
    assert forall f: Frame :: s.counts[f] == 2;
  }

  lemma ParentReads(s: Vm, s1: Vm, value: int)
    requires |s.queue| == 1 && s.queue[0].pid == 0
      && Entry(s.queue[0].table, 0) == Pte(true, ACCESS_READ, 0, READ_WRITE)
    requires s1.queue == s.queue && s1.mem == s.mem[0 := value] && s.mem[0] == 0
    ensures Step(Step(s1, Switch(0)).0, Access(0, ACCESS_READ, 0)).1 == Loaded(value)
    ensures forall p: Option<Page> ::
      EagerStep(EagerStep(SetPage(View(s), 0, p), Switch(0)).0, Access(0, ACCESS_READ, 0)).1 == Loaded(0)
  {
    assert FindPid(s.queue, 0) == 0;
    SameFind(s.queue, View(s).queue, 0);
  }

  lemma SwitchesDone(s: Vm, e: Eager, pid: nat)
    ensures Step(s, Switch(pid)).1 == EagerStep(e, Switch(pid)).1 == Done
  {
  }

  /** The three commands of the next lemma, as one continuation from boot. */
  lemma ParentDiffers(mode: TlbMode, s: Vm, value: int)
    requires Reaches(Boot(mode), ForkTrace(128), s) && value != 0
    requires var s1 := Step(s, Access(0, ACCESS_WRITE, value)).0; var s2 := Step(s1, Switch(0)).0;
      && Step(s, Access(0, ACCESS_WRITE, value)).1 == Done && Step(s2, Access(0, ACCESS_READ, 0)).1 == Loaded(value)
    requires var e1 := EagerStep(View(s), Access(0, ACCESS_WRITE, value)).0; var e2 := EagerStep(e1, Switch(0)).0;
      && EagerStep(View(s), Access(0, ACCESS_WRITE, value)).1 == Done
      && EagerStep(e2, Access(0, ACCESS_READ, 0)).1 == Loaded(0)
    ensures Differs(Boot(mode), View(Boot(mode)),
      ForkTrace(128) + ([Access(0, ACCESS_WRITE, value)] + ([Switch(0)] + [Access(0, ACCESS_READ, 0)])))
  {
    hide Step, EagerStep, Differs, View, Reaches, ForkTrace, Boot;
    var w, c, r := Access(0, ACCESS_WRITE, value), Switch(0), Access(0, ACCESS_READ, 0);
    var s1, e1 := Step(s, w).0, EagerStep(View(s), w).0;
    SwitchesDone(s1, e1, 0);
    DiffersNow(Step(s1, c).0, EagerStep(e1, c).0, r, []);
    assert [r] + [] == [r];
    DiffersLater(s1, e1, c, [r]);
    DiffersLater(s, View(s), w, [c] + [r]);
    DiffersFromBoot(mode, ForkTrace(128), s, [w] + ([c] + [r]));
  }

  /** 128 allocs, switch 1, write 0, switch 0, read 0: with no frame for the copy the parent reads what
      the child wrote. */
  lemma ParentReadsChild(mode: TlbMode, value: int) returns (s: Vm)
    requires value != 0
    ensures Reaches(Boot(mode), ForkTrace(128), s)
    ensures var s1 := Step(s, Access(0, ACCESS_WRITE, value)).0; var s2 := Step(s1, Switch(0)).0;
      && Step(s, Access(0, ACCESS_WRITE, value)).1 == Done && Step(s2, Access(0, ACCESS_READ, 0)).1 == Loaded(value)
    ensures var e1 := EagerStep(View(s), Access(0, ACCESS_WRITE, value)).0; var e2 := EagerStep(e1, Switch(0)).0;
      && EagerStep(View(s), Access(0, ACCESS_WRITE, value)).1 == Done
      && EagerStep(e2, Access(0, ACCESS_READ, 0)).1 == Loaded(0)
    ensures Differs(Boot(mode), View(Boot(mode)),
      ForkTrace(128) + ([Access(0, ACCESS_WRITE, value)] + ([Switch(0)] + [Access(0, ACCESS_READ, 0)])))
  {
    s := ForkReached(mode, 128);
    var f: Frame := 0;
    assert s.counts[f] == 2 && Entry(s.cur.table, 0).pfn == 0 && Shared(s, 0);
    NoneFree(s);
    ExhaustedTranslation(s, 0);
    AccessAfterCopy(s, 0, value);
    EagerWrites(s, 0, value);
    assert Entry(s.queue[0].table, 0) == Pte(true, ACCESS_READ, 0, READ_WRITE);
    ParentReads(s, Step(s, Access(0, ACCESS_WRITE, value)).0, value);
    ParentDiffers(mode, s, value);
  }

  // ---------------------------------------------------------------- the TLB as coded

  /** A read that misses appends the page's entry. */
  lemma ReadCaches(s: Vm, v: Vpn)
    requires Good(s) && s.mode == Coded && Entry(s.cur.table, v).valid && |s.tlb| + 1 < NR_TLB_ENTRIES
    requires forall j :: 0 <= j < |s.tlb| ==> s.tlb[j].vpn != v
    ensures var p := Entry(s.cur.table, v); var c := Access(v, ACCESS_READ, 0);
      && Guard(s, c) && Step(s, c) == (s.(tlb := s.tlb + [TlbEntry(p.rw, v, p.pfn)]), Loaded(s.mem[p.pfn]))
      && Good(Step(s, c).0)
  {
    LookupFound(s.tlb, v, ACCESS_READ);
    var p := Entry(s.cur.table, v);
    assert Slot(Coded, s.tlb, v, p.rw) == |s.tlb|;
    StepAgrees(s, Access(v, ACCESS_READ, 0));
  }

  lemma HangsOn(s: Vm, v: Vpn)
    requires Good(s) && s.mode == Coded && Entry(s.cur.table, v).valid && |s.tlb| == 2
    requires s.tlb[0].vpn != v && s.tlb[1].vpn == v
    ensures Step(s, Free(v)).1 == Hang && EagerStep(View(s), Free(v)).1 == Done
  {
    LookupFound(s.tlb, v, ACCESS_READ);
    assert GoodCached(s.mode, s.tlb[1], s.cur.table);
    TranslateGood(s, v, ACCESS_READ);
  }

  /** alloc 0, alloc 1, read 0, read 1, free 1: the search for the entry to remove does not end. */
  lemma FreeHangs() returns (s: Vm)
    ensures Reaches(Boot(Coded), Allocs(2) + [Access(0, ACCESS_READ, 0)] + [Access(1, ACCESS_READ, 0)], s)
    ensures Step(s, Free(1)).1 == Hang && EagerStep(View(s), Free(1)).1 == Done
    ensures Differs(Boot(Coded), View(Boot(Coded)),
      Allocs(2) + [Access(0, ACCESS_READ, 0)] + [Access(1, ACCESS_READ, 0)] + [Free(1)])
  {
    var a := Allocated(Coded, 2);
    ReadCaches(a, 0);
    var b := Step(a, Access(0, ACCESS_READ, 0)).0;
    ReadCaches(b, 1);
    s := Step(b, Access(1, ACCESS_READ, 0)).0;
    ReachesMore(Boot(Coded), Allocs(2), a, Access(0, ACCESS_READ, 0));
    ReachesMore(Boot(Coded), Allocs(2) + [Access(0, ACCESS_READ, 0)], b, Access(1, ACCESS_READ, 0));
    HangsOn(s, 1);
    DiffersAtOnce(Coded, Allocs(2) + [Access(0, ACCESS_READ, 0)] + [Access(1, ACCESS_READ, 0)], s, Free(1));
  }

  // ---------------------------------------------------------------- two entries for one page

  /** The child has freed the first `k` of the `n` pages it shares. */
  ghost predicate ChildFreed(s: Vm, n: nat, k: nat) {
    && Good(s) && s.mode == Coded && s.tlb == [] && s.cur.pid == 1 && |s.queue| == 1 && s.queue[0].pid == 0
    && Filled(s.cur.table, k, n, ACCESS_READ, READ_WRITE) && Filled(s.queue[0].table, 0, n, ACCESS_READ, READ_WRITE)
    && (forall f: Frame :: s.counts[f] == if f < k then 1 else if f < n then 2 else 0)
  }

  lemma ChildFrees(s: Vm, n: nat, k: nat)
    requires ChildFreed(s, n, k) && k < n <= 128
    ensures Guard(s, Free(k)) && Step(s, Free(k)).1 == Done && ChildFreed(Step(s, Free(k)).0, n, k + 1)
  {
    hide Good;
    var p := Entry(s.cur.table, k);
    assert p == Pte(true, ACCESS_READ, k, READ_WRITE);
    TranslateGood(s, k, ACCESS_READ);
    StepAgrees(s, Free(k));
    SetEntryIsUpdate(s.cur.table, k, NO_PTE);
    var s1, e := Translate(s, ACCESS_READ, k).0, TlbEntry(ACCESS_READ, k, k);
    assert s1.tlb == [e] && FindVpn([e], k) == 0 && Without([e], 0) == [];
    assert s.cur.table[k / 16].Some?;
  }

  function FreeTrace(n: nat, k: nat): seq<Command>
    requires k <= n <= 128
  {
    if k == 0 then ForkTrace(n) else FreeTrace(n, k - 1) + [Free(k - 1)]
  }

  lemma {:induction false} FreedReached(n: nat, k: nat) returns (t: Vm)
    requires k <= n <= 128
    ensures Reaches(Boot(Coded), FreeTrace(n, k), t) && ChildFreed(t, n, k)
  {
    if k == 0 {
      t := ForkReached(Coded, n);
    } else {
      var s := FreedReached(n, k - 1);
      hide Step, Guard, ChildFreed;
      ChildFrees(s, n, k - 1);
      ReachesMore(Boot(Coded), FreeTrace(n, k - 1), s, Free(k - 1));
      t := Step(s, Free(k - 1)).0;
    }
  }

  /** Back in the parent, which has read the first `k` pages and cached them read-only. */
  ghost predicate ParentRead(s: Vm, n: nat, k: nat) {
    && Good(s) && s.mode == Coded && Filled(s.cur.table, 0, n, ACCESS_READ, READ_WRITE) && Counted(s, n, 1, 0)
    && |s.tlb| == k && forall j: Vpn :: j < k && j < 128 ==> s.tlb[j] == TlbEntry(ACCESS_READ, j, j)
  }

  lemma SwitchesBack(s: Vm, n: nat, pid: nat)
    requires ChildFreed(s, n, n) && pid == 0
    ensures Guard(s, Switch(pid)) && Step(s, Switch(pid)).1 == Done && ParentRead(Step(s, Switch(pid)).0, n, 0)
  {
    StepAgrees(s, Switch(pid));
    assert FindPid(s.queue, pid) == 0;
  }

  lemma ParentReadsNext(s: Vm, n: nat, k: nat)
    requires ParentRead(s, n, k) && k < n <= 128
    ensures var c := Access(k, ACCESS_READ, 0);
      Guard(s, c) && Step(s, c).1.Loaded? && ParentRead(Step(s, c).0, n, k + 1)
  {
    forall j | 0 <= j < |s.tlb|
      ensures s.tlb[j].vpn != k
    {
      var v: Vpn := j;
      assert s.tlb[v] == TlbEntry(ACCESS_READ, v, v);
    }
    assert Entry(s.cur.table, k) == Pte(true, ACCESS_READ, k, READ_WRITE);
    ReadCaches(s, k);
  }

  function ReadTrace(n: nat, k: nat): seq<Command>
    requires k <= n <= 128
  {
    if k == 0 then FreeTrace(n, n) + [Switch(0)] else ReadTrace(n, k - 1) + [Access(k - 1, ACCESS_READ, 0)]
  }

  lemma {:induction false} ReadReached(n: nat, k: nat) returns (t: Vm)
    requires k <= n <= 128
    ensures Reaches(Boot(Coded), ReadTrace(n, k), t) && ParentRead(t, n, k)
  {
    if k == 0 {
      var s := FreedReached(n, n);
      hide Step, Guard, ChildFreed;
      SwitchesBack(s, n, 0);
      ReachesMore(Boot(Coded), FreeTrace(n, n), s, Switch(0));
      t := Step(s, Switch(0)).0;
    } else {
      var s := ReadReached(n, k - 1);
      var c := Access(k - 1, ACCESS_READ, 0);
      hide Step, Guard, ParentRead;
      ParentReadsNext(s, n, k - 1);
      ReachesMore(Boot(Coded), ReadTrace(n, k - 1), s, c);
      t := Step(s, c).0;
    }
  }

  /** The parent has written the first `k` pages in place: each is cached once more, read-write. */
  ghost predicate ParentWrote(s: Vm, n: nat, k: nat) {
    && Good(s) && s.mode == Coded && Counted(s, n, 1, 0)
    && (forall v: Vpn :: Entry(s.cur.table, v) ==
          if v < k && v < n && v < 128 then Pte(true, READ_WRITE, v, ACCESS_WRITE)
          else if v < n && v < 128 then Pte(true, ACCESS_READ, v, READ_WRITE)
          else NO_PTE)
    && |s.tlb| == n + k
    && (forall j: Vpn :: j < n && j < 128 ==> s.tlb[j] == TlbEntry(ACCESS_READ, j, j))
    && (forall j: Vpn :: j < k && j < 128 ==> s.tlb[n + j] == TlbEntry(READ_WRITE, j, j))
  }

  lemma OnlyReadable(s: Vm, n: nat, k: nat)
    requires ParentWrote(s, n, k) && k < n <= 128
    ensures LastSharer(s, k) && forall j :: 0 <= j < |s.tlb| && s.tlb[j].vpn == k ==> s.tlb[j].rw == ACCESS_READ
  {
    var f: Frame := k;
    assert s.counts[f] == 1;
    forall j | 0 <= j < |s.tlb|
      ensures s.tlb[j].vpn != k || s.tlb[j].rw == ACCESS_READ
    {
      var v: Vpn := if j < n then j else j - n;
      assert j < n ==> s.tlb[v] == TlbEntry(ACCESS_READ, v, v);
      assert j >= n ==> s.tlb[n + v] == TlbEntry(READ_WRITE, v, v);
    }
  }

  /** A write that upgrades in place, below a read-only entry. */
  lemma UpgradeCaches(s: Vm, v: Vpn, value: int)
    requires Good(s) && s.mode == Coded && LastSharer(s, v)
    requires forall j :: 0 <= j < |s.tlb| && s.tlb[j].vpn == v ==> s.tlb[j].rw == ACCESS_READ
    ensures var c := Access(v, ACCESS_WRITE, value); var p := Entry(s.cur.table, v);
      if |s.tlb| + 1 < NR_TLB_ENTRIES then
        && Guard(s, c) && Good(Step(s, c).0)
        && Step(s, c) == (Upgraded(s, v).(tlb := s.tlb + [TlbEntry(READ_WRITE, v, p.pfn)],
          mem := s.mem[p.pfn := value]), Done)
      else Step(s, c).1 == Overrun
  {
    LookupFound(s.tlb, v, ACCESS_WRITE);
    UpgradedTranslation(s, v);
    UpgradeIsGood(s, v);
    AccessAfterUpgrade(s, v, value);
    assert Slot(Coded, s.tlb, v, READ_WRITE) == |s.tlb|;
    SetEntryIsUpdate(s.cur.table, v, Entry(s.cur.table, v).(rw := READ_WRITE, priv := ACCESS_WRITE));
    if |s.tlb| + 1 < NR_TLB_ENTRIES {
      StepAgrees(s, Access(v, ACCESS_WRITE, value));
    }
  }

  lemma ParentWritesNext(s: Vm, n: nat, k: nat, value: int)
    requires ParentWrote(s, n, k) && k < n <= 128 && n + k < 255
    ensures var c := Access(k, ACCESS_WRITE, value);
      Guard(s, c) && Step(s, c).1 == Done && ParentWrote(Step(s, c).0, n, k + 1) && Step(s, c).0.mem[k] == value
  {
    hide Good;
    OnlyReadable(s, n, k);
    UpgradeCaches(s, k, value);
    SetEntryIsUpdate(s.cur.table, k, Entry(s.cur.table, k).(rw := READ_WRITE, priv := ACCESS_WRITE));
  }

  function WriteTrace(n: nat, k: nat, value: int): seq<Command>
    requires k <= n <= 128
  {
    if k == 0 then ReadTrace(n, n) else WriteTrace(n, k - 1, value) + [Access(k - 1, ACCESS_WRITE, value)]
  }

  lemma {:induction false} WriteReached(n: nat, k: nat, value: int) returns (t: Vm)
    requires k <= n <= 128 && n + k <= 255
    ensures Reaches(Boot(Coded), WriteTrace(n, k, value), t) && ParentWrote(t, n, k)
      && (k > 0 ==> t.mem[k - 1] == value)
  {
    if k == 0 {
      t := ReadReached(n, n);
    } else {
      var s := WriteReached(n, k - 1, value);
      var c := Access(k - 1, ACCESS_WRITE, value);
      hide Step, Guard, ParentWrote;
      ParentWritesNext(s, n, k - 1, value);
      ReachesMore(Boot(Coded), WriteTrace(n, k - 1, value), s, c);
      t := Step(s, c).0;
    }
  }

  lemma FreedPageDiffers(s: Vm, value: int)
    requires Reaches(Boot(Coded), WriteTrace(1, 1, value), s)
    requires Step(s, Free(0)).1 == Done && EagerStep(View(s), Free(0)).1 == Done
    requires Step(Step(s, Free(0)).0, Access(0, ACCESS_READ, 0)).1 == Loaded(value)
    requires EagerStep(EagerStep(View(s), Free(0)).0, Access(0, ACCESS_READ, 0)).1 == Refused
    ensures Differs(Boot(Coded), View(Boot(Coded)), WriteTrace(1, 1, value) + ([Free(0)] + [Access(0, ACCESS_READ, 0)]))
  {
    hide Step, EagerStep, Differs, View, Reaches, WriteTrace, Boot;
    var c, r := Free(0), Access(0, ACCESS_READ, 0);
    DiffersNow(Step(s, c).0, EagerStep(View(s), c).0, r, []);
    assert [r] + [] == [r];
    DiffersLater(s, View(s), c, [r]);
    DiffersFromBoot(Coded, WriteTrace(1, 1, value), s, [c] + [r]);
  }

  /** alloc 0, switch 1, free 0, switch 0, read 0, write 0, free 0, read 0: the freed page is still read. */
  lemma FreedPageIsRead(value: int) returns (s: Vm)
    ensures Reaches(Boot(Coded), WriteTrace(1, 1, value), s)
    ensures Step(s, Free(0)).1 == Done && EagerStep(View(s), Free(0)).1 == Done
    ensures Step(Step(s, Free(0)).0, Access(0, ACCESS_READ, 0)).1 == Loaded(value)
    ensures EagerStep(EagerStep(View(s), Free(0)).0, Access(0, ACCESS_READ, 0)).1 == Refused
    ensures Differs(Boot(Coded), View(Boot(Coded)), WriteTrace(1, 1, value) + ([Free(0)] + [Access(0, ACCESS_READ, 0)]))
  {
    hide Good;
    s := WriteReached(1, 1, value);
    var r, w := TlbEntry(ACCESS_READ, 0, 0), TlbEntry(READ_WRITE, 0, 0);
    assert s.tlb[0 as Vpn] == r && s.tlb[1 + 0 as Vpn] == w && s.tlb == [r, w];
    assert Entry(s.cur.table, 0) == Pte(true, READ_WRITE, 0, ACCESS_WRITE);
    assert FindVpn(s.tlb, 0) == 0 && Without(s.tlb, 0) == [w];
    assert Translate(s, ACCESS_READ, 0) == (s, Hit(0)) && s.cur.table[0].Some?;
    FreedPageDiffers(s, value);
  }

  /** 128 pages read and then 127 of them written: the write of the last one leaves the TLB array. */
  lemma TlbOverruns(value: int) returns (s: Vm)
    ensures Reaches(Boot(Coded), WriteTrace(128, 127, value), s)
    ensures var c := Access(127, ACCESS_WRITE, value); Step(s, c).1 == Overrun && EagerStep(View(s), c).1 == Done
    ensures Differs(Boot(Coded), View(Boot(Coded)), WriteTrace(128, 127, value) + [Access(127, ACCESS_WRITE, value)])
  {
    s := WriteReached(128, 127, value);
    OnlyReadable(s, 128, 127);
    UpgradeCaches(s, 127, value);
    DiffersAtOnce(Coded, WriteTrace(128, 127, value), s, Access(127, ACCESS_WRITE, value));
  }
}
