/** What the invariant and the simulation give a reader: conservation of references, private writes,
    bounds, and what the TLB changes. */
module VmResults {
  import opened Common
  import opened VmModel
  import opened VmEager
  import opened VmInvariant
  import opened VmTransparency

  // ---------------------------------------------------------------- conservation

  function ValidPtes(ptes: seq<Pte>): nat {
    if ptes == [] then 0 else ValidPtes(ptes[..|ptes| - 1]) + (if ptes[|ptes| - 1].valid then 1 else 0)
  }

  function QueueValid(q: seq<Process>): nat {
    if q == [] then 0 else QueueValid(q[..|q| - 1]) + ValidPtes(Flat(q[|q| - 1].table))
  }

  function AllValid(s: Vm): nat { ValidPtes(Flat(s.cur.table)) + QueueValid(s.queue) }

  /** References to the first `n` frames. */
  function RefsBelow(ptes: seq<Pte>, n: nat): nat {
    if n == 0 then 0 else RefsBelow(ptes, n - 1) + Refs(ptes, n - 1)
  }

  function QueueRefsBelow(q: seq<Process>, n: nat): nat {
    if n == 0 then 0 else QueueRefsBelow(q, n - 1) + QueueRefs(q, n - 1)
  }

  lemma {:induction false} RefsBelowSnoc(ptes: seq<Pte>, p: Pte, n: nat)
    ensures RefsBelow(ptes + [p], n) == RefsBelow(ptes, n) + (if p.valid && p.pfn < n then 1 else 0)
  {
    if n > 0 {
      RefsBelowSnoc(ptes, p, n - 1);
      assert (ptes + [p])[..|ptes|] == ptes;
    }
  }

  lemma {:induction false} RefsBelowNil(n: nat)
    ensures RefsBelow([], n) == 0 && QueueRefsBelow([], n) == 0
  {
    if n > 0 {
      RefsBelowNil(n - 1);
    }
  }

  /** Counting PTEs frame by frame counts each valid PTE once. */
  lemma {:induction false} RefsBelowAll(ptes: seq<Pte>)
    ensures RefsBelow(ptes, NR_PAGEFRAMES) == ValidPtes(ptes)
  {
    if ptes == [] {
      RefsBelowNil(NR_PAGEFRAMES);
    } else {
      var n := |ptes| - 1;
      RefsBelowAll(ptes[..n]);
      RefsBelowSnoc(ptes[..n], ptes[n], NR_PAGEFRAMES);
      assert ptes[..n] + [ptes[n]] == ptes;
    }
  }

  lemma {:induction false} QueueRefsBelowSnoc(q: seq<Process>, p: Process, n: nat)
    ensures QueueRefsBelow(q + [p], n) == QueueRefsBelow(q, n) + RefsBelow(Flat(p.table), n)
  {
    if n > 0 {
      QueueRefsBelowSnoc(q, p, n - 1);
      QueueRefsAppend(q, p, n - 1);
    }
  }

  lemma {:induction false} QueueRefsBelowAll(q: seq<Process>)
    ensures QueueRefsBelow(q, NR_PAGEFRAMES) == QueueValid(q)
  {
    if q == [] {
      RefsBelowNil(NR_PAGEFRAMES);
    } else {
      var n := |q| - 1;
      QueueRefsBelowAll(q[..n]);
      QueueRefsBelowSnoc(q[..n], q[n], NR_PAGEFRAMES);
      RefsBelowAll(Flat(q[n].table));
      assert q[..n] + [q[n]] == q;
    }
  }

  lemma {:induction false} SumBelow(s: Vm, n: nat)
    requires Conserved(s) && n <= NR_PAGEFRAMES
    ensures Sum(s.counts[..n]) == RefsBelow(Flat(s.cur.table), n) + QueueRefsBelow(s.queue, n)
  {
    if n > 0 {
      SumBelow(s, n - 1);
      var f: Frame := n - 1;
      assert s.counts[..n][..n - 1] == s.counts[..n - 1];
      assert s.counts[f] == TotalRefs(s, f);
    }
  }

  /** The reference counts add up to the number of valid PTEs of all processes. */
  lemma CountsSumToValidPtes(s: Vm)
    requires Good(s)
    ensures Sum(s.counts) == AllValid(s)
  {
    assert s.counts[..NR_PAGEFRAMES] == s.counts;
    SumBelow(s, NR_PAGEFRAMES);
    RefsBelowAll(Flat(s.cur.table));
    QueueRefsBelowAll(s.queue);
  }

  // ---------------------------------------------------------------- bounds

  lemma TableMapsOnce(t: Table, counts: Counts, f: nat)
    requires GoodTable(t, counts)
    ensures Refs(Flat(t), f) <= 1
  {
    var flat := Flat(t);
    forall i, j | 0 <= i < j < |flat| && flat[i].valid && flat[j].valid
      ensures flat[i].pfn != flat[j].pfn
    {
      var v: Vpn, w: Vpn := i, j;
      assert Entry(t, v).pfn != Entry(t, w).pfn;
    }
    RefsAtMostOne(flat, f);
  }

  lemma {:induction false} QueueMapsOnce(q: seq<Process>, counts: Counts, f: nat)
    requires forall i :: 0 <= i < |q| ==> GoodTable(q[i].table, counts)
    ensures QueueRefs(q, f) <= |q|
  {
    if q != [] {
      QueueMapsOnce(q[..|q| - 1], counts, f);
      TableMapsOnce(q[|q| - 1].table, counts, f);
    }
  }

  /** No frame is counted more often than there are processes. */
  lemma CountsBoundedByProcesses(s: Vm)
    requires Good(s)
    ensures forall f: Frame :: s.counts[f] <= |s.queue| + 1
  {
    forall f: Frame
      ensures s.counts[f] <= |s.queue| + 1
    {
      TableMapsOnce(s.cur.table, s.counts, f);
      QueueMapsOnce(s.queue, s.counts, f);
    }
  }

  lemma {:induction false} RefsBelowBounded(t: Table, counts: Counts, n: nat)
    requires GoodTable(t, counts)
    ensures RefsBelow(Flat(t), n) <= n
  {
    if n > 0 {
      RefsBelowBounded(t, counts, n - 1);
      TableMapsOnce(t, counts, n - 1);
    }
  }

  /** A process maps at most 128 of its 256 pages, and the TLB of the documentation fits them. */
  lemma TableBounded(s: Vm)
    requires Good(s)
    ensures ValidPtes(Flat(s.cur.table)) <= NR_PAGEFRAMES
    ensures forall i :: 0 <= i < |s.queue| ==> ValidPtes(Flat(s.queue[i].table)) <= NR_PAGEFRAMES
    ensures s.mode == Documented ==> |s.tlb| <= NR_PAGEFRAMES
  {
    RefsBelowBounded(s.cur.table, s.counts, NR_PAGEFRAMES);
    RefsBelowAll(Flat(s.cur.table));
    forall i | 0 <= i < |s.queue|
      ensures ValidPtes(Flat(s.queue[i].table)) <= NR_PAGEFRAMES
    {
      RefsBelowBounded(s.queue[i].table, s.counts, NR_PAGEFRAMES);
      RefsBelowAll(Flat(s.queue[i].table));
    }
    if s.mode == Documented {
      forall j | 0 <= j < |s.tlb|
        ensures Entry(s.cur.table, s.tlb[j].vpn).valid
      {
        assert GoodCached(s.mode, s.tlb[j], s.cur.table);
      }
      DistinctFits(s);
    }
  }

  // ---------------------------------------------------------------- writes are private

  /** No PTE of another process, and no other PTE of the current one, maps frame `f`. */
  ghost predicate OnlyMappedBy(s: Vm, v: Vpn, f: Frame) {
    && Entry(s.cur.table, v).valid && Entry(s.cur.table, v).pfn == f
    && (forall w: Vpn :: w != v && Entry(s.cur.table, w).valid ==> Entry(s.cur.table, w).pfn != f)
    && (forall i, w: Vpn ::
      0 <= i < |s.queue| && Entry(s.queue[i].table, w).valid ==> Entry(s.queue[i].table, w).pfn != f)
  }

  lemma CopyTranslates(s: Vm, v: Vpn)
    ensures var (s3, t) := Translate(CopyPage(s, v), ACCESS_WRITE, v); s3 == CopyPage(s, v).(tlb := s3.tlb)
  {
    hide CopyPage;
  }

  lemma GoodHasPages(s: Vm)
    requires Good(s)
    ensures GoodPages(s)
  {
  }

  lemma WrittenCopy(s: Vm, v: Vpn, value: int)
    requires Good(s) && FreeFrame(s) && Shared(s, v) && Uncached(s, v) && Room(s, v, ACCESS_WRITE)
    ensures var s' := Step(s, Access(v, ACCESS_WRITE, value)).0;
      var p := Entry(s'.cur.table, v);
      p.rw == READ_WRITE && s'.mem == s.mem[p.pfn := value] && s.counts[p.pfn] == 0
  {
    hide CopyPage, Translate, Step, Good;
    var s2, f := CopyPage(s, v), FirstFree(s.counts);
    GoodHasPages(s);
    CopyIsPrivate(s, v);
    AccessAfterCopy(s, v, value);
    FreshTranslation(s, v);
    CopyTranslates(s, v);
    assert s2.mem == s.mem[f := s.mem[Entry(s.cur.table, v).pfn]];
    assert s2.mem[f := value] == s.mem[f := value];
  }

  lemma WritableAfterWrite(s: Vm, v: Vpn, value: int)
    requires Good(s) && Guard(s, Access(v, ACCESS_WRITE, value)) && Entry(s.cur.table, v).valid
    requires Entry(s.cur.table, v).priv != ACCESS_READ
    ensures var s' := Step(s, Access(v, ACCESS_WRITE, value)).0;
      var p := Entry(s'.cur.table, v);
      p.rw == READ_WRITE && s'.mem == s.mem[p.pfn := value]
        && (p.pfn == Entry(s.cur.table, v).pfn || s.counts[p.pfn] == 0)
  {
    assert GoodPte(Entry(s.cur.table, v), s.counts);
    CurMaps(s, v);
    if Permits(s, v, ACCESS_WRITE) {
      TranslateGood(s, v, ACCESS_WRITE);
    } else if LastSharer(s, v) {
      UpgradeIsGood(s, v);
      AccessAfterUpgrade(s, v, value);
      UpgradedTranslation(s, v);
    } else {
      WrittenCopy(s, v, value);
    }
  }

  /** After a successful write the page sits in a frame counted once that nothing else maps; it is the
      frame it was in or one that was free, and the contents of no other frame changed. */
  lemma WriteIsPrivate(s: Vm, v: Vpn, value: int)
    requires Good(s) && Guard(s, Access(v, ACCESS_WRITE, value))
    requires Step(s, Access(v, ACCESS_WRITE, value)).1 == Done
    ensures var s' := Step(s, Access(v, ACCESS_WRITE, value)).0;
      var f := Entry(s'.cur.table, v).pfn;
      && OnlyMappedBy(s', v, f) && s'.counts[f] == 1
      && s'.mem == s.mem[f := value] && (f == Entry(s.cur.table, v).pfn || s.counts[f] == 0)
  {
    StepAgrees(s, Access(v, ACCESS_WRITE, value));
    var s' := Step(s, Access(v, ACCESS_WRITE, value)).0;
    var e := View(s).cur.pages[v];
    assert e.Some? && e.value.writable;
    assert View(s').cur.pages[v] == Some(Page(true, value));
    assert Entry(s'.cur.table, v).valid;
    WritableAfterWrite(s, v, value);
    CurMaps(s', v);
  }

  // ---------------------------------------------------------------- the TLB

  /** The same machine run without the TLB. */
  function WithoutTlb(s: Vm): Vm { s.(mode := Off, tlb := []) }

  lemma OffIsGood(s: Vm)
    requires Good(s)
    ensures Good(WithoutTlb(s)) && View(WithoutTlb(s)) == View(s)
  {
    assert forall f: Frame :: TotalRefs(WithoutTlb(s), f) == TotalRefs(s, f);
  }

  lemma FreeOff(s: Vm, s1: Vm, v: Vpn)
    requires Good(s) && s1 == s.(tlb := s1.tlb) && Guard(s, Free(v)) && Entry(s.cur.table, v).valid
    requires Translate(s, ACCESS_READ, v) == (s1, Hit(Entry(s.cur.table, v).pfn))
    ensures FreePage(WithoutTlb(s), v) == (WithoutTlb(FreePage(s1, v).0), FreePage(s1, v).1)
  {
    FreeAgrees(s, v);
    assert EagerStep(View(s), Free(v)).1 == Done;
  }

  lemma CopyCommutes(s: Vm, v: Vpn)
    ensures CopyPage(WithoutTlb(s), v) == WithoutTlb(CopyPage(s, v))
  {
  }

  lemma WalkOff(s2: Vm, v: Vpn)
    requires Permits(s2, v, ACCESS_WRITE)
    requires Translate(s2, ACCESS_WRITE, v).1 == Hit(Entry(s2.cur.table, v).pfn)
    ensures var (s3, t) := Translate(s2, ACCESS_WRITE, v);
      Translate(WithoutTlb(s2), ACCESS_WRITE, v) == (WithoutTlb(s3), t)
  {
  }

  lemma CopyOff(s: Vm, v: Vpn)
    requires Good(s) && Shared(s, v) && FreeFrame(s) && Uncached(s, v) && Room(s, v, ACCESS_WRITE)
    ensures var (s3, t) := Translate(CopyPage(s, v), ACCESS_WRITE, v);
      Translate(CopyPage(WithoutTlb(s), v), ACCESS_WRITE, v) == (WithoutTlb(s3), t)
  {
    CopyIsPrivate(s, v);
    FreshTranslation(s, v);
    CopyCommutes(s, v);
    WalkOff(CopyPage(s, v), v);
  }

  lemma AccessOff(s: Vm, v: Vpn, rw: Request, value: int)
    requires Good(s) && Guard(s, Access(v, rw, value))
    ensures var (s', o) := Step(s, Access(v, rw, value));
      Step(WithoutTlb(s), Access(v, rw, value)) == (WithoutTlb(s'), o)
  {
    TranslateGood(s, v, rw);
    assert GoodPte(Entry(s.cur.table, v), s.counts);
    OffIsGood(s);
    if !Entry(s.cur.table, v).valid || Permits(s, v, rw) || Entry(s.cur.table, v).priv == ACCESS_READ {
    } else {
      CurMaps(s, v);
      var n := WithoutTlb(s);
      if LastSharer(s, v) {
        UpgradeIsGood(s, v);
        AccessAfterUpgrade(s, v, value);
        AccessAfterUpgrade(n, v, value);
        assert Upgraded(n, v) == WithoutTlb(Upgraded(s, v));
        UpgradedTranslation(s, v);
      } else {
        FreshTranslation(s, v);
        CopyOff(s, v);
        AccessAfterCopy(s, v, value);
        AccessAfterCopy(n, v, value);
      }
    }
  }

  /** The TLB changes nothing but itself: a guarded command has the outcome, and leaves the frames,
      page tables, processes and contents, of the machine without a TLB. */
  lemma TlbIsTransparent(s: Vm, c: Command)
    requires Good(s) && Guard(s, c)
    ensures var (s', o) := Step(s, c);
      Step(WithoutTlb(s), c) == (WithoutTlb(s'), o)
  {
    match c
    case Switch(_) =>
    case Alloc(v, _) =>
      TranslateGood(s, v, ACCESS_READ);
    case Free(v) =>
      TranslateGood(s, v, ACCESS_READ);
      if Entry(s.cur.table, v).valid {
        assert Room(s, v, ACCESS_READ);
        FreeOff(s, Translate(s, ACCESS_READ, v).0, v);
      }
    case Access(v, rw, value) =>
      AccessOff(s, v, rw, value);
  }

  lemma {:induction false} RunWithoutTlb(s: Vm, trace: seq<Command>)
    requires Good(s) && Guarded(s, trace)
    ensures Run(WithoutTlb(s), trace) == (WithoutTlb(Run(s, trace).0), Run(s, trace).1)
    decreases |trace|
  {
    if trace != [] {
      StepAgrees(s, trace[0]);
      TlbIsTransparent(s, trace[0]);
      var (s', o) := Step(s, trace[0]);
      if !Ends(trace[0], o) {
        RunWithoutTlb(s', trace[1..]);
      }
    }
  }

  /** At every command boundary of a guarded trace with the documented TLB, each cached entry is the page
      table's: valid, the same frame and the same rw. */
  lemma CachedExactly(s: Vm, trace: seq<Command>)
    requires Good(s) && s.mode == Documented && Guarded(s, trace)
    ensures var s' := Run(s, trace).0;
      forall e :: e in s'.tlb ==>
        var p := Entry(s'.cur.table, e.vpn); p.valid && e.pfn == p.pfn && e.rw == p.rw
  {
    RunAgrees(s, trace);
    RunMode(s, trace);
    var s' := Run(s, trace).0;
    forall e | e in s'.tlb
      ensures GoodCached(Documented, e, s'.cur.table)
    {
      var j :| 0 <= j < |s'.tlb| && s'.tlb[j] == e;
    }
  }

  /** With the documented TLB the guard asks only what it asks without a TLB. */
  lemma DocumentedNeedsNoMore(s: Vm, c: Command)
    requires Good(s) && s.mode != Coded
    ensures Guard(s, c) <==> Guard(WithoutTlb(s), c)
  {
    if c.Access? {
      assert GoodPte(Entry(s.cur.table, c.vpn), s.counts);
    }
  }

  /** As coded, a page read before its copy goes on being read in the frame it left: the read after the
      write returns what was there before, where the eager machine returns what was written. */
  lemma StaleRead(s: Vm, v: Vpn, value: int, any: int)
    requires Good(s) && s.mode == Coded && FreeFrame(s) && Shared(s, v) && Room(s, v, ACCESS_WRITE)
    requires exists e :: e in s.tlb && e.vpn == v
    ensures var s' := Step(s, Access(v, ACCESS_WRITE, value)).0;
      && Step(s', Access(v, ACCESS_READ, any)).1 == Loaded(s.mem[Entry(s.cur.table, v).pfn])
      && var e' := EagerStep(View(s), Access(v, ACCESS_WRITE, value)).0;
         EagerStep(e', Access(v, ACCESS_READ, any)).1 == Loaded(value)
  {
    StaleEntryStays(s, v, value);
    CopyIsPrivate(s, v);
    AccessAfterCopy(s, v, value);
    ReadEntry(s, v);
    StaleTranslation(s, CopyPage(s, v), v);
  }

  lemma RunCons(s: Vm, c: Command, rest: seq<Command>)
    ensures var (s', o) := Step(s, c);
      !Ends(c, o) ==> Run(s, [c] + rest).1 == [o] + Run(s', rest).1
  {
    assert ([c] + rest)[1..] == rest;
  }

  lemma EagerRunCons(e: Eager, c: Command, rest: seq<Command>)
    ensures var (e', o) := EagerStep(e, c);
      !Ends(c, o) ==> EagerRun(e, [c] + rest).1 == [o] + EagerRun(e', rest).1
  {
    assert ([c] + rest)[1..] == rest;
  }

  /** One guarded command in front of a trace adds the same outcome to both machines' runs. */
  lemma GuardedPrefix(s: Vm, c: Command, rest: seq<Command>)
    requires Good(s) && Guard(s, c) && !Ends(c, Step(s, c).1)
    ensures var (s', o) := Step(s, c);
      && Good(s')
      && Run(s, [c] + rest).1 == [o] + Run(s', rest).1
      && EagerRun(View(s), [c] + rest).1 == [o] + EagerRun(View(s'), rest).1
  {
    StepAgrees(s, c);
    RunCons(s, c, rest);
    EagerRunCons(View(s), c, rest);
  }

  /** The first allocation of a trace. */
  lemma FirstAlloc(mode: TlbMode)
    ensures var (s1, o) := Step(Boot(mode), Alloc(0, true));
      && Guard(Boot(mode), Alloc(0, true)) && o == Done
      && s1.tlb == [] && s1.mode == mode && s1.queue == [] && s1.mem[0] == 0
      && Entry(s1.cur.table, 0) == Pte(true, READ_WRITE, 0, READ_WRITE) && s1.counts[0] == 1 && s1.counts[1] == 0
  {
    var s0 := Boot(mode);
    assert s0.counts[0] == 0 && Entry(s0.cur.table, 0) == NO_PTE;
    assert FirstFree(s0.counts) == 0;
    SetEntryIsUpdate(s0.cur.table, 0, Pte(true, READ_WRITE, 0, READ_WRITE));
  }

  /** A fork shares and write-protects page 0. */
  lemma ForkShares(s: Vm)
    requires Good(s) && s.queue == [] && s.counts[0] == 1 && s.counts[1] == 0
    requires Entry(s.cur.table, 0) == Pte(true, READ_WRITE, 0, READ_WRITE)
    ensures var s' := SwitchProcess(s, 1);
      && s'.mode == s.mode && s'.tlb == [] && s'.mem == s.mem
      && Entry(s'.cur.table, 0) == Pte(true, ACCESS_READ, 0, READ_WRITE) && s'.counts[0] == 2 && s'.counts[1] == 0
  {
    ProtectedEntries(s.cur.table, s.counts);
    RefsAtLeast(Flat(s.cur.table), 0, 0);
    TableMapsOnce(s.cur.table, s.counts, 0);
    var f: Frame := 1;
    assert s.counts[f] == TotalRefs(s, f);
  }

  /** The outcomes of the simulator and of the eager machine on one trace. */
  ghost predicate Outcomes(s: Vm, trace: seq<Command>, os: seq<Outcome>, eos: seq<Outcome>) {
    Run(s, trace).1 == os && EagerRun(View(s), trace).1 == eos
  }

  /** One guarded command in front of a trace adds the same outcome to both. */
  lemma OutcomesCons(s: Vm, c: Command, rest: seq<Command>, os: seq<Outcome>, eos: seq<Outcome>)
    requires Good(s) && Guard(s, c) && !Ends(c, Step(s, c).1)
    requires Outcomes(Step(s, c).0, rest, os, eos)
    ensures Outcomes(s, [c] + rest, [Step(s, c).1] + os, [Step(s, c).1] + eos)
  {
    GuardedPrefix(s, c, rest);
  }

  lemma StaleWriteIsDone(s: Vm, v: Vpn, value: int)
    requires Good(s) && s.mode == Coded && FreeFrame(s) && Shared(s, v) && Room(s, v, ACCESS_WRITE)
    requires LookupTlb(s.tlb, v, ACCESS_READ).Some?
    ensures Step(s, Access(v, ACCESS_WRITE, value)).1 == Done
    ensures EagerStep(View(s), Access(v, ACCESS_WRITE, value)).1 == Done
  {
    CopyIsPrivate(s, v);
    AccessAfterCopy(s, v, value);
    ReadEntry(s, v);
    StaleTranslation(s, CopyPage(s, v), v);
  }

  /** The write and the read that comes back stale. */
  lemma StaleTail(s3: Vm, tail: seq<Command>)
    requires Good(s3) && s3.mode == Coded && FreeFrame(s3) && Shared(s3, 0) && Room(s3, 0, ACCESS_WRITE)
    requires Entry(s3.cur.table, 0).pfn == 0 && s3.mem[0] == 0
    requires TlbEntry(ACCESS_READ, 0, 0) in s3.tlb && LookupTlb(s3.tlb, 0, ACCESS_READ).Some?
    requires tail == [Access(0, 2, 7), Access(0, 1, 0)]
    ensures Outcomes(s3, tail, [Done, Loaded(0)], [Done, Loaded(7)])
  {
    hide Good, Step, EagerStep, Room, Shared;
    StaleRead(s3, 0, 7, 0);
    StaleWriteIsDone(s3, 0, 7);
    assert tail == [tail[0]] + tail[1..] && tail[1..] == [tail[1]] + [];
    RunCons(s3, tail[0], tail[1..]);
    EagerRunCons(View(s3), tail[0], tail[1..]);
    RunCons(Step(s3, tail[0]).0, tail[1], []);
    EagerRunCons(EagerStep(View(s3), tail[0]).0, tail[1], []);
  }

  /** The last three accesses of the trace. */
  lemma StaleSteps(s2: Vm, tail: seq<Command>)
    requires Good(s2) && s2.mode == Coded && s2.tlb == [] && s2.mem[0] == 0
    requires Entry(s2.cur.table, 0) == Pte(true, ACCESS_READ, 0, READ_WRITE) && s2.counts[0] == 2 && s2.counts[1] == 0
    requires tail == [Access(0, 2, 7), Access(0, 1, 0)]
    ensures Guard(s2, Access(0, 1, 0)) && Step(s2, Access(0, 1, 0)).1 == Loaded(0)
    ensures var s3 := Step(s2, Access(0, 1, 0)).0;
      Outcomes(s3, tail, [Done, Loaded(0)], [Done, Loaded(7)])
  {
    StepAgrees(s2, Access(0, 1, 0));
    TranslateGood(s2, 0, ACCESS_READ);
    var s3 := Step(s2, Access(0, 1, 0)).0;
    assert s3.tlb == [TlbEntry(ACCESS_READ, 0, 0)];
    assert TlbEntry(ACCESS_READ, 0, 0) in s3.tlb;
    LookupFound(s3.tlb, 0, ACCESS_WRITE);
    StaleTail(s3, tail);
  }

  lemma StaleAfterAlloc(s1: Vm, tail: seq<Command>)
    requires Good(s1) && s1.mode == Coded && s1.queue == [] && s1.mem[0] == 0
    requires Entry(s1.cur.table, 0) == Pte(true, READ_WRITE, 0, READ_WRITE) && s1.counts[0] == 1 && s1.counts[1] == 0
    requires tail == [Access(0, 2, 7), Access(0, 1, 0)]
    ensures Outcomes(s1, [Switch(1)] + ([Access(0, 1, 0)] + tail),
                     [Done] + ([Loaded(0)] + [Done, Loaded(0)]), [Done] + ([Loaded(0)] + [Done, Loaded(7)]))
  {
    ForkShares(s1);
    StepAgrees(s1, Switch(1));
    var s2 := SwitchProcess(s1, 1);
    StaleSteps(s2, tail);
    OutcomesCons(s2, Access(0, 1, 0), tail, [Done, Loaded(0)], [Done, Loaded(7)]);
    OutcomesCons(s1, Switch(1), [Access(0, 1, 0)] + tail,
                 [Loaded(0)] + [Done, Loaded(0)], [Loaded(0)] + [Done, Loaded(7)]);
  }

  lemma StaleFrom(s: Vm, tail: seq<Command>)
    requires Good(s) && Guard(s, Alloc(0, true)) && tail == [Access(0, 2, 7), Access(0, 1, 0)]
    requires var (s1, o) := Step(s, Alloc(0, true));
      && o == Done && Good(s1) && s1.mode == Coded && s1.queue == [] && s1.mem[0] == 0
      && Entry(s1.cur.table, 0) == Pte(true, READ_WRITE, 0, READ_WRITE) && s1.counts[0] == 1 && s1.counts[1] == 0
    ensures Outcomes(s, [Alloc(0, true)] + ([Switch(1)] + ([Access(0, 1, 0)] + tail)),
                     [Done] + ([Done] + ([Loaded(0)] + [Done, Loaded(0)])),
                     [Done] + ([Done] + ([Loaded(0)] + [Done, Loaded(7)])))
  {
    StaleAfterAlloc(Step(s, Alloc(0, true)).0, tail);
    OutcomesCons(s, Alloc(0, true), [Switch(1)] + ([Access(0, 1, 0)] + tail),
                 [Done] + ([Loaded(0)] + [Done, Loaded(0)]), [Done] + ([Loaded(0)] + [Done, Loaded(7)]));
  }

  /** A trace that shows it: page 0 is shared by a fork, read, written with 7 and read again. */
  lemma StaleTrace(s: Vm, tail: seq<Command>)
    requires s == Boot(Coded) && tail == [Access(0, 2, 7), Access(0, 1, 0)]
    ensures Outcomes(s, [Alloc(0, true)] + ([Switch(1)] + ([Access(0, 1, 0)] + tail)),
                     [Done] + ([Done] + ([Loaded(0)] + [Done, Loaded(0)])),
                     [Done] + ([Done] + ([Loaded(0)] + [Done, Loaded(7)])))
  {
    BootIsGood(Coded);
    FirstAlloc(Coded);
    StepAgrees(s, Alloc(0, true));
    StaleFrom(s, tail);
  }
}
