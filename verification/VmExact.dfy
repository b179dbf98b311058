/** The guard is exact in what a user sees: where it fails, some continuation of the trace has other
    outcomes than on the eager machine. */
module VmExact {
  import opened Common
  import opened VmModel
  import opened VmEager
  import opened VmInvariant
  import opened VmTransparency
  import opened VmResults

  /** The two machines give different outcomes for one trace. */
  ghost predicate Differs(s: Vm, e: Eager, trace: seq<Command>) { Run(s, trace).1 != EagerRun(e, trace).1 }

  lemma DiffersNow(s: Vm, e: Eager, c: Command, rest: seq<Command>)
    requires Step(s, c).1 != EagerStep(e, c).1
    ensures Differs(s, e, [c] + rest)
  {
    assert Run(s, [c] + rest).1[0] == Step(s, c).1 && EagerRun(e, [c] + rest).1[0] == EagerStep(e, c).1;
  }

  lemma DiffersLater(s: Vm, e: Eager, c: Command, rest: seq<Command>)
    requires Step(s, c).1 == EagerStep(e, c).1 && !Ends(c, Step(s, c).1)
    requires Differs(Step(s, c).0, EagerStep(e, c).0, rest)
    ensures Differs(s, e, [c] + rest)
  {
    RunCons(s, c, rest);
    EagerRunCons(e, c, rest);
    var os, eos := Run(Step(s, c).0, rest).1, EagerRun(EagerStep(e, c).0, rest).1;
    var o := Step(s, c).1;
    assert ([o] + os)[1..] == os && ([o] + eos)[1..] == eos;
  }

  // ---------------------------------------------------------------- alloc and free

  lemma AllocIsSeen(s: Vm, v: Vpn, writable: bool)
    requires Good(s) && !Guard(s, Alloc(v, writable))
    ensures Step(s, Alloc(v, writable)).1 != EagerStep(View(s), Alloc(v, writable)).1
  {
    TranslateGood(s, v, ACCESS_READ);
  }

  lemma LeftBehind(s: Vm, s1: Vm, v: Vpn)
    requires Good(s) && Entry(s.cur.table, v).valid && s.mode == Coded && GoodTlb(s1) && s1 == s.(tlb := s1.tlb)
    requires Translate(s, ACCESS_READ, v) == (s1, Hit(Entry(s.cur.table, v).pfn))
    requires RemoveTlb(s1.mode, s1.tlb, v).Some?
    requires exists j ::
      0 <= j < |RemoveTlb(s1.mode, s1.tlb, v).value| && RemoveTlb(s1.mode, s1.tlb, v).value[j].vpn == v
    ensures var s' := Step(s, Free(v)).0; Step(s', Access(v, ACCESS_READ, 0)).1.Loaded?
  {
    var tlb := RemoveTlb(s1.mode, s1.tlb, v).value;
    var j :| 0 <= j < |tlb| && tlb[j].vpn == v;
    var i := if tlb == s1.tlb || j < FindVpn(s1.tlb, v) then j else j + 1;
    assert tlb[j] == s1.tlb[i] && GoodCached(s1.mode, s1.tlb[i], s1.cur.table);
    LookupFound(tlb, v, ACCESS_READ);
    assert Step(s, Free(v)).0.tlb == tlb;
  }

  /** A page freed while a second entry for it is cached can still be read. */
  lemma FreeIsSeen(s: Vm, v: Vpn)
    requires Good(s) && !Guard(s, Free(v))
    ensures Differs(s, View(s), [Free(v)] + [Access(v, ACCESS_READ, 0)])
  {
    hide Differs, LookupTlb;
    var c, r := Free(v), Access(v, ACCESS_READ, 0);
    TranslateGood(s, v, ACCESS_READ);
    var s1 := Translate(s, ACCESS_READ, v).0;
    if Step(s, c).1 != Done {
      DiffersNow(s, View(s), c, [r]);
    } else {
      FreedTlb(s, s1, v);
      LeftBehind(s, s1, v);
      var s', e' := Step(s, c).0, EagerStep(View(s), c).0;
      DiffersNow(s', e', r, []);
      assert [r] + [] == [r];
      DiffersLater(s, View(s), c, [r]);
    }
  }

  // ---------------------------------------------------------------- accesses that show at once

  /** What an access needs beyond being answered at once as the eager machine answers it. */
  ghost predicate Delayed(s: Vm, v: Vpn, rw: Request) {
    rw == ACCESS_WRITE && Shared(s, v) && Room(s, v, rw) && (!FreeFrame(s) || !Uncached(s, v))
  }

  lemma LostEntry(s: Vm, v: Vpn)
    requires Good(s) && !FreeFrame(s) && Shared(s, v)
    ensures var s2 := CopyPage(s, v); var p := Entry(s.cur.table, v);
      && s2 == s.(counts := s2.counts, cur := s2.cur) && s2.cur.pid == s.cur.pid
      && Entry(s2.cur.table, v) == p.(rw := READ_WRITE)
  {
    var p := Entry(s.cur.table, v);
    FirstFreeSame(s.counts, s.counts[p.pfn := s.counts[p.pfn] - 1]);
    SetEntryIsUpdate(s.cur.table, v, p.(rw := READ_WRITE));
  }

  /** A write to a page with the write bit and only read-only entries cached walks, caches, and hits from then on. */
  lemma WalkHits(s: Vm, s2: Vm, v: Vpn)
    requires s2.tlb == s.tlb && s2.mode == s.mode && Permits(s2, v, ACCESS_WRITE)
      && Entry(s2.cur.table, v).rw == READ_WRITE
    requires LookupTlb(s.tlb, v, ACCESS_WRITE).None? && |s.tlb| < NR_TLB_ENTRIES
    requires s.mode == Documented ==> |s.tlb| + 1 < NR_TLB_ENTRIES
    ensures var (s3, t) := Translate(s2, ACCESS_WRITE, v); var f := Entry(s2.cur.table, v).pfn;
      && s3 == s2.(tlb := s3.tlb)
      && (if Room(s, v, ACCESS_WRITE) then t == Hit(f) && Translate(s3, ACCESS_WRITE, v) == (s3, Hit(f))
          else t == NoRoom)
  {
    LookupFound(s.tlb, v, ACCESS_WRITE);
    if s.mode != Off && Room(s, v, ACCESS_WRITE) {
      var k := Slot(s.mode, s.tlb, v, READ_WRITE);
      var f := Entry(s2.cur.table, v).pfn;
      var tlb := InsertTlb(s.mode, s.tlb, v, READ_WRITE, f).value;
      assert tlb[k] == TlbEntry(READ_WRITE, v, f);
      forall j | 0 <= j < |tlb| && j != k
        ensures tlb[j].vpn != v || tlb[j].rw < ACCESS_WRITE
      {
        assert tlb[j] == s.tlb[j];
      }
      LookupFound(tlb, v, ACCESS_WRITE);
    }
  }

  /** Without a free frame the retry reaches the shared frame, and so does every later write. */
  lemma ExhaustedTranslation(s: Vm, v: Vpn)
    requires Good(s) && !FreeFrame(s) && Shared(s, v)
    ensures var (s3, t) := Translate(CopyPage(s, v), ACCESS_WRITE, v); var f := Entry(s.cur.table, v).pfn;
      && s3 == CopyPage(s, v).(tlb := s3.tlb) && s3.queue == s.queue && s3.mem == s.mem && s3.cur.pid == s.cur.pid
      && (if Room(s, v, ACCESS_WRITE) then t == Hit(f) && Translate(s3, ACCESS_WRITE, v) == (s3, Hit(f))
          else t == NoRoom)
  {
    LostReference(s, v);
    ReadEntry(s, v);
    LookupFound(s.tlb, v, ACCESS_WRITE);
    LostEntry(s, v);
    TableBounded(s);
    WalkHits(s, CopyPage(s, v), v);
  }

  lemma NoRoomForCopy(s: Vm, v: Vpn, value: int)
    requires Good(s) && Shared(s, v) && !Room(s, v, ACCESS_WRITE)
    ensures Step(s, Access(v, ACCESS_WRITE, value)).1 == Overrun
  {
    AccessAfterCopy(s, v, value);
    if !FreeFrame(s) {
      LostReference(s, v);
      ReadEntry(s, v);
      LookupFound(s.tlb, v, ACCESS_WRITE);
      ExhaustedTranslation(s, v);
    } else if Uncached(s, v) {
      FreshTranslation(s, v);
    } else {
      CopyIsPrivate(s, v);
      ReadEntry(s, v);
      StaleTranslation(s, CopyPage(s, v), v);
    }
  }

  lemma AccessIsSeen(s: Vm, v: Vpn, rw: Request, value: int)
    requires Good(s) && !Guard(s, Access(v, rw, value)) && !Delayed(s, v, rw)
    ensures Step(s, Access(v, rw, value)).1 != EagerStep(View(s), Access(v, rw, value)).1
  {
    var p := Entry(s.cur.table, v);
    assert GoodPte(p, s.counts);
    TranslateGood(s, v, rw);
    if !p.valid {
      if s.cur.table[v / 16].Some? {
        WildWrite(s, v, value);
      }
    } else if !Permits(s, v, rw) && rw == ACCESS_WRITE {
      CurMaps(s, v);
      if LastSharer(s, v) {
        UpgradedTranslation(s, v);
        AccessAfterUpgrade(s, v, value);
      } else {
        NoRoomForCopy(s, v, value);
      }
    }
  }

  // ---------------------------------------------------------------- the stale entry

  lemma {:induction false} LookupAppended(tlb: seq<TlbEntry>, e: TlbEntry, v: Vpn, rw: Flags)
    requires LookupTlb(tlb, v, rw).None? && e.vpn == v && e.rw >= rw
    ensures LookupTlb(tlb + [e], v, rw) == Some(e.pfn)
  {
    if tlb != [] {
      LookupAppended(tlb[1..], e, v, rw);
      assert (tlb + [e])[1..] == tlb[1..] + [e];
    } else {
      assert tlb + [e] == [e];
    }
  }

  /** After the copy the TLB as coded answers writes with the copy and reads with the frame it left. */
  lemma TwoAnswers(s: Vm, v: Vpn)
    requires Good(s) && Shared(s, v) && FreeFrame(s) && !Uncached(s, v) && Room(s, v, ACCESS_WRITE)
    ensures var s2 := CopyPage(s, v); var (s3, t) := Translate(s2, ACCESS_WRITE, v); var f := FirstFree(s.counts);
      && s3 == s2.(tlb := s3.tlb) && t == Hit(f) && f != Entry(s.cur.table, v).pfn
      && LookupTlb(s3.tlb, v, ACCESS_WRITE) == Some(f)
      && LookupTlb(s3.tlb, v, ACCESS_READ) == Some(Entry(s.cur.table, v).pfn)
      && s3.mode != Off && s3.mem[Entry(s.cur.table, v).pfn] == s.mem[Entry(s.cur.table, v).pfn]
  {
    CopyIsPrivate(s, v);
    ReadEntry(s, v);
    var s2, f := CopyPage(s, v), FirstFree(s.counts);
    StaleTranslation(s, s2, v);
    LookupFound(s.tlb, v, ACCESS_WRITE);
    assert Slot(Coded, s.tlb, v, READ_WRITE) == |s.tlb|;
    LookupAppended(s.tlb, TlbEntry(READ_WRITE, v, f), v, ACCESS_WRITE);
  }

  lemma CachedAccess(s: Vm, v: Vpn, rw: Request, value: int)
    requires s.mode != Off && LookupTlb(s.tlb, v, rw).Some?
    ensures Step(s, Access(v, rw, value)) == Touch(s, LookupTlb(s.tlb, v, rw).value, rw, value)
  {
  }

  /** Where writes and reads of one page are cached with different frames, a write and a read show it. */
  lemma SplitPage(s: Vm, e: Eager, v: Vpn, m: int)
    requires s.mode != Off && LookupTlb(s.tlb, v, ACCESS_WRITE).Some? && LookupTlb(s.tlb, v, ACCESS_READ).Some?
    requires LookupTlb(s.tlb, v, ACCESS_WRITE) != LookupTlb(s.tlb, v, ACCESS_READ)
    requires s.mem[LookupTlb(s.tlb, v, ACCESS_READ).value] == m
    requires e.cur.pages[v].Some? && e.cur.pages[v].value.writable
    ensures Differs(s, e, [Access(v, ACCESS_WRITE, m + 1)] + [Access(v, ACCESS_READ, 0)])
  {
    var c, r := Access(v, ACCESS_WRITE, m + 1), Access(v, ACCESS_READ, 0);
    CachedAccess(s, v, ACCESS_WRITE, m + 1);
    var s', e' := Step(s, c).0, EagerStep(e, c).0;
    CachedAccess(s', v, ACCESS_READ, 0);
    DiffersNow(s', e', r, []);
    assert [r] + [] == [r];
    DiffersLater(s, e, c, [r]);
  }

  lemma EagerWrites(s: Vm, v: Vpn, value: int)
    requires Shared(s, v)
    ensures EagerStep(View(s), Access(v, ACCESS_WRITE, value)) == (SetPage(View(s), v, Some(Page(true, value))), Done)
  {
  }

  /** Written again with another value than the frame it left holds, and read, the page shows it. */
  lemma StaleIsSeen(s: Vm, v: Vpn, value: int)
    requires Good(s) && Shared(s, v) && FreeFrame(s) && !Uncached(s, v) && Room(s, v, ACCESS_WRITE)
    ensures var m := s.mem[Entry(s.cur.table, v).pfn];
      Differs(s, View(s),
              [Access(v, ACCESS_WRITE, value)] + ([Access(v, ACCESS_WRITE, m + 1)] + [Access(v, ACCESS_READ, 0)]))
  {
    hide CopyPage, Translate, Good, Step, EagerStep, View, Shared;
    var c := Access(v, ACCESS_WRITE, value);
    TwoAnswers(s, v);
    AccessAfterCopy(s, v, value);
    EagerWrites(s, v, value);
    var m := s.mem[Entry(s.cur.table, v).pfn];
    assert Step(s, c).1 == Done && EagerStep(View(s), c).1 == Done;
    SplitPage(Step(s, c).0, EagerStep(View(s), c).0, v, m);
    DiffersLater(s, View(s), c, [Access(v, ACCESS_WRITE, m + 1)] + [Access(v, ACCESS_READ, 0)]);
  }

  // ---------------------------------------------------------------- the exhausted memory

  lemma {:induction false} RefsFind(s: seq<Pte>, f: nat) returns (i: nat)
    requires Refs(s, f) > 0
    ensures i < |s| && s[i].valid && s[i].pfn == f
  {
    var n := |s| - 1;
    if s[n].valid && s[n].pfn == f {
      i := n;
    } else {
      i := RefsFind(s[..n], f);
    }
  }

  lemma {:induction false} QueueRefsFind(q: seq<Process>, f: nat) returns (i: nat, w: Vpn)
    requires QueueRefs(q, f) > 0
    ensures i < |q| && Entry(q[i].table, w).valid && Entry(q[i].table, w).pfn == f
  {
    var n := |q| - 1;
    if Refs(Flat(q[n].table), f) > 0 {
      i := n;
      w := RefsFind(Flat(q[n].table), f);
    } else {
      i, w := QueueRefsFind(q[..n], f);
    }
  }

  /** Who else maps the frame of a shared page. */
  lemma OtherSharer(s: Vm, v: Vpn) returns (i: nat, w: Vpn)
    requires Good(s) && Shared(s, v)
    ensures i < |s.queue| && Entry(s.queue[i].table, w).valid
      && Entry(s.queue[i].table, w).pfn == Entry(s.cur.table, v).pfn
  {
    var f := Entry(s.cur.table, v).pfn;
    TableMapsOnce(s.cur.table, s.counts, f);
    assert s.counts[f] == TotalRefs(s, f);
    i, w := QueueRefsFind(s.queue, f);
  }

  ghost predicate SamePids(s: Vm, e: Eager) {
    && s.cur.pid == e.cur.pid && |s.queue| == |e.queue|
    && forall i :: 0 <= i < |s.queue| ==> s.queue[i].pid == e.queue[i].pid
  }

  lemma {:induction false} SameFind(q: seq<Process>, r: seq<EagerProcess>, pid: nat)
    requires |q| == |r| && forall i :: 0 <= i < |q| ==> q[i].pid == r[i].pid
    ensures FindPid(q, pid) == FindEager(r, pid)
  {
    if q != [] {
      SameFind(q[1..], r[1..], pid);
    }
  }

  /** Process `i` on the list, switched to as often as its pid needs, reads frame contents the eager
      machine does not have. */
  lemma {:induction false} SharerSees(s: Vm, e: Eager, i: nat, w: Vpn) returns (rest: seq<Command>)
    requires SamePids(s, e) && i < |s.queue| && Entry(s.queue[i].table, w).valid
    requires e.queue[i].pages[w].Some? && e.queue[i].pages[w].value.value != s.mem[Entry(s.queue[i].table, w).pfn]
    ensures Differs(s, e, rest)
    decreases i
  {
    hide Differs;
    var c, r := Switch(s.queue[i].pid), Access(w, ACCESS_READ, 0);
    SameFind(s.queue, e.queue, s.queue[i].pid);
    var k := FindPid(s.queue, s.queue[i].pid);
    var s', e' := Step(s, c).0, EagerStep(e, c).0;
    if k == i {
      assert Step(s', r).1 == Loaded(s.mem[Entry(s.queue[i].table, w).pfn]);
      DiffersNow(s', e', r, []);
      rest := [r] + [];
    } else {
      assert k < i && s'.queue[i - 1] == s.queue[i] && e'.queue[i - 1] == e.queue[i];
      rest := SharerSees(s', e', i - 1, w);
    }
    DiffersLater(s, e, c, rest);
    rest := [c] + rest;
  }

  lemma WritesAgain(e: Eager, v: Vpn, value: int)
    requires e.cur.pages[v].Some? && e.cur.pages[v].value.writable
    ensures EagerStep(e, Access(v, ACCESS_WRITE, value)) == (SetPage(e, v, Some(Page(true, value))), Done)
  {
  }

  lemma TranslateIgnoresMemory(s: Vm, mem: Memory, v: Vpn)
    ensures var (s', t) := Translate(s, ACCESS_WRITE, v);
      Translate(s.(mem := mem), ACCESS_WRITE, v) == (s'.(mem := mem), t)
  {
  }

  lemma StillHits(s: Vm, v: Vpn, value: int)
    requires Good(s) && !FreeFrame(s) && Shared(s, v) && Room(s, v, ACCESS_WRITE)
    ensures var f := Entry(s.cur.table, v).pfn; var s1 := Step(s, Access(v, ACCESS_WRITE, value)).0;
      forall x :: Step(s1, Access(v, ACCESS_WRITE, x)) == (s1.(mem := s1.mem[f := x]), Done)
  {
    ExhaustedTranslation(s, v);
    AccessAfterCopy(s, v, value);
    var s3, f := Translate(CopyPage(s, v), ACCESS_WRITE, v).0, Entry(s.cur.table, v).pfn;
    TranslateIgnoresMemory(s3, s3.mem[f := value], v);
  }

  /** With no free frame the write lands in the frame the other sharers still map, and one of them can
      be switched to and read it. */
  lemma ExhaustedIsSeen(s: Vm, v: Vpn, value: int) returns (rest: seq<Command>)
    requires Good(s) && Shared(s, v) && !FreeFrame(s) && Room(s, v, ACCESS_WRITE)
    ensures var f := Entry(s.cur.table, v).pfn; var s' := Step(s, Access(v, ACCESS_WRITE, value)).0;
      && s'.mem == s.mem[f := value] && s'.queue == s.queue
      && exists i, w: Vpn ::
        0 <= i < |s'.queue| && Entry(s'.queue[i].table, w).valid && Entry(s'.queue[i].table, w).pfn == f
    ensures Differs(s, View(s), [Access(v, ACCESS_WRITE, value)] + rest)
  {
    hide CopyPage, Translate, Good, Step, EagerStep, QueueOf, Shared;
    var f := Entry(s.cur.table, v).pfn;
    var m := s.mem[f];
    var c, c2 := Access(v, ACCESS_WRITE, value), Access(v, ACCESS_WRITE, m + 1);
    var i, w := OtherSharer(s, v);
    ExhaustedTranslation(s, v);
    AccessAfterCopy(s, v, value);
    EagerWrites(s, v, value);
    var s1, e1 := Step(s, c).0, EagerStep(View(s), c).0;
    StillHits(s, v, value);
    WritesAgain(e1, v, m + 1);
    var s2, e2 := Step(s1, c2).0, EagerStep(e1, c2).0;
    rest := SharerSees(s2, e2, i, w);
    DiffersLater(s1, e1, c2, rest);
    rest := [c2] + rest;
    DiffersLater(s, View(s), c, rest);
  }

  // ---------------------------------------------------------------- the main result

  /** Where the guard fails the failure can be seen: some continuation has other outcomes than on the
      eager machine. */
  lemma GuardIsExact(s: Vm, c: Command) returns (rest: seq<Command>)
    requires Good(s) && !Guard(s, c)
    ensures Differs(s, View(s), [c] + rest)
  {
    rest := [];
    match c
    case Alloc(v, writable) =>
      AllocIsSeen(s, v, writable);
      DiffersNow(s, View(s), c, rest);
    case Free(v) =>
      FreeIsSeen(s, v);
      rest := [Access(v, ACCESS_READ, 0)];
    case Access(v, rw, value) =>
      if !Delayed(s, v, rw) {
        AccessIsSeen(s, v, rw, value);
        DiffersNow(s, View(s), c, rest);
      } else if FreeFrame(s) {
        StaleIsSeen(s, v, value);
        rest := [Access(v, ACCESS_WRITE, s.mem[Entry(s.cur.table, v).pfn] + 1)] + [Access(v, ACCESS_READ, 0)];
      } else {
        rest := ExhaustedIsSeen(s, v, value);
      }
    case Switch(_) =>
  }

  /** A trace that is not guarded has a prefix after which the difference can be made visible. */
  lemma {:induction false} UnguardedIsSeen(s: Vm, trace: seq<Command>) returns (k: nat, rest: seq<Command>)
    requires Good(s) && !Guarded(s, trace)
    ensures k < |trace| && Differs(s, View(s), trace[..k + 1] + rest)
    decreases |trace|
  {
    hide Good, Guard, Step, EagerStep, View, Differs;
    var c := trace[0];
    if !Guard(s, c) {
      rest := GuardIsExact(s, c);
      k := 0;
      assert trace[..1] == [c];
    } else {
      StepAgrees(s, c);
      var s' := Step(s, c).0;
      var j: nat;
      j, rest := UnguardedIsSeen(s', trace[1..]);
      k := j + 1;
      DiffersLater(s, View(s), c, trace[1..][..j + 1] + rest);
      assert trace[..k + 1] + rest == [c] + (trace[1..][..j + 1] + rest);
    }
  }
}
