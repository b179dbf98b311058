/** Lazy copying never needs more frames than eager copying: as long as the eager machine holds at most
    128 pages in all, the simulator finds a frame whenever it looks for one, and the whole run agrees. */
module VmCapacity {
  import opened Common
  import opened VmModel
  import opened VmEager
  import opened VmInvariant
  import opened VmTransparency
  import opened VmResults

  /** How many pages a process of the eager machine holds. */
  function Held(pages: seq<Option<Page>>): nat {
    if pages == [] then 0 else Held(pages[..|pages| - 1]) + (if pages[|pages| - 1].Some? then 1 else 0)
  }

  function QueueHeld(q: seq<EagerProcess>): nat {
    if q == [] then 0 else QueueHeld(q[..|q| - 1]) + Held(q[|q| - 1].pages)
  }

  /** The pages of all processes: the frames the eager machine needs. */
  function TotalHeld(e: Eager): nat { Held(e.cur.pages) + QueueHeld(e.queue) }

  lemma {:induction false} HeldIsValid(ptes: seq<Pte>, pages: seq<Option<Page>>)
    requires |ptes| == |pages| && forall i :: 0 <= i < |ptes| ==> (ptes[i].valid <==> pages[i].Some?)
    ensures Held(pages) == ValidPtes(ptes)
  {
    if ptes != [] {
      HeldIsValid(ptes[..|ptes| - 1], pages[..|pages| - 1]);
    }
  }

  lemma SpaceHeld(t: Table, mem: Memory)
    ensures Held(SpaceOf(t, mem)) == ValidPtes(Flat(t))
  {
    var flat, space := Flat(t), SpaceOf(t, mem);
    forall i | 0 <= i < |flat|
      ensures flat[i].valid <==> space[i].Some?
    {
      var v: Vpn := i;
      assert flat[v] == Entry(t, v) && space[v] == PageOf(Entry(t, v), mem);
    }
    HeldIsValid(flat, space);
  }

  lemma {:induction false} QueueHeldIsValid(q: seq<Process>, mem: Memory)
    ensures QueueHeld(QueueOf(q, mem)) == QueueValid(q)
  {
    if q != [] {
      var n := |q| - 1;
      QueueHeldIsValid(q[..n], mem);
      assert QueueOf(q, mem)[..n] == QueueOf(q[..n], mem);
      SpaceHeld(q[n].table, mem);
    }
  }

  /** The reference counts add up to the pages the eager machine holds. */
  lemma CountsSumToHeld(s: Vm)
    requires Good(s)
    ensures Sum(s.counts) == TotalHeld(View(s))
  {
    CountsSumToValidPtes(s);
    SpaceHeld(s.cur.table, s.mem);
    QueueHeldIsValid(s.queue, s.mem);
  }

  lemma {:induction false} SumOfPositive(a: seq<nat>, k: nat)
    requires (forall i :: 0 <= i < |a| ==> a[i] >= 1) && k <= |a|
    ensures Sum(a) >= |a| && (k < |a| ==> Sum(a) >= |a| + a[k] - 1)
  {
    if a != [] {
      SumOfPositive(a[..|a| - 1], if k < |a| - 1 then k else |a| - 1);
    }
  }

  /** A frame is free when the eager machine holds fewer than 128 pages, and also when it holds 128 of
      which two share a frame here. */
  lemma FrameIsFree(s: Vm, f: Frame)
    requires Good(s)
    requires TotalHeld(View(s)) < NR_PAGEFRAMES || (TotalHeld(View(s)) == NR_PAGEFRAMES && s.counts[f] >= 2)
    ensures FreeFrame(s)
  {
    CountsSumToHeld(s);
    if !FreeFrame(s) {
      SumOfPositive(s.counts, f);
    }
  }

  /** Reads and writes as the commands `r` and `w` make them, with no write to a page that is not there. */
  predicate Plain(e: Eager, c: Command) {
    c.Access? ==> c.rw != READ_WRITE && (c.rw == ACCESS_WRITE ==> e.cur.pages[c.vpn].Some?)
  }

  lemma {:induction false} HeldUpdate(pages: seq<Option<Page>>, v: nat, p: Option<Page>)
    requires v < |pages|
    ensures Held(pages[v := p])
      == Held(pages) - (if pages[v].Some? then 1 else 0) + (if p.Some? then 1 else 0)
  {
    var n := |pages| - 1;
    if v == n {
      assert pages[v := p][..n] == pages[..n];
    } else {
      HeldUpdate(pages[..n], v, p);
      assert pages[v := p][..n] == pages[..n][v := p];
    }
  }

  /** What the guard asks beside the TLB, from what the eager machine holds before and after. */
  lemma CapacityIsGuard(s: Vm, c: Command)
    requires Good(s) && Plain(View(s), c)
    requires TotalHeld(View(s)) <= NR_PAGEFRAMES && TotalHeld(EagerStep(View(s), c).0) <= NR_PAGEFRAMES
    ensures Guard(WithoutTlb(s), c)
  {
    match c
    case Switch(_) =>
    case Free(v) =>
    case Alloc(v, writable) =>
      if !Entry(s.cur.table, v).valid {
        HeldUpdate(View(s).cur.pages, v, Some(Page(writable, 0)));
        FrameIsFree(s, 0);
      }
    case Access(v, rw, value) =>
      var p := Entry(s.cur.table, v);
      assert GoodPte(p, s.counts);
      if p.valid && s.counts[p.pfn] >= 2 {
        FrameIsFree(s, p.pfn);
      }
  }

  /** The trace is plain and the eager machine never holds more than 128 pages while it runs it. */
  ghost predicate Roomy(e: Eager, trace: seq<Command>)
    decreases |trace|
  {
    && TotalHeld(e) <= NR_PAGEFRAMES
    && (trace != [] ==> Plain(e, trace[0]) && Roomy(EagerStep(e, trace[0]).0, trace[1..]))
  }

  lemma {:induction false} RoomyIsGuarded(s: Vm, trace: seq<Command>)
    requires Good(s) && s.mode != Coded && Roomy(View(s), trace)
    ensures Guarded(s, trace)
    decreases |trace|
  {
    if trace != [] {
      CapacityIsGuard(s, trace[0]);
      DocumentedNeedsNoMore(s, trace[0]);
      StepAgrees(s, trace[0]);
      ModeStays(s, trace[0]);
      var (s', o) := Step(s, trace[0]);
      if !Ends(trace[0], o) {
        RoomyIsGuarded(s', trace[1..]);
      }
    }
  }

  /** From boot, without the TLB or with the documented one, a trace that eager copying can run in 128
      frames runs with the same outcomes and the same final view. */
  lemma LazyNeedsNoMoreFrames(mode: TlbMode, trace: seq<Command>)
    requires mode != Coded && Roomy(View(Boot(mode)), trace)
    ensures var (s', os) := Run(Boot(mode), trace);
      var (e', eos) := EagerRun(View(Boot(mode)), trace);
      os == eos && Good(s') && View(s') == e'
  {
    BootIsGood(mode);
    RoomyIsGuarded(Boot(mode), trace);
    RunAgrees(Boot(mode), trace);
  }

  // ---------------------------------------------------------------- the TLB as coded

  /** The pages touched since the last switch, in the order of their first touch, and the written ones. */
  datatype Touched = Touched(order: seq<Vpn>, written: set<Vpn>)

  function Touch1(t: Touched, v: Vpn): Touched { if v in t.order then t else t.(order := t.order + [v]) }

  function TouchedBy(e: Eager, t: Touched, c: Command): Touched {
    match c
    case Alloc(v, _) => t
    case Free(v) =>
      if e.cur.pages[v].None? || t.order == [] then t else Touched(t.order[1..], t.written - {v})
    case Access(v, rw, _) =>
      var page := e.cur.pages[v];
      if page.None? || (MayWrite(rw) && !page.value.writable) then t
      else if MayWrite(rw) then var u := Touch1(t, v); u.(written := u.written + {v})
      else Touch1(t, v)
    case Switch(_) => Touched([], {})
  }

  /** Pages are freed in the order of their first touch, and not written after having only been read. */
  predicate Tidy(e: Eager, t: Touched, c: Command) {
    match c
    case Free(v) => e.cur.pages[v].Some? ==> t.order == [] || t.order[0] == v
    case Access(v, rw, _) => rw == ACCESS_WRITE && v in t.order ==> v in t.written
    case _ => true
  }

  ghost predicate TidyAlong(e: Eager, t: Touched, trace: seq<Command>)
    decreases |trace|
  {
    trace == [] ||
    (Tidy(e, t, trace[0]) && TidyAlong(EagerStep(e, trace[0]).0, TouchedBy(e, t, trace[0]), trace[1..]))
  }

  /** The TLB as coded holds one entry for each touched page, read-write for the written ones. */
  ghost predicate Follows(s: Vm, t: Touched) {
    && Good(s) && s.mode == Coded && NoDup(t.order) && |s.tlb| == |t.order|
    && (forall j :: 0 <= j < |s.tlb| ==> s.tlb[j].vpn == t.order[j])
    && (forall j :: 0 <= j < |s.tlb| && s.tlb[j].vpn in t.written ==> s.tlb[j].rw == READ_WRITE)
    && (forall v :: v in t.written ==> v in t.order)
  }

  lemma FollowsFits(s: Vm, t: Touched)
    requires Follows(s, t)
    ensures |s.tlb| <= NR_PAGEFRAMES && forall v: Vpn :: v in t.order <==> exists e :: e in s.tlb && e.vpn == v
  {
    forall j | 0 <= j < |s.tlb|
      ensures Entry(s.cur.table, s.tlb[j].vpn).valid
    {
      assert GoodCached(s.mode, s.tlb[j], s.cur.table);
    }
    DistinctFits(s);
    forall v: Vpn
      ensures v in t.order <==> exists e :: e in s.tlb && e.vpn == v
    {
      if v in t.order {
        var j :| 0 <= j < |t.order| && t.order[j] == v;
        assert s.tlb[j] in s.tlb;
      }
    }
  }

  /** With the TLB as coded, a tidy command needs no more than without a TLB. */
  lemma TidyNeedsNoMore(s: Vm, t: Touched, c: Command)
    requires Follows(s, t) && Tidy(View(s), t, c) && Guard(WithoutTlb(s), c)
    ensures Guard(s, c)
  {
    FollowsFits(s, t);
    match c
    case Alloc(_, _) =>
    case Switch(_) =>
    case Free(v) =>
    case Access(v, rw, _) =>
      if rw == ACCESS_WRITE && v in t.written {
        var j :| 0 <= j < |t.order| && t.order[j] == v;
        assert GoodCached(s.mode, s.tlb[j], s.cur.table);
      }
  }

  /** What a permitted translation does to the TLB as coded. */
  lemma TranslateTouches(x: Vm, v: Vpn, rw: Request)
    requires x.mode == Coded && Permits(x, v, rw) && |x.tlb| + 1 < NR_TLB_ENTRIES
    ensures LookupTlb(x.tlb, v, rw).Some? ==> Translate(x, rw, v).0 == x
    ensures (forall j :: 0 <= j < |x.tlb| ==> x.tlb[j].vpn != v) ==>
              Translate(x, rw, v).0.tlb == x.tlb + [TlbEntry(Entry(x.cur.table, v).rw, v, Entry(x.cur.table, v).pfn)]
  {
    LookupFound(x.tlb, v, rw);
    if forall j :: 0 <= j < |x.tlb| ==> x.tlb[j].vpn != v {
      assert Slot(Coded, x.tlb, v, Entry(x.cur.table, v).rw) == |x.tlb|;
    }
  }

  lemma ReadTouches(s: Vm, t: Touched, v: Vpn, rw: Request)
    requires Follows(s, t) && Permits(s, v, rw) && (MayWrite(rw) && v in t.order ==> v in t.written)
    ensures var s1 := Translate(s, rw, v).0;
      s1.tlb == if v in t.order then s.tlb
                else s.tlb + [TlbEntry(Entry(s.cur.table, v).rw, v, Entry(s.cur.table, v).pfn)]
  {
    FollowsFits(s, t);
    TranslateTouches(s, v, rw);
    LookupFound(s.tlb, v, rw);
    if v in t.order {
      var j :| 0 <= j < |t.order| && t.order[j] == v;
      assert GoodCached(s.mode, s.tlb[j], s.cur.table);
    } else {
      assert forall j :: 0 <= j < |s.tlb| ==> s.tlb[j] in s.tlb;
    }
  }

  lemma UpgradeTouches(s: Vm, v: Vpn, value: int)
    requires Good(s) && s.mode == Coded && LastSharer(s, v) && |s.tlb| + 1 < NR_TLB_ENTRIES
    requires forall j :: 0 <= j < |s.tlb| ==> s.tlb[j].vpn != v
    ensures exists f: Frame :: Step(s, Access(v, ACCESS_WRITE, value)).0.tlb == s.tlb + [TlbEntry(READ_WRITE, v, f)]
  {
    hide Step, Translate;
    UpgradeIsGood(s, v);
    UpgradedTranslation(s, v);
    AccessAfterUpgrade(s, v, value);
    TranslateTouches(Upgraded(s, v), v, ACCESS_WRITE);
  }

  lemma CopyTouches(s: Vm, v: Vpn, value: int)
    requires Good(s) && s.mode == Coded && Shared(s, v) && FreeFrame(s) && |s.tlb| + 1 < NR_TLB_ENTRIES
    requires forall j :: 0 <= j < |s.tlb| ==> s.tlb[j].vpn != v
    ensures exists f: Frame :: Step(s, Access(v, ACCESS_WRITE, value)).0.tlb == s.tlb + [TlbEntry(READ_WRITE, v, f)]
  {
    hide Step, Translate, CopyPage;
    CopyIsPrivate(s, v);
    FreshTranslation(s, v);
    AccessAfterCopy(s, v, value);
    TranslateTouches(CopyPage(s, v), v, ACCESS_WRITE);
  }

  /** What has been written since the last switch has the write bit. */
  lemma WrittenIsWritable(s: Vm, t: Touched, v: Vpn)
    requires Follows(s, t)
    ensures v in t.written ==> MayWrite(Entry(s.cur.table, v).rw)
  {
    if v in t.written {
      var j :| 0 <= j < |t.order| && t.order[j] == v;
      assert GoodCached(s.mode, s.tlb[j], s.cur.table);
    }
  }

  /** The TLB after a write that the eager machine allows. */
  lemma WriteTouches(s: Vm, t: Touched, v: Vpn, value: int)
    requires Follows(s, t) && Guard(s, Access(v, ACCESS_WRITE, value)) && (v in t.order ==> v in t.written)
    requires Entry(s.cur.table, v).valid && Entry(s.cur.table, v).priv != ACCESS_READ
    ensures var s' := Step(s, Access(v, ACCESS_WRITE, value)).0;
      if v in t.order then s'.tlb == s.tlb
      else exists f: Frame :: s'.tlb == s.tlb + [TlbEntry(READ_WRITE, v, f)]
  {
    var p := Entry(s.cur.table, v);
    assert GoodPte(p, s.counts);
    FollowsFits(s, t);
    TranslateGood(s, v, ACCESS_WRITE);
    assert forall j :: 0 <= j < |s.tlb| ==> s.tlb[j] in s.tlb;
    WrittenIsWritable(s, t, v);
    if Permits(s, v, ACCESS_WRITE) {
      ReadTouches(s, t, v, ACCESS_WRITE);
    } else {
      CurMaps(s, v);
      if LastSharer(s, v) {
        UpgradeTouches(s, v, value);
      } else {
        CopyTouches(s, v, value);
      }
    }
  }

  lemma FollowsTouch(s: Vm, s': Vm, t: Touched, v: Vpn, writing: bool, rw: Flags, f: Frame)
    requires Follows(s, t) && Good(s') && s'.mode == Coded
    requires s'.tlb == if v in t.order then s.tlb else s.tlb + [TlbEntry(rw, v, f)]
    requires writing ==> rw == READ_WRITE && (v in t.order ==> v in t.written)
    ensures var u := Touch1(t, v); Follows(s', if writing then u.(written := u.written + {v}) else u)
  {
    hide Good;
    var u := Touch1(t, v);
    forall j | 0 <= j < |s'.tlb|
      ensures s'.tlb[j].vpn == u.order[j]
    {
    }
  }

  /** A tidy free takes the first entry off the TLB. */
  lemma FreeDrops(s: Vm, t: Touched, v: Vpn)
    requires Follows(s, t) && (t.order == [] || t.order[0] == v)
    requires Guard(s, Free(v)) && Entry(s.cur.table, v).valid
    ensures var s' := Step(s, Free(v)).0; s'.tlb == if s.tlb == [] then [] else s.tlb[1..]
  {
    ReadTouches(s, t, v, ACCESS_READ);
    TranslateGood(s, v, ACCESS_READ);
    hide Good, Permits, LookupTlb, Translate;
    var s1, s' := Translate(s, ACCESS_READ, v).0, Step(s, Free(v)).0;
    assert FindVpn(s1.tlb, v) == 0;
    assert s'.tlb == Without(s1.tlb, 0) == s1.tlb[1..];
  }

  lemma FollowsDrop(s: Vm, s': Vm, t: Touched, u: Touched)
    requires Follows(s, t) && Good(s') && s'.mode == Coded && s'.tlb == if s.tlb == [] then [] else s.tlb[1..]
    requires u == if t.order == [] then t else Touched(t.order[1..], t.written - {t.order[0]})
    ensures Follows(s', u)
  {
    hide Good;
    if t.order != [] {
      assert forall j :: 0 <= j < |s'.tlb| ==> s'.tlb[j] == s.tlb[j + 1] && u.order[j] == t.order[j + 1];
    }
  }

  lemma FollowsFree(s: Vm, t: Touched, v: Vpn)
    requires Follows(s, t) && Tidy(View(s), t, Free(v)) && Guard(s, Free(v)) && Entry(s.cur.table, v).valid
    ensures Follows(Step(s, Free(v)).0, TouchedBy(View(s), t, Free(v)))
  {
    hide Step, Guard, Good, EagerStep;
    StepAgrees(s, Free(v));
    ModeStays(s, Free(v));
    FreeDrops(s, t, v);
    FollowsDrop(s, Step(s, Free(v)).0, t, TouchedBy(View(s), t, Free(v)));
  }

  lemma FollowsAccess(s: Vm, t: Touched, v: Vpn, rw: Request, value: int)
    requires Follows(s, t) && Tidy(View(s), t, Access(v, rw, value)) && Plain(View(s), Access(v, rw, value))
    requires Guard(s, Access(v, rw, value))
    ensures Follows(Step(s, Access(v, rw, value)).0, TouchedBy(View(s), t, Access(v, rw, value)))
  {
    var c, p := Access(v, rw, value), Entry(s.cur.table, v);
    StepAgrees(s, c);
    ModeStays(s, c);
    TranslateGood(s, v, rw);
    assert GoodPte(p, s.counts);
    var s' := Step(s, c).0;
    if p.valid && !MayWrite(rw) {
      ReadTouches(s, t, v, rw);
      FollowsTouch(s, s', t, v, false, p.rw, p.pfn);
    } else if p.valid && p.priv != ACCESS_READ {
      WriteTouches(s, t, v, value);
      var f: Frame :| v !in t.order ==> s'.tlb == s.tlb + [TlbEntry(READ_WRITE, v, f)];
      FollowsTouch(s, s', t, v, true, READ_WRITE, f);
    }
  }

  lemma FollowsNext(s: Vm, t: Touched, c: Command)
    requires Follows(s, t) && Tidy(View(s), t, c) && Plain(View(s), c) && Guard(s, c) && !Ends(c, Step(s, c).1)
    ensures Follows(Step(s, c).0, TouchedBy(View(s), t, c))
  {
    StepAgrees(s, c);
    ModeStays(s, c);
    TranslateGood(s, if c.Switch? then 0 else c.vpn, ACCESS_READ);
    match c
    case Alloc(v, _) =>
    case Switch(_) =>
    case Free(v) =>
      if Entry(s.cur.table, v).valid {
        FollowsFree(s, t, v);
      }
    case Access(v, rw, value) => FollowsAccess(s, t, v, rw, value);
  }

  lemma {:induction false} TidyIsGuarded(s: Vm, t: Touched, trace: seq<Command>)
    requires Follows(s, t) && Roomy(View(s), trace) && TidyAlong(View(s), t, trace)
    ensures Guarded(s, trace)
    decreases |trace|
  {
    if trace != [] {
      var c := trace[0];
      CapacityIsGuard(s, c);
      TidyNeedsNoMore(s, t, c);
      StepAgrees(s, c);
      var (s', o) := Step(s, c);
      if !Ends(c, o) {
        FollowsNext(s, t, c);
        TidyIsGuarded(s', TouchedBy(View(s), t, c), trace[1..]);
      }
    }
  }

  /** From boot with the TLB as coded: a trace that eager copying can run in 128 frames, and that is tidy,
      runs with the same outcomes and the same final view. */
  lemma CodedNeedsNoMoreFrames(trace: seq<Command>)
    requires Roomy(View(Boot(Coded)), trace) && TidyAlong(View(Boot(Coded)), Touched([], {}), trace)
    ensures var (s', os) := Run(Boot(Coded), trace);
      var (e', eos) := EagerRun(View(Boot(Coded)), trace);
      os == eos && Good(s') && View(s') == e'
  {
    BootIsGood(Coded);
    TidyIsGuarded(Boot(Coded), Touched([], {}), trace);
    RunAgrees(Boot(Coded), trace);
  }
}
