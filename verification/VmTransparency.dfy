/** Copy-on-write is transparent: one step of the simulator agrees with the eager machine exactly when
    `Guard` holds, and so do whole traces. */
module VmTransparency {
  import opened Common
  import opened VmModel
  import opened VmEager
  import opened VmInvariant

  // ---------------------------------------------------------------- the exact condition

  /** A translation that misses the TLB as coded appends an entry, and needs room for the sentinel. */
  predicate Room(s: Vm, v: Vpn, rw: Request) {
    s.mode == Coded ==> LookupTlb(s.tlb, v, rw).Some? || |s.tlb| + 1 < NR_TLB_ENTRIES
  }

  predicate FreeFrame(s: Vm) { FirstFree(s.counts) < NR_PAGEFRAMES }

  predicate Uncached(s: Vm, v: Vpn) {
    s.mode == Coded ==> forall e :: e in s.tlb ==> e.vpn != v
  }

  /** What freeing `v` needs of the TLB as coded: it is empty, or `v` is first and nowhere else. */
  predicate Removable(s: Vm, v: Vpn) {
    s.mode == Coded ==>
      s.tlb == [] || (s.tlb[0].vpn == v && forall j :: 0 < j < |s.tlb| ==> s.tlb[j].vpn != v)
  }

  /** When a command behaves as it would with eager copying. */
  predicate Guard(s: Vm, c: Command) {
    match c
    case Alloc(v, _) => if Entry(s.cur.table, v).valid then Room(s, v, ACCESS_READ) else FreeFrame(s)
    case Free(v) => Entry(s.cur.table, v).valid ==> Removable(s, v)
    case Access(v, rw, _) =>
      var p := Entry(s.cur.table, v);
      if !p.valid then rw == ACCESS_WRITE ==> s.cur.table[v / 16].Some? && s.counts[0] == 0
      else if MayWrite(rw) && p.priv == ACCESS_READ then true
      else if !MayWrite(rw) || p.rw == READ_WRITE then Room(s, v, rw)
      else rw == ACCESS_WRITE && Room(s, v, rw) && (s.counts[p.pfn] >= 2 ==> FreeFrame(s) && Uncached(s, v))
    case Switch(_) => true
  }

  /** The step has the outcome of the eager machine, leads to the same view and keeps the invariant. */
  ghost predicate Agrees(s: Vm, c: Command) {
    var (s', o) := Step(s, c);
    var (e', eo) := EagerStep(View(s), c);
    o == eo && Good(s') && View(s') == e'
  }

  // ---------------------------------------------------------------- translation

  predicate Permits(s: Vm, v: Vpn, rw: Request) {
    var p := Entry(s.cur.table, v);
    p.valid && (MayWrite(rw) ==> MayWrite(p.rw))
  }

  lemma {:induction false} LookupFound(tlb: seq<TlbEntry>, v: Vpn, rw: Flags)
    ensures LookupTlb(tlb, v, rw).Some? ==>
      exists j :: 0 <= j < |tlb| && tlb[j].vpn == v && tlb[j].rw >= rw && tlb[j].pfn == LookupTlb(tlb, v, rw).value
    ensures LookupTlb(tlb, v, rw).None? ==> forall j :: 0 <= j < |tlb| ==> tlb[j].vpn != v || tlb[j].rw < rw
  {
    if tlb != [] && !(tlb[0].vpn == v && tlb[0].rw >= rw) {
      LookupFound(tlb[1..], v, rw);
      if LookupTlb(tlb, v, rw).Some? {
        var j :| 0 <= j < |tlb| - 1 && tlb[1..][j].vpn == v && tlb[1..][j].rw >= rw
          && tlb[1..][j].pfn == LookupTlb(tlb, v, rw).value;
        assert tlb[j + 1] == tlb[1..][j];
      } else {
        forall j | 0 <= j < |tlb|
          ensures tlb[j].vpn != v || tlb[j].rw < rw
        {
          if j > 0 {
            assert tlb[1..][j - 1] == tlb[j];
          }
        }
      }
    }
  }

  /** In a good state the TLB answers as the page table does, and a hit for a write comes from a
      read-write entry. */
  lemma LookupIsCoherent(s: Vm, v: Vpn, rw: Request)
    requires Good(s) && LookupTlb(s.tlb, v, rw).Some?
    ensures Permits(s, v, rw) && LookupTlb(s.tlb, v, rw).value == Entry(s.cur.table, v).pfn
  {
    LookupFound(s.tlb, v, rw);
    var j :| 0 <= j < |s.tlb| && s.tlb[j].vpn == v && s.tlb[j].rw >= rw
      && s.tlb[j].pfn == LookupTlb(s.tlb, v, rw).value;
    assert GoodCached(s.mode, s.tlb[j], s.cur.table);
  }

  /** A TLB with one entry per VPN holds at most as many as there are frames. */
  lemma DistinctFits(s: Vm)
    requires GoodPages(s)
    requires forall j :: 0 <= j < |s.tlb| ==> Entry(s.cur.table, s.tlb[j].vpn).valid
    requires forall i, j :: 0 <= i < j < |s.tlb| ==> s.tlb[i].vpn != s.tlb[j].vpn
    ensures |s.tlb| <= NR_PAGEFRAMES
  {
    var frames := seq(|s.tlb|, j requires 0 <= j < |s.tlb| => Entry(s.cur.table, s.tlb[j].vpn).pfn);
    Pigeonhole(frames, NR_PAGEFRAMES);
  }

  lemma InsertKeeps(s: Vm, v: Vpn, rw: Request)
    requires GoodPages(s) && s.mode != Off && |s.tlb| + 1 < NR_TLB_ENTRIES && Permits(s, v, rw)
    requires forall j ::
      0 <= j < |s.tlb| ==> (GoodCached(s.mode, s.tlb[j], s.cur.table) || (s.tlb[j].vpn == v && s.mode == Documented))
    requires s.mode == Documented ==> forall i, j :: 0 <= i < j < |s.tlb| ==> s.tlb[i].vpn != s.tlb[j].vpn
    ensures var p := Entry(s.cur.table, v);
      var r := InsertTlb(s.mode, s.tlb, v, p.rw, p.pfn);
      r.Some? && GoodTlb(s.(tlb := r.value))
  {
    var p := Entry(s.cur.table, v);
    assert GoodPte(p, s.counts);
    var k := Slot(s.mode, s.tlb, v, p.rw);
    var tlb := InsertTlb(s.mode, s.tlb, v, p.rw, p.pfn).value;
    forall j | 0 <= j < |tlb|
      ensures GoodCached(s.mode, tlb[j], s.cur.table)
    {
      if j < |s.tlb| && j != k {
        assert tlb[j] == s.tlb[j];
      }
    }
  }

  /** One translation, in full: it succeeds exactly when the page table permits the access, gives the
      page table's frame, and only the TLB changes. `v` may be cached with another frame, as it is in
      the middle of a copy under the documented TLB. */
  lemma TranslateIsWalk(s: Vm, v: Vpn, rw: Request)
    requires GoodPages(s) && (s.mode == Off ==> s.tlb == []) && |s.tlb| < NR_TLB_ENTRIES
    requires forall j :: 0 <= j < |s.tlb| ==>
               (GoodCached(s.mode, s.tlb[j], s.cur.table)
                || (s.tlb[j].vpn == v && s.mode == Documented && s.tlb[j].rw < rw && Permits(s, v, rw)))
    requires s.mode == Documented ==> forall i, j :: 0 <= i < j < |s.tlb| ==> s.tlb[i].vpn != s.tlb[j].vpn
    ensures var (s', t) := Translate(s, rw, v);
      && s' == s.(tlb := s'.tlb)
      && if !Permits(s, v, rw) then t == Miss && s' == s
         else if !Room(s, v, rw) then t == NoRoom
         else t == Hit(Entry(s.cur.table, v).pfn) && GoodTlb(s')
  {
    LookupFound(s.tlb, v, rw);
    var p := Entry(s.cur.table, v);
    assert GoodPte(p, s.counts);
    if LookupTlb(s.tlb, v, rw).Some? {
      var j :| 0 <= j < |s.tlb| && s.tlb[j].vpn == v && s.tlb[j].rw >= rw
        && s.tlb[j].pfn == LookupTlb(s.tlb, v, rw).value;
      assert GoodCached(s.mode, s.tlb[j], s.cur.table);
      if s.mode == Documented {
        forall i | 0 <= i < |s.tlb|
          ensures GoodCached(s.mode, s.tlb[i], s.cur.table)
        {
        }
      }
    } else if Permits(s, v, rw) && s.mode != Off {
      var k := Slot(s.mode, s.tlb, v, p.rw);
      if s.mode == Documented {
        assert |s.tlb| + 1 < NR_TLB_ENTRIES by {
          DistinctFits(s);
        }
      } else {
        assert k == |s.tlb|;
      }
      if Room(s, v, rw) {
        InsertKeeps(s, v, rw);
      }
    }
  }

  /** `TranslateIsWalk` at a command boundary. */
  lemma TranslateGood(s: Vm, v: Vpn, rw: Request)
    requires Good(s)
    ensures var (s', t) := Translate(s, rw, v);
      && s' == s.(tlb := s'.tlb)
      && if !Permits(s, v, rw) then t == Miss && s' == s
         else if !Room(s, v, rw) then t == NoRoom
         else t == Hit(Entry(s.cur.table, v).pfn) && Good(s')
  {
    TranslateIsWalk(s, v, rw);
    var (s', t) := Translate(s, rw, v);
    assert forall f: Frame :: TotalRefs(s', f) == TotalRefs(s, f);
  }

  lemma ViewIgnoresTlb(s: Vm, s': Vm)
    requires s' == s.(tlb := s'.tlb)
    ensures View(s') == View(s)
    ensures GoodPages(s) ==> GoodPages(s')
  {
    assert forall f: Frame :: TotalRefs(s', f) == TotalRefs(s, f);
  }

  // ---------------------------------------------------------------- alloc

  /** Changing the PTE of a VPN that is not cached leaves the TLB coherent. */
  lemma CachedElsewhere(s: Vm, s': Vm, v: Vpn, p: Pte)
    requires GoodTlb(s) && s'.tlb == s.tlb && s'.mode == s.mode
    requires s'.cur.table == SetEntry(s.cur.table, v, p)
    requires forall j :: 0 <= j < |s.tlb| ==> s.tlb[j].vpn != v
    ensures GoodTlb(s')
  {
    SetEntryIsUpdate(s.cur.table, v, p);
    forall j | 0 <= j < |s.tlb|
      ensures GoodCached(s'.mode, s.tlb[j], s'.cur.table)
    {
      assert GoodCached(s.mode, s.tlb[j], s.cur.table);
    }
  }

  lemma NewPageAgrees(s: Vm, v: Vpn, writable: bool)
    requires Good(s) && !Entry(s.cur.table, v).valid && FreeFrame(s)
    ensures Agrees(s, Alloc(v, writable))
  {
    TranslateGood(s, v, ACCESS_READ);
    var rw: Flags := if writable then READ_WRITE else ACCESS_READ;
    var f := FirstFree(s.counts);
    var p := Pte(true, rw, f, rw);
    var s' := Step(s, Alloc(v, writable)).0;
    Repoint(s, s', v, p);
    RepointView(s, s', v, p);
    CachedElsewhere(s, s', v, p);
  }

  lemma AllocAgrees(s: Vm, v: Vpn, writable: bool)
    requires Good(s)
    ensures Agrees(s, Alloc(v, writable)) <==> Guard(s, Alloc(v, writable))
  {
    TranslateGood(s, v, ACCESS_READ);
    var (s1, t) := Translate(s, ACCESS_READ, v);
    ViewIgnoresTlb(s, s1);
    if !Entry(s.cur.table, v).valid && FreeFrame(s) {
      NewPageAgrees(s, v, writable);
    }
  }

  // ---------------------------------------------------------------- free

  lemma RemovedTlb(s1: Vm, s': Vm, v: Vpn)
    requires GoodTlb(s1) && s'.mode == s1.mode && s'.cur.table == SetEntry(s1.cur.table, v, NO_PTE)
    requires RemoveTlb(s1.mode, s1.tlb, v) == Some(s'.tlb)
    ensures GoodTlb(s') <==> forall j :: 0 <= j < |s'.tlb| ==> s'.tlb[j].vpn != v
  {
    SetEntryIsUpdate(s1.cur.table, v, NO_PTE);
    forall j | 0 <= j < |s'.tlb|
      ensures s'.tlb[j] in s1.tlb && (GoodCached(s'.mode, s'.tlb[j], s'.cur.table) <==> s'.tlb[j].vpn != v)
    {
      var e := s'.tlb[j];
      assert e in s1.tlb by {
        assert e == s1.tlb[if s'.tlb == s1.tlb || j < FindVpn(s1.tlb, v) then j else j + 1];
      }
      var i :| 0 <= i < |s1.tlb| && s1.tlb[i] == e;
      assert GoodCached(s1.mode, s1.tlb[i], s1.cur.table);
    }
  }

  /** Whether an entry for `v` is left after the removal as coded. */
  lemma FreedTlb(s: Vm, s1: Vm, v: Vpn)
    requires Good(s) && Entry(s.cur.table, v).valid && Room(s, v, ACCESS_READ)
    requires Translate(s, ACCESS_READ, v) == (s1, Hit(Entry(s.cur.table, v).pfn)) && GoodTlb(s1)
    requires RemoveTlb(s1.mode, s1.tlb, v).Some?
    ensures var tlb := RemoveTlb(s1.mode, s1.tlb, v).value;
      Removable(s, v) <==> forall j :: 0 <= j < |tlb| ==> tlb[j].vpn != v
  {
    LookupFound(s.tlb, v, ACCESS_READ);
    var tlb := RemoveTlb(s1.mode, s1.tlb, v).value;
    var k := FindVpn(s1.tlb, v);
    if s.mode == Documented {
      forall j | 0 <= j < |tlb|
        ensures tlb[j].vpn != v
      {
        assert tlb[j] == s1.tlb[if k == |s1.tlb| || j < k then j else j + 1];
      }
    } else if s.mode == Coded && s.tlb != [] {
      assert s1.tlb[0] == s.tlb[0] && s.tlb[0].vpn == v;
      assert s1 == s;
      assert forall j :: 0 < j < |s.tlb| ==> s.tlb[j] == tlb[j - 1];
    }
  }

  lemma UnmapAgrees(s: Vm, s1: Vm, v: Vpn)
    requires Good(s) && Good(s1) && Entry(s.cur.table, v).valid && Room(s, v, ACCESS_READ)
    requires Translate(s, ACCESS_READ, v) == (s1, Hit(Entry(s.cur.table, v).pfn)) && s1 == s.(tlb := s1.tlb)
    requires RemoveTlb(s1.mode, s1.tlb, v).Some?
    ensures Agrees(s, Free(v)) <==> Removable(s, v)
  {
    hide LookupTlb, GoodPages;
    var s' := Step(s, Free(v)).0;
    CurMaps(s, v);
    Repoint(s, s', v, NO_PTE);
    RepointView(s, s', v, NO_PTE);
    SetEntryIsUpdate(s.cur.table, v, NO_PTE);
    var k := FindVpn(s1.tlb, v);
    assert GoodTlb(s') <==> forall j :: 0 <= j < |s'.tlb| ==> s'.tlb[j].vpn != v by {
      RemovedTlb(s1, s', v);
    }
    LookupFound(s.tlb, v, ACCESS_READ);
    FreedTlb(s, s1, v);
  }

  lemma FreeAgrees(s: Vm, v: Vpn)
    requires Good(s)
    ensures Agrees(s, Free(v)) <==> Guard(s, Free(v))
  {
    hide GoodPages;
    TranslateGood(s, v, ACCESS_READ);
    LookupFound(s.tlb, v, ACCESS_READ);
    var (s1, t) := Translate(s, ACCESS_READ, v);
    ViewIgnoresTlb(s, s1);
    if Entry(s.cur.table, v).valid && Room(s, v, ACCESS_READ) {
      assert s.cur.table[v / 16].Some?;
      if RemoveTlb(s1.mode, s1.tlb, v).None? {
        assert s.mode == Coded;
        assert s1.tlb[0] == s.tlb[0];
      } else {
        UnmapAgrees(s, s1, v);
      }
    }
  }

  // ---------------------------------------------------------------- read and write

  lemma SetEntryAgain(t: Table, v: Vpn, p: Pte, q: Pte)
    ensures SetEntry(SetEntry(t, v, p), v, q) == SetEntry(t, v, q)
    ensures t[v / 16].Some? ==> SetEntry(t, v, Entry(t, v)) == t
  {
    var i, j := v / 16, v % 16;
    var d := DirectoryAt(t, i);
    assert d[j := p][j := q] == d[j := q];
    assert t[i := Some(d[j := p])][i := Some(d[j := q])] == t[i := Some(d[j := q])];
    if t[i].Some? {
      assert d[j := d[j]] == d;
      assert t[i := Some(d)] == t;
    }
  }

  lemma {:induction false} FirstFreeSame(c: seq<nat>, d: seq<nat>)
    requires |c| == |d| && forall j :: 0 <= j < |c| ==> (c[j] == 0 <==> d[j] == 0)
    ensures FirstFree(c) == FirstFree(d)
  {
    if c != [] {
      FirstFreeSame(c[1..], d[1..]);
    }
  }

  ghost predicate Shared(s: Vm, v: Vpn) {
    var p := Entry(s.cur.table, v);
    p.valid && p.rw == ACCESS_READ && p.priv != ACCESS_READ && s.counts[p.pfn] >= 2
  }

  /** An access whose fault was handled by copying ends with the second translation. */
  lemma AccessAfterCopy(s: Vm, v: Vpn, value: int)
    requires Good(s) && Shared(s, v)
    ensures var (s3, t) := Translate(CopyPage(s, v), ACCESS_WRITE, v);
      t != Miss ==>
        Step(s, Access(v, ACCESS_WRITE, value))
        == if t == NoRoom then (s3, Overrun) else Touch(s3, t.pfn, ACCESS_WRITE, value)
  {
    TranslateGood(s, v, ACCESS_WRITE);
    assert Translate(s, ACCESS_WRITE, v) == (s, Miss);
    assert HandlePageFault(s, v, ACCESS_WRITE) == (CopyPage(s, v), Handled);
  }

  /** A permitted access reaches the page the eager machine would reach, and a store changes no page of
      another process or VPN. */
  lemma TouchAgrees(s: Vm, s': Vm, v: Vpn, rw: Request, value: int)
    requires Good(s') && View(s') == View(s) && Permits(s', v, rw)
    ensures var (s'', o) := Touch(s', Entry(s'.cur.table, v).pfn, rw, value);
      var (e', eo) := EagerStep(View(s), Access(v, rw, value));
      o == eo && Good(s'') && View(s'') == e'
  {
    var p := Entry(s'.cur.table, v);
    assert GoodPte(p, s'.counts);
    var s'' := Touch(s', p.pfn, rw, value).0;
    if MayWrite(rw) {
      SetEntryAgain(s'.cur.table, v, p, p);
      Repoint(s', s'', v, p);
      RepointView(s', s'', v, p);
    }
  }

  lemma PermittedAgrees(s: Vm, v: Vpn, rw: Request, value: int)
    requires Good(s) && Permits(s, v, rw)
    ensures Agrees(s, Access(v, rw, value)) <==> Room(s, v, rw)
  {
    TranslateGood(s, v, rw);
    var s1 := Translate(s, rw, v).0;
    ViewIgnoresTlb(s, s1);
    if Room(s, v, rw) {
      TouchAgrees(s, s1, v, rw, value);
    }
    assert EagerStep(View(s), Access(v, rw, value)).1 != Overrun;
  }

  /** The copy the fault handler makes for an invalid PTE: frame 0 loses a reference, and the page gets
      mapped or left with the write bit. */
  lemma WildCopy(s: Vm, v: Vpn)
    requires Entry(s.cur.table, v) == NO_PTE && s.counts[0] >= 2
    ensures var s2 := CopyPage(s, v); var p := Entry(s2.cur.table, v);
      s2.tlb == s.tlb && s2.mode == s.mode && s2.cur.table[v / 16].Some?
      && p.rw == READ_WRITE && p.priv != ACCESS_READ && (p.valid || (p.pfn == 0 && s2.counts[0] >= 1))
  {
    var dropped := s.(counts := s.counts[0 := Dec32(s.counts[0])]);
    var (s', f) := AllocPage(dropped, v, ACCESS_WRITE);
    if f.Some? {
      SetEntryIsUpdate(s.cur.table, v, Pte(true, ACCESS_WRITE, f.value, ACCESS_WRITE));
    }
    SetEntryIsUpdate(s'.cur.table, v, Entry(s'.cur.table, v).(rw := READ_WRITE));
  }

  /** A write to an unmapped page whose directory exists reports success as soon as frame 0 is mapped. */
  lemma WildWrite(s: Vm, v: Vpn, value: int)
    requires Translate(s, ACCESS_WRITE, v) == (s, Miss) && Entry(s.cur.table, v) == NO_PTE
    requires s.cur.table[v / 16].Some? && s.counts[0] >= 1
    ensures Step(s, Access(v, ACCESS_WRITE, value)).1 in {Done, Overrun}
  {
    var s2 := HandlePageFault(s, v, ACCESS_WRITE).0;
    if s.counts[0] == 1 {
      SetEntryIsUpdate(s.cur.table, v, NO_PTE.(rw := READ_WRITE, priv := ACCESS_WRITE));
    } else {
      WildCopy(s, v);
    }
    var p := Entry(s2.cur.table, v);
    assert p.priv != ACCESS_READ && s2.cur.table[v / 16].Some?;
    assert p.valid || (p.pfn == 0 && s2.counts[0] >= 1);
    var t := Translate(s2, ACCESS_WRITE, v);
    if t.1 == Miss {
      assert t.0 == s2;
      assert HandlePageFault(s2, v, ACCESS_WRITE).1 == Handled;
    }
  }

  lemma UnmappedAgrees(s: Vm, v: Vpn, rw: Request, value: int)
    requires Good(s) && !Entry(s.cur.table, v).valid
    ensures Agrees(s, Access(v, rw, value)) <==>
      (rw == ACCESS_WRITE ==> s.cur.table[v / 16].Some? && s.counts[0] == 0)
  {
    TranslateGood(s, v, rw);
    LookupFound(s.tlb, v, rw);
    assert Entry(s.cur.table, v) == NO_PTE;
    if rw == ACCESS_WRITE && s.cur.table[v / 16].Some? && s.counts[0] >= 1 {
      WildWrite(s, v, value);
    }
  }

  function Upgraded(s: Vm, v: Vpn): Vm {
    var p := Entry(s.cur.table, v).(rw := READ_WRITE, priv := ACCESS_WRITE);
    s.(cur := s.cur.(table := SetEntry(s.cur.table, v, p)))
  }

  ghost predicate LastSharer(s: Vm, v: Vpn) {
    var p := Entry(s.cur.table, v);
    p.valid && p.rw == ACCESS_READ && p.priv != ACCESS_READ && s.counts[p.pfn] == 1
  }

  lemma UpgradeIsGood(s: Vm, v: Vpn)
    requires Good(s) && LastSharer(s, v)
    ensures var s2 := Upgraded(s, v);
      GoodPages(s2) && View(s2) == View(s) && Permits(s2, v, ACCESS_WRITE) && Entry(s2.cur.table, v).rw == READ_WRITE
  {
    var s2 := Upgraded(s, v);
    var p := Entry(s.cur.table, v).(rw := READ_WRITE, priv := ACCESS_WRITE);
    Repoint(s, s2, v, p);
    RepointView(s, s2, v, p);
    SetEntryIsUpdate(s.cur.table, v, p);
    assert View(s2).cur.pages == View(s).cur.pages;
  }

  lemma UpgradedTlb(s: Vm, s2: Vm, v: Vpn)
    requires Good(s) && LastSharer(s, v) && s2 == Upgraded(s, v)
    ensures forall j :: 0 <= j < |s2.tlb| ==>
              (GoodCached(s2.mode, s2.tlb[j], s2.cur.table)
               || (s2.tlb[j].vpn == v && s2.mode == Documented && s2.tlb[j].rw == ACCESS_READ))
  {
    SetEntryIsUpdate(s.cur.table, v, Entry(s.cur.table, v).(rw := READ_WRITE, priv := ACCESS_WRITE));
    forall j | 0 <= j < |s2.tlb|
      ensures GoodCached(s2.mode, s2.tlb[j], s2.cur.table)
              || (s2.tlb[j].vpn == v && s2.mode == Documented && s2.tlb[j].rw == ACCESS_READ)
    {
      assert GoodCached(s.mode, s.tlb[j], s.cur.table);
    }
  }

  /** The retry after an upgrade: what was cached read-only no longer matches, and is not used. */
  lemma UpgradedTranslation(s: Vm, v: Vpn)
    requires Good(s) && LastSharer(s, v)
    ensures var (s3, t) := Translate(Upgraded(s, v), ACCESS_WRITE, v);
      && s3 == Upgraded(s, v).(tlb := s3.tlb)
      && if Room(s, v, ACCESS_WRITE) then
           Good(s3) && View(s3) == View(s) && Permits(s3, v, ACCESS_WRITE) && t == Hit(Entry(s3.cur.table, v).pfn)
         else t == NoRoom
  {
    UpgradeIsGood(s, v);
    var s2 := Upgraded(s, v);
    UpgradedTlb(s, s2, v);
    TranslateIsWalk(s2, v, ACCESS_WRITE);
    ViewIgnoresTlb(s2, Translate(s2, ACCESS_WRITE, v).0);
  }

  lemma AccessAfterUpgrade(s: Vm, v: Vpn, value: int)
    requires Good(s) && LastSharer(s, v)
    ensures var (s3, t) := Translate(Upgraded(s, v), ACCESS_WRITE, v);
      t != Miss ==>
        Step(s, Access(v, ACCESS_WRITE, value))
        == if t == NoRoom then (s3, Overrun) else Touch(s3, t.pfn, ACCESS_WRITE, value)
  {
    TranslateGood(s, v, ACCESS_WRITE);
    assert Translate(s, ACCESS_WRITE, v) == (s, Miss);
    assert HandlePageFault(s, v, ACCESS_WRITE) == (Upgraded(s, v), Handled);
  }

  /** The last sharer upgrades in place. */
  lemma UpgradeAgrees(s: Vm, v: Vpn, value: int)
    requires Good(s) && LastSharer(s, v)
    ensures Agrees(s, Access(v, ACCESS_WRITE, value)) <==> Room(s, v, ACCESS_WRITE)
    ensures var s' := Step(s, Access(v, ACCESS_WRITE, value)).0;
      && s'.counts == s.counts && s'.queue == s.queue
      && Entry(s'.cur.table, v) == Entry(s.cur.table, v).(rw := READ_WRITE, priv := ACCESS_WRITE)
  {
    UpgradedTranslation(s, v);
    SetEntryIsUpdate(s.cur.table, v, Entry(s.cur.table, v).(rw := READ_WRITE, priv := ACCESS_WRITE));
    AccessAfterUpgrade(s, v, value);
    if Room(s, v, ACCESS_WRITE) {
      TouchAgrees(s, Translate(Upgraded(s, v), ACCESS_WRITE, v).0, v, ACCESS_WRITE, value);
    }
  }

  /** The page `CopyPage` leaves behind: a private frame with the same contents, never the shared one. */
  lemma CopyIsPrivate(s: Vm, v: Vpn)
    requires GoodPages(s) && FreeFrame(s)
    requires var p := Entry(s.cur.table, v); p.valid && s.counts[p.pfn] >= 2 && p.priv != ACCESS_READ
    ensures var s2 := CopyPage(s, v); var p := Entry(s2.cur.table, v);
      && GoodPages(s2) && View(s2) == View(s)
      && p == Pte(true, READ_WRITE, FirstFree(s.counts), ACCESS_WRITE)
      && p.pfn != Entry(s.cur.table, v).pfn && s2.counts[p.pfn] == 1
      && s2.mem == s.mem[p.pfn := s.mem[Entry(s.cur.table, v).pfn]]
      && s2.tlb == s.tlb && s2.mode == s.mode && s2.cur.table == SetEntry(s.cur.table, v, p)
  {
    hide GoodTlb;
    var was := Entry(s.cur.table, v);
    var f := FirstFree(s.counts);
    var dropped := s.(counts := s.counts[was.pfn := Dec32(s.counts[was.pfn])]);
    FirstFreeSame(s.counts, dropped.counts);
    var half, p := Pte(true, ACCESS_WRITE, f, ACCESS_WRITE), Pte(true, READ_WRITE, f, ACCESS_WRITE);
    SetEntryIsUpdate(s.cur.table, v, half);
    SetEntryAgain(s.cur.table, v, half, p);
    SetEntryIsUpdate(s.cur.table, v, p);
    var s2 := CopyPage(s, v);
    Repoint(s, s2, v, p);
    RepointView(s, s2, v, p);
    assert View(s2).cur.pages == View(s).cur.pages;
  }

  /** Mid-fault, the only entries that disagree with the page table are read-only ones for `v`. */
  lemma CopiedTlb(s: Vm, s2: Vm, v: Vpn)
    requires Good(s) && Entry(s.cur.table, v).rw == ACCESS_READ && Uncached(s, v)
    requires s2.tlb == s.tlb && s2.mode == s.mode
    requires s2.cur.table == SetEntry(s.cur.table, v, Entry(s2.cur.table, v))
    ensures forall j :: 0 <= j < |s2.tlb| ==>
              (GoodCached(s2.mode, s2.tlb[j], s2.cur.table)
               || (s2.tlb[j].vpn == v && s2.mode == Documented && s2.tlb[j].rw == ACCESS_READ))
  {
    SetEntryIsUpdate(s.cur.table, v, Entry(s2.cur.table, v));
    forall j | 0 <= j < |s2.tlb|
      ensures GoodCached(s2.mode, s2.tlb[j], s2.cur.table)
              || (s2.tlb[j].vpn == v && s2.mode == Documented && s2.tlb[j].rw == ACCESS_READ)
    {
      assert s2.tlb[j] in s.tlb;
      assert GoodCached(s.mode, s.tlb[j], s.cur.table);
    }
  }

  lemma FreshTranslation(s: Vm, v: Vpn)
    requires Good(s) && FreeFrame(s) && Shared(s, v) && Uncached(s, v)
    ensures var (s3, t) := Translate(CopyPage(s, v), ACCESS_WRITE, v);
      if Room(s, v, ACCESS_WRITE) then
        Good(s3) && View(s3) == View(s) && Permits(s3, v, ACCESS_WRITE) && t == Hit(Entry(s3.cur.table, v).pfn)
      else t == NoRoom
  {
    CopyIsPrivate(s, v);
    var s2 := CopyPage(s, v);
    CopiedTlb(s, s2, v);
    TranslateIsWalk(s2, v, ACCESS_WRITE);
    ViewIgnoresTlb(s2, Translate(s2, ACCESS_WRITE, v).0);
  }

  lemma FreshCopyAgrees(s: Vm, v: Vpn, value: int)
    requires Good(s) && FreeFrame(s) && Shared(s, v) && Uncached(s, v)
    ensures Agrees(s, Access(v, ACCESS_WRITE, value)) <==> Room(s, v, ACCESS_WRITE)
  {
    FreshTranslation(s, v);
    AccessAfterCopy(s, v, value);
    if Room(s, v, ACCESS_WRITE) {
      TouchAgrees(s, Translate(CopyPage(s, v), ACCESS_WRITE, v).0, v, ACCESS_WRITE, value);
    }
  }

  /** An entry for a write-protected page is read-only, and answers reads with the shared frame. */
  lemma ReadEntry(s: Vm, v: Vpn)
    requires Good(s) && Shared(s, v)
    ensures forall j :: 0 <= j < |s.tlb| && s.tlb[j].vpn == v ==> s.tlb[j].rw == ACCESS_READ
    ensures !Uncached(s, v) ==> LookupTlb(s.tlb, v, ACCESS_READ) == Some(Entry(s.cur.table, v).pfn)
  {
    forall j | 0 <= j < |s.tlb| && s.tlb[j].vpn == v
      ensures s.tlb[j].rw == ACCESS_READ
    {
      assert GoodCached(s.mode, s.tlb[j], s.cur.table);
    }
    LookupFound(s.tlb, v, ACCESS_READ);
    if !Uncached(s, v) {
      var e :| e in s.tlb && e.vpn == v;
      var j :| 0 <= j < |s.tlb| && s.tlb[j] == e;
      assert LookupTlb(s.tlb, v, ACCESS_READ).Some?;
      LookupIsCoherent(s, v, ACCESS_READ);
    }
  }

  lemma LookupAppend(tlb: seq<TlbEntry>, e: TlbEntry, v: Vpn, rw: Flags)
    requires LookupTlb(tlb, v, rw).Some?
    ensures LookupTlb(tlb + [e], v, rw) == LookupTlb(tlb, v, rw)
  {
    assert (tlb + [e])[1..] == tlb[1..] + [e];
  }

  lemma StaleTranslation(s: Vm, s2: Vm, v: Vpn)
    requires s.mode == Coded && s2.mode == Coded && s2.tlb == s.tlb && Permits(s2, v, ACCESS_WRITE)
    requires Entry(s2.cur.table, v).rw == READ_WRITE
    requires forall j :: 0 <= j < |s.tlb| && s.tlb[j].vpn == v ==> s.tlb[j].rw == ACCESS_READ
    requires LookupTlb(s.tlb, v, ACCESS_READ).Some?
    ensures var (s3, t) := Translate(s2, ACCESS_WRITE, v);
      && t != Miss && s3 == s2.(tlb := s3.tlb)
      && (t != NoRoom ==> t == Hit(Entry(s2.cur.table, v).pfn))
      && (t == NoRoom <==> !Room(s, v, ACCESS_WRITE))
      && LookupTlb(s3.tlb, v, ACCESS_READ) == LookupTlb(s.tlb, v, ACCESS_READ)
  {
    LookupFound(s.tlb, v, ACCESS_WRITE);
    assert Slot(Coded, s.tlb, v, READ_WRITE) == |s.tlb|;
    LookupAppend(s.tlb, TlbEntry(READ_WRITE, v, Entry(s2.cur.table, v).pfn), v, ACCESS_READ);
  }

  /** With the TLB as coded, a read-only entry cached before the copy survives it. */
  lemma StaleEntryStays(s: Vm, v: Vpn, value: int)
    requires Good(s) && FreeFrame(s) && !Uncached(s, v)
    requires Shared(s, v)
    ensures !Agrees(s, Access(v, ACCESS_WRITE, value))
    ensures var (s', o) := Step(s, Access(v, ACCESS_WRITE, value));
      o == Done ==> LookupTlb(s'.tlb, v, ACCESS_READ) == Some(Entry(s.cur.table, v).pfn)
  {
    CopyIsPrivate(s, v);
    AccessAfterCopy(s, v, value);
    ReadEntry(s, v);
    StaleTranslation(s, CopyPage(s, v), v);
    var (s', o) := Step(s, Access(v, ACCESS_WRITE, value));
    if o == Done && Good(s') {
      LookupIsCoherent(s', v, ACCESS_READ);
    }
    assert EagerStep(View(s), Access(v, ACCESS_WRITE, value)).1 == Done;
  }

  lemma CopyAgrees(s: Vm, v: Vpn, value: int)
    requires Good(s) && FreeFrame(s) && Shared(s, v)
    ensures Agrees(s, Access(v, ACCESS_WRITE, value)) <==> Room(s, v, ACCESS_WRITE) && Uncached(s, v)
  {
    if !Uncached(s, v) {
      StaleEntryStays(s, v, value);
    } else {
      FreshCopyAgrees(s, v, value);
    }
  }

  /** Translating and touching change no count and no page table. */
  lemma WalkAndTouch(s2: Vm, v: Vpn, value: int)
    ensures var (s3, t) := Translate(s2, ACCESS_WRITE, v);
      var s' := if t.Hit? then Touch(s3, t.pfn, ACCESS_WRITE, value).0 else s3;
      s'.counts == s2.counts && forall f: Frame :: TotalRefs(s', f) == TotalRefs(s2, f)
  {
  }

  lemma LostIsBad(s: Vm, f: Frame)
    requires s.counts[f] != TotalRefs(s, f)
    ensures !Good(s)
  {
  }

  lemma LostReference(s: Vm, v: Vpn)
    requires Good(s) && !FreeFrame(s) && Shared(s, v)
    ensures var s2 := CopyPage(s, v); var f := Entry(s.cur.table, v).pfn;
      s2.counts[f] == TotalRefs(s2, f) - 1 && Permits(s2, v, ACCESS_WRITE)
    ensures Translate(CopyPage(s, v), ACCESS_WRITE, v).1 != Miss
  {
    var p, s2 := Entry(s.cur.table, v), CopyPage(s, v);
    FirstFreeSame(s.counts, s.counts[p.pfn := s.counts[p.pfn] - 1]);
    SetEntryIsUpdate(s.cur.table, v, p.(rw := READ_WRITE));
    RefsSame(Flat(s.cur.table), Flat(s2.cur.table), p.pfn);
  }

  /** Without a free frame the handler reports success, having dropped a reference it still uses. */
  lemma ExhaustedDisagrees(s: Vm, v: Vpn, value: int)
    requires Good(s) && !FreeFrame(s)
    requires Shared(s, v)
    ensures !Agrees(s, Access(v, ACCESS_WRITE, value))
    ensures HandlePageFault(s, v, ACCESS_WRITE).1 == Handled
    ensures var s', f := Step(s, Access(v, ACCESS_WRITE, value)).0, Entry(s.cur.table, v).pfn;
      s'.counts[f] == TotalRefs(s', f) - 1
  {
    LostReference(s, v);
    AccessAfterCopy(s, v, value);
    hide CopyPage, Step, Translate, TotalRefs, Good, Touch, Shared;
    var s2, f := CopyPage(s, v), Entry(s.cur.table, v).pfn;
    WalkAndTouch(s2, v, value);
    LostIsBad(Step(s, Access(v, ACCESS_WRITE, value)).0, f);
  }

  lemma AccessAgrees(s: Vm, v: Vpn, rw: Request, value: int)
    requires Good(s)
    ensures Agrees(s, Access(v, rw, value)) <==> Guard(s, Access(v, rw, value))
  {
    var p := Entry(s.cur.table, v);
    assert GoodPte(p, s.counts);
    if !p.valid {
      UnmappedAgrees(s, v, rw, value);
    } else if Permits(s, v, rw) {
      PermittedAgrees(s, v, rw, value);
    } else {
      TranslateGood(s, v, rw);
      CurMaps(s, v);
      if rw == ACCESS_WRITE && p.priv != ACCESS_READ {
        if s.counts[p.pfn] == 1 {
          UpgradeAgrees(s, v, value);
        } else if FreeFrame(s) {
          CopyAgrees(s, v, value);
        } else {
          ExhaustedDisagrees(s, v, value);
        }
      }
    }
  }

  // ---------------------------------------------------------------- switch and fork

  lemma FindPidView(q: seq<Process>, mem: Memory, pid: nat)
    ensures FindEager(QueueOf(q, mem), pid) == FindPid(q, pid)
  {
  }

  lemma ScheduleIsGood(s: Vm, pid: nat)
    requires Good(s) && FindPid(s.queue, pid) < |s.queue|
    ensures Good(SwitchProcess(s, pid))
  {
    var k := FindPid(s.queue, pid);
    var s' := SwitchProcess(s, pid);
    forall f: Frame
      ensures s'.counts[f] == TotalRefs(s', f)
    {
      QueueRefsWithout(s.queue, k, f);
      QueueRefsAppend(Without(s.queue, k), s.cur, f);
    }
    forall i | 0 <= i < |s'.queue|
      ensures GoodTable(s'.queue[i].table, s'.counts)
    {
      assert s'.queue[i] == if i == |s.queue| - 1 then s.cur else s.queue[if i < k then i else i + 1];
    }
  }

  lemma ScheduleAgrees(s: Vm, pid: nat)
    requires Good(s) && FindPid(s.queue, pid) < |s.queue|
    ensures Agrees(s, Switch(pid))
  {
    FindPidView(s.queue, s.mem, pid);
    var k := FindPid(s.queue, pid);
    var s' := SwitchProcess(s, pid);
    ScheduleIsGood(s, pid);
    assert QueueOf(s'.queue, s.mem) == Without(QueueOf(s.queue, s.mem), k) + [EagerProcessOf(s.cur, s.mem)];
  }

  lemma ProtectedEntries(t: Table, counts: Counts)
    requires forall v: Vpn :: GoodPte(Entry(t, v), counts)
    ensures forall v: Vpn :: Entry(ProtectTable(t), v) == Protect(Entry(t, v))
    ensures forall v: Vpn :: Entry(CopyTable(t), v) == Protect(Entry(t, v))
  {
  }

  lemma ForkConserves(s: Vm, pid: nat)
    requires Good(s) && FindPid(s.queue, pid) == |s.queue|
    ensures Conserved(SwitchProcess(s, pid))
  {
    var t, s' := s.cur.table, SwitchProcess(s, pid);
    ProtectedEntries(t, s.counts);
    forall f: Frame
      ensures s'.counts[f] == TotalRefs(s', f)
    {
      RefsSame(Flat(t), Flat(ProtectTable(t)), f);
      RefsSame(Flat(t), Flat(CopyTable(t)), f);
      QueueRefsAppend(s.queue, s.cur.(table := ProtectTable(t)), f);
    }
  }

  lemma ForkOther(s: Vm, i: nat)
    requires GoodPages(s) && i < |s.queue|
    ensures GoodTable(s.queue[i].table, CountsAfterFork(s.counts, s.cur.table))
  {
    forall w: Vpn
      ensures GoodPte(Entry(s.queue[i].table, w), CountsAfterFork(s.counts, s.cur.table))
    {
      assert GoodPte(Entry(s.queue[i].table, w), s.counts);
      if Entry(s.queue[i].table, w).valid {
        QueueMaps(s, i, w);
      }
    }
  }

  lemma ForkIsGood(s: Vm, pid: nat)
    requires Good(s) && FindPid(s.queue, pid) == |s.queue|
    ensures Good(SwitchProcess(s, pid))
  {
    var s' := SwitchProcess(s, pid);
    ForkConserves(s, pid);
    forall i | 0 <= i < |s.queue|
      ensures GoodTable(s.queue[i].table, s'.counts)
    {
      ForkOther(s, i);
    }
    ProtectedEntries(s.cur.table, s.counts);
    assert GoodTable(ProtectTable(s.cur.table), s'.counts);
    assert GoodTable(CopyTable(s.cur.table), s'.counts);
  }

  lemma ForkAgrees(s: Vm, pid: nat)
    requires Good(s) && FindPid(s.queue, pid) == |s.queue|
    ensures Agrees(s, Switch(pid))
  {
    FindPidView(s.queue, s.mem, pid);
    ForkIsGood(s, pid);
    var t := s.cur.table;
    ProtectedEntries(t, s.counts);
    assert SpaceOf(ProtectTable(t), s.mem) == SpaceOf(t, s.mem);
    assert SpaceOf(CopyTable(t), s.mem) == SpaceOf(t, s.mem);
    assert View(SwitchProcess(s, pid)).queue == View(s).queue + [View(s).cur];
  }

  lemma SwitchAgrees(s: Vm, pid: nat)
    requires Good(s)
    ensures Agrees(s, Switch(pid))
  {
    FindPidView(s.queue, s.mem, pid);
    if FindPid(s.queue, pid) < |s.queue| {
      ScheduleAgrees(s, pid);
    } else {
      ForkAgrees(s, pid);
    }
  }

  // ---------------------------------------------------------------- the TLB mode

  lemma TranslateMode(s: Vm, rw: Flags, vpn: Vpn)
    ensures Translate(s, rw, vpn).0.mode == s.mode
  {
  }

  lemma FaultMode(s: Vm, vpn: Vpn, rw: Flags)
    ensures HandlePageFault(s, vpn, rw).0.mode == s.mode
  {
  }

  lemma AccessMode(s: Vm, vpn: Vpn, rw: Request, value: int)
    ensures AccessMemory(s, vpn, rw, value).0.mode == s.mode
  {
    hide Translate, HandlePageFault;
    TranslateMode(s, rw, vpn);
    var s1 := Translate(s, rw, vpn).0;
    FaultMode(s1, vpn, rw);
    var s2 := HandlePageFault(s1, vpn, rw).0;
    TranslateMode(s2, rw, vpn);
    FaultMode(Translate(s2, rw, vpn).0, vpn, rw);
  }

  lemma ModeStays(s: Vm, c: Command)
    ensures Step(s, c).0.mode == s.mode
  {
    match c
    case Alloc(vpn, _) => TranslateMode(s, ACCESS_READ, vpn);
    case Free(vpn) => TranslateMode(s, ACCESS_READ, vpn);
    case Access(vpn, rw, value) => AccessMode(s, vpn, rw, value);
    case Switch(_) =>
  }

  lemma {:induction false} RunMode(s: Vm, trace: seq<Command>)
    ensures Run(s, trace).0.mode == s.mode
    decreases |trace|
  {
    if trace != [] {
      ModeStays(s, trace[0]);
      RunMode(Step(s, trace[0]).0, trace[1..]);
    }
  }

  // ---------------------------------------------------------------- main results

  /** One command behaves as with eager copying if and only if the guard holds. */
  lemma StepAgrees(s: Vm, c: Command)
    requires Good(s)
    ensures Agrees(s, c) <==> Guard(s, c)
  {
    match c
    case Alloc(v, writable) => AllocAgrees(s, v, writable);
    case Free(v) => FreeAgrees(s, v);
    case Access(v, rw, value) => AccessAgrees(s, v, rw, value);
    case Switch(pid) => SwitchAgrees(s, pid);
  }

  /** The guard holds at every command the loop reaches. */
  predicate Guarded(s: Vm, trace: seq<Command>)
    decreases |trace|
  {
    trace == [] ||
    (Guard(s, trace[0]) &&
     var (s', o) := Step(s, trace[0]);
     Ends(trace[0], o) || Guarded(s', trace[1..]))
  }

  /** Copy-on-write is transparent over whole traces: same outcomes, same final view, and the invariant. */
  lemma {:induction false} RunAgrees(s: Vm, trace: seq<Command>)
    requires Good(s) && Guarded(s, trace)
    ensures var (s', os) := Run(s, trace);
      var (e', eos) := EagerRun(View(s), trace);
      os == eos && Good(s') && View(s') == e'
    decreases |trace|
  {
    if trace != [] {
      StepAgrees(s, trace[0]);
      var (s', o) := Step(s, trace[0]);
      if !Ends(trace[0], o) {
        RunAgrees(s', trace[1..]);
      }
    }
  }
}
