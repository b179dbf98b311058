/** The global invariant of the simulator: reference counts, sharing, permissions and the TLB agree
    across all processes. One lemma, `Repoint`, covers every way the code changes a single PTE. */
module VmInvariant {
  import opened Common
  import opened VmModel
  import opened VmEager

  // ---------------------------------------------------------------- one table

  /** The two-level table behaves as one flat array: storing one VPN changes no other. */
  lemma SetEntryIsUpdate(t: Table, v: Vpn, p: Pte)
    ensures forall w: Vpn :: Entry(SetEntry(t, v, p), w) == if w == v then p else Entry(t, w)
    ensures Flat(SetEntry(t, v, p)) == Flat(t)[v := p]
  {
    forall w: Vpn
      ensures Entry(SetEntry(t, v, p), w) == if w == v then p else Entry(t, w)
    {
      if w != v && w / 16 == v / 16 {
        assert w % 16 != v % 16;
      }
    }
    var flat, flat' := Flat(t), Flat(SetEntry(t, v, p));
    forall w: Vpn
      ensures flat'[w] == flat[v := p][w]
    {
    }
    assert forall i :: 0 <= i < 256 ==> flat'[i] == flat[v := p][i];
  }

  function Maps(p: Pte, f: nat): nat { if p.valid && p.pfn == f then 1 else 0 }

  lemma {:induction false} RefsUpdate(s: seq<Pte>, i: nat, p: Pte, f: nat)
    requires i < |s|
    ensures Refs(s[i := p], f) == Refs(s, f) - Maps(s[i], f) + Maps(p, f)
  {
    var n := |s| - 1;
    if i == n {
      assert s[i := p][..n] == s[..n];
    } else {
      RefsUpdate(s[..n], i, p, f);
      assert s[i := p][..n] == s[..n][i := p];
    }
  }

  lemma {:induction false} RefsAtLeast(s: seq<Pte>, i: nat, f: nat)
    requires i < |s|
    ensures Refs(s, f) >= Maps(s[i], f)
  {
    if i < |s| - 1 {
      assert s[..|s| - 1][i] == s[i];
      RefsAtLeast(s[..|s| - 1], i, f);
    }
  }

  lemma {:induction false} RefsSame(s: seq<Pte>, t: seq<Pte>, f: nat)
    requires |s| == |t|
    requires forall i :: 0 <= i < |s| ==> Maps(s[i], f) == Maps(t[i], f)
    ensures Refs(s, f) == Refs(t, f)
  {
    if s != [] {
      RefsSame(s[..|s| - 1], t[..|t| - 1], f);
    }
  }

  lemma {:induction false} RefsZero(s: seq<Pte>, f: nat)
    requires forall i :: 0 <= i < |s| ==> Maps(s[i], f) == 0
    ensures Refs(s, f) == 0
  {
    if s != [] {
      RefsZero(s[..|s| - 1], f);
    }
  }

  lemma {:induction false} RefsAtMostOne(s: seq<Pte>, f: nat)
    requires forall i, j :: 0 <= i < j < |s| && s[i].valid && s[j].valid ==> s[i].pfn != s[j].pfn
    ensures Refs(s, f) <= 1
  {
    if s != [] {
      var n := |s| - 1;
      RefsAtMostOne(s[..n], f);
      if Maps(s[n], f) == 1 {
        RefsZero(s[..n], f);
      }
    }
  }

  // ---------------------------------------------------------------- all processes

  /** How many PTEs of all the processes on the list map `f`. */
  function QueueRefs(q: seq<Process>, f: nat): nat {
    if q == [] then 0 else QueueRefs(q[..|q| - 1], f) + Refs(Flat(q[|q| - 1].table), f)
  }

  /** The number of valid PTEs that map `f`, over all processes. */
  function TotalRefs(s: Vm, f: nat): nat { Refs(Flat(s.cur.table), f) + QueueRefs(s.queue, f) }

  lemma {:induction false} QueueRefsAtLeast(q: seq<Process>, k: nat, f: nat)
    requires k < |q|
    ensures QueueRefs(q, f) >= Refs(Flat(q[k].table), f)
  {
    if k < |q| - 1 {
      assert q[..|q| - 1][k] == q[k];
      QueueRefsAtLeast(q[..|q| - 1], k, f);
    }
  }

  lemma {:induction false} QueueRefsWithout(q: seq<Process>, k: nat, f: nat)
    requires k < |q|
    ensures QueueRefs(Without(q, k), f) == QueueRefs(q, f) - Refs(Flat(q[k].table), f)
  {
    hide Flat, Refs;
    var n := |q| - 1;
    if k == n {
      assert Without(q, k) == q[..n];
    } else {
      QueueRefsWithout(q[..n], k, f);
      var r := Without(q, k);
      assert r[..|r| - 1] == Without(q[..n], k) && r[|r| - 1] == q[n];
    }
  }

  lemma QueueRefsAppend(q: seq<Process>, p: Process, f: nat)
    ensures QueueRefs(q + [p], f) == QueueRefs(q, f) + Refs(Flat(p.table), f)
  {
    assert (q + [p])[..|q|] == q;
  }

  // ---------------------------------------------------------------- the invariant

  /** A valid PTE is readable or read-write; the write bit goes with a frame mapped once and a page
      allocated rw; an invalid PTE is all zeroes. */
  predicate GoodPte(p: Pte, counts: Counts) {
    if p.valid then
      && (p.rw == ACCESS_READ || p.rw == READ_WRITE)
      && p.priv != 0
      && (p.rw == READ_WRITE ==> p.priv != ACCESS_READ && counts[p.pfn] == 1)
    else p == NO_PTE
  }

  ghost predicate GoodTable(t: Table, counts: Counts) {
    && (forall v: Vpn :: GoodPte(Entry(t, v), counts))
    && (forall v: Vpn, w: Vpn ::
      v != w && Entry(t, v).valid && Entry(t, w).valid ==> Entry(t, v).pfn != Entry(t, w).pfn)
  }

  ghost predicate Conserved(s: Vm) {
    forall f: Frame :: s.counts[f] == TotalRefs(s, f)
  }

  ghost predicate GoodPages(s: Vm) {
    && GoodTable(s.cur.table, s.counts)
    && (forall i :: 0 <= i < |s.queue| ==> GoodTable(s.queue[i].table, s.counts))
    && Conserved(s)
  }

  /** A cached translation is one the page table would also give: the same frame and, with the
      documented insertion, the same rw; as coded an entry may be left behind read-only. */
  predicate GoodCached(mode: TlbMode, e: TlbEntry, t: Table) {
    var p := Entry(t, e.vpn);
    && p.valid && p.pfn == e.pfn && (e.rw == ACCESS_READ || e.rw == READ_WRITE)
    && (if mode == Documented then e.rw == p.rw else e.rw <= p.rw)
  }

  ghost predicate GoodTlb(s: Vm) {
    && (s.mode == Off ==> s.tlb == [])
    && |s.tlb| < NR_TLB_ENTRIES
    && (forall j :: 0 <= j < |s.tlb| ==> GoodCached(s.mode, s.tlb[j], s.cur.table))
    && (s.mode == Documented ==> forall i, j :: 0 <= i < j < |s.tlb| ==> s.tlb[i].vpn != s.tlb[j].vpn)
  }

  ghost predicate Good(s: Vm) { GoodPages(s) && GoodTlb(s) }

  lemma BootIsGood(mode: TlbMode)
    ensures Good(Boot(mode))
  {
    var s := Boot(mode);
    assert forall v: Vpn :: Entry(s.cur.table, v) == NO_PTE;
    forall f: Frame
      ensures s.counts[f] == TotalRefs(s, f)
    {
      RefsZero(Flat(s.cur.table), f);
    }
  }

  lemma QueueMaps(s: Vm, i: nat, w: Vpn)
    requires GoodPages(s) && i < |s.queue| && Entry(s.queue[i].table, w).valid
    ensures s.counts[Entry(s.queue[i].table, w).pfn] >= 1 + Refs(Flat(s.cur.table), Entry(s.queue[i].table, w).pfn)
  {
    var f := Entry(s.queue[i].table, w).pfn;
    RefsAtLeast(Flat(s.queue[i].table), w, f);
    QueueRefsAtLeast(s.queue, i, f);
  }

  lemma CurMaps(s: Vm, v: Vpn)
    requires GoodPages(s) && Entry(s.cur.table, v).valid
    ensures s.counts[Entry(s.cur.table, v).pfn] >= 1
    ensures forall i, w: Vpn :: 0 <= i < |s.queue| && Entry(s.queue[i].table, w).valid
              && Entry(s.queue[i].table, w).pfn == Entry(s.cur.table, v).pfn
              ==> s.counts[Entry(s.cur.table, v).pfn] >= 2
  {
    var f := Entry(s.cur.table, v).pfn;
    RefsAtLeast(Flat(s.cur.table), v, f);
    forall i, w: Vpn | 0 <= i < |s.queue| && Entry(s.queue[i].table, w).valid && Entry(s.queue[i].table, w).pfn == f
      ensures s.counts[f] >= 2
    {
      QueueMaps(s, i, w);
    }
  }

  /** The current process's PTE for `v` becomes `p`, and the counts follow. */
  ghost predicate Repointed(s: Vm, s': Vm, v: Vpn, p: Pte) {
    var was := Entry(s.cur.table, v);
    && s'.queue == s.queue
    && s'.cur == s.cur.(table := SetEntry(s.cur.table, v, p))
    && (forall f: Frame :: s'.counts[f] == s.counts[f] - Maps(was, f) + Maps(p, f))
    && GoodPte(p, s'.counts)
    && (p.valid ==> (was.valid && was.pfn == p.pfn) || s.counts[p.pfn] == 0)
  }

  lemma RepointOther(s: Vm, s': Vm, v: Vpn, p: Pte, i: nat)
    requires GoodPages(s) && Repointed(s, s', v, p) && i < |s.queue|
    ensures GoodTable(s.queue[i].table, s'.counts)
  {
    var was := Entry(s.cur.table, v);
    forall w: Vpn
      ensures GoodPte(Entry(s.queue[i].table, w), s'.counts)
    {
      var other := Entry(s.queue[i].table, w);
      assert GoodPte(other, s.counts);
      if other.valid {
        QueueMaps(s, i, w);
        if was.valid && was.pfn == other.pfn {
          CurMaps(s, v);
        }
      }
    }
  }

  lemma Repoint(s: Vm, s': Vm, v: Vpn, p: Pte)
    requires GoodPages(s) && Repointed(s, s', v, p)
    ensures GoodPages(s')
  {
    var was := Entry(s.cur.table, v);
    SetEntryIsUpdate(s.cur.table, v, p);
    forall f: Frame
      ensures s'.counts[f] == TotalRefs(s', f)
    {
      RefsUpdate(Flat(s.cur.table), v, p, f);
    }
    forall w: Vpn | w != v && Entry(s.cur.table, w).valid
      ensures p.valid ==> p.pfn != Entry(s.cur.table, w).pfn
      ensures GoodPte(Entry(s.cur.table, w), s'.counts)
    {
      CurMaps(s, w);
    }
    forall i | 0 <= i < |s.queue|
      ensures GoodTable(s.queue[i].table, s'.counts)
    {
      RepointOther(s, s', v, p, i);
    }
  }

  lemma OtherSpace(s: Vm, s': Vm, v: Vpn, p: Pte, i: nat)
    requires GoodPages(s') && s'.queue == s.queue && i < |s.queue| && Entry(s'.cur.table, v) == p
    requires forall f: Frame :: s'.mem[f] != s.mem[f] ==> p.valid && f == p.pfn && s'.counts[f] == 1
    ensures SpaceOf(s.queue[i].table, s.mem) == SpaceOf(s.queue[i].table, s'.mem)
  {
    var a, b := SpaceOf(s.queue[i].table, s.mem), SpaceOf(s.queue[i].table, s'.mem);
    forall w: Vpn
      ensures a[w] == b[w]
    {
      if Entry(s.queue[i].table, w).valid && p.valid {
        CurMaps(s', v);
      }
    }
    assert forall j :: 0 <= j < 256 ==> a[j] == b[j];
  }

  /** What the processes see after `Repoint`, when contents changed at most in the frame of `p`. */
  lemma RepointView(s: Vm, s': Vm, v: Vpn, p: Pte)
    requires GoodPages(s) && Repointed(s, s', v, p)
    requires forall f: Frame :: s'.mem[f] != s.mem[f] ==> p.valid && f == p.pfn && s'.counts[f] == 1
    ensures View(s') == SetPage(View(s), v, PageOf(p, s'.mem))
  {
    Repoint(s, s', v, p);
    SetEntryIsUpdate(s.cur.table, v, p);
    var pages, pages' := SpaceOf(s.cur.table, s.mem), SpaceOf(s'.cur.table, s'.mem);
    forall w: Vpn
      ensures pages'[w] == pages[v := PageOf(p, s'.mem)][w]
    {
    }
    assert pages' == pages[v := PageOf(p, s'.mem)];
    forall i | 0 <= i < |s.queue|
      ensures SpaceOf(s.queue[i].table, s.mem) == SpaceOf(s.queue[i].table, s'.mem)
    {
      OtherSpace(s, s', v, p, i);
    }
    assert QueueOf(s.queue, s.mem) == QueueOf(s'.queue, s'.mem);
  }
}
