/** The simulator in its own form: arrays for mapcounts and the TLB, directories behind pointers, lists
    that are searched and updated in place. Every method is proved to compute the function of the same
    name in `VmModel` on the ghost state `S`. */
module VmMachine {
  import opened Common
  import opened VmEager
  import opened VmInvariant
  import opened VmLoop
  import opened VmModel
  import opened VmTransparency

  datatype TlbSlot = TlbSlot(valid: bool, rw: Flags, vpn: Vpn, pfn: Frame)

  /** struct process. `Repr` is the memory it owns: its outer table and its directories. */
  class Proc {
    var pid: nat
    const outer: array<array?<Pte>>
    ghost var Repr: set<object>

    /** The process is the value `m`; no directory hangs in two slots. */
    ghost predicate Shows(m: Process)
      reads this, Repr
      ensures Shows(m) ==> this in Repr && pid == m.pid
    {
      && this in Repr && outer in Repr
      && pid == m.pid && outer.Length == 16
      && (forall i :: 0 <= i < 16 && outer[i] != null ==> outer[i] in Repr && outer[i].Length == 16)
      && (forall i, j :: 0 <= i < j < 16 && outer[i] != null ==> outer[i] != outer[j])
      && (forall i :: 0 <= i < 16 ==>
            if outer[i] == null then m.table[i] == None
            else m.table[i].Some? && m.table[i].value == outer[i][..])
    }

    constructor (pid: nat)
      ensures Shows(Process(pid, EmptyTable())) && fresh(Repr)
    {
      this.pid := pid;
      outer := new array?<Pte>[16](_ => null);
      new;
      Repr := {this, outer};
    }

    /** `pd->ptes[vpn % 16] = p` in an existing directory. */
    method Store(vpn: Vpn, p: Pte, ghost m: Process)
      requires Shows(m) && m.table[vpn / 16].Some?
      modifies Repr
      ensures Repr == old(Repr) && Shows(m.(table := SetEntry(m.table, vpn, p)))
    {
      var i := vpn / 16;
      var d := outer[i];
      d[vpn % 16] := p;
      assert d[..] == old(d[..])[vpn % 16 := p];
    }

    /** `outer_ptes[i] = malloc(...)`, taken as zeroed memory, when the slot is null. */
    method EnsureDirectory(i: nat, ghost m: Process)
      requires Shows(m) && i < 16
      modifies Repr
      ensures fresh(Repr - old(Repr)) && old(Repr) <= Repr
      ensures Shows(m.(table := m.table[i := Some(DirectoryAt(m.table, i))]))
    {
      if outer[i] == null {
        var d := new Pte[16](_ => NO_PTE);
        assert d[..] == NoDirectory();
        outer[i] := d;
        Repr := Repr + {d};
      }
    }

    /** The PTE of `vpn` when its directory exists. */
    function PteAt(vpn: Vpn, ghost m: Process): (p: Pte)
      requires Shows(m) && m.table[vpn / 16].Some?
      reads this, Repr
      ensures p == Entry(m.table, vpn)
    {
      outer[vpn / 16][vpn % 16]
    }
  }

  lemma EnsureThenSet(t: Table, v: Vpn, p: Pte)
    ensures SetEntry(t[v / 16 := Some(DirectoryAt(t, v / 16))], v, p) == SetEntry(t, v, p)
  {
  }

  lemma RunNothing(s: Vm)
    ensures Run(s, []) == (s, [])
  {
  }

  lemma RunUnrolls(s: Vm, trace: seq<Command>, i: nat)
    requires i < |trace|
    ensures var (s', o) := Step(s, trace[i]);
      if Ends(trace[i], o) then Run(s, trace[i..]) == (s', [o])
      else Run(s, trace[i..]) == (Run(s', trace[i + 1..]).0, [o] + Run(s', trace[i + 1..]).1)
  {
    assert trace[i..][1..] == trace[i + 1..];
  }

  /** No outcome of a guarded trace is a crash or a hang. */
  lemma {:induction false} GuardedNeverDies(s: Vm, trace: seq<Command>)
    requires Good(s) && Guarded(s, trace)
    ensures forall o :: o in Run(s, trace).1 ==> o !in {Crash, Hang, Overrun}
    decreases |trace|
  {
    if trace != [] {
      StepAgrees(s, trace[0]);
      var (s', o) := Step(s, trace[0]);
      if !Ends(trace[0], o) {
        GuardedNeverDies(s', trace[1..]);
      }
    }
  }

  /** What __access_memory returns when it leaves the loop on the fault handler's answer. */
  function OutcomeOf(fault: Fault): Outcome {
    match fault
    case Handled => Done
    case NotHandled => Refused
    case NullDereference => Crash
  }

  /** The loop of __access_memory after `n` retries. */
  ghost function Retry(s: Vm, vpn: Vpn, rw: Request, value: int, n: nat): (Vm, Outcome)
    requires n < 2
    decreases 2 - n
  {
    var (s1, t) := Translate(s, rw, vpn);
    match t
    case NoRoom => (s1, Overrun)
    case Hit(pfn) => Touch(s1, pfn, rw, value)
    case Miss =>
      var (s2, fault) := HandlePageFault(s1, vpn, rw);
      if fault == Handled && n + 1 < 2 then Retry(s2, vpn, rw, value, n + 1) else (s2, OutcomeOf(fault))
  }

  lemma RetriesTwice(s: Vm, vpn: Vpn, rw: Request, value: int)
    ensures AccessMemory(s, vpn, rw, value) == Retry(s, vpn, rw, value, 0)
  {
  }

  ghost function ProtectedUpTo(t: Table, n: nat): Table
    requires n <= 16
  {
    ProtectTable(t)[..n] + t[n..]
  }

  ghost function CopiedUpTo(t: Table, n: nat): Table
    requires n <= 16
  {
    CopyTable(t)[..n] + EmptyTable()[n..]
  }

  lemma CountsForked(a: seq<nat>, counts: Counts, t: Table)
    requires |a| == 128 && forall f: Frame :: a[f] == counts[f] + Refs(Flat(t), f)
    ensures a == CountsAfterFork(counts, t)
  {
  }

  /** How many entries of the first `n` directories map `f`. */
  ghost function RefsUpTo(t: Table, n: nat, f: nat): nat
    requires n <= 16
  {
    if n == 0 then 0 else RefsUpTo(t, n - 1, f) + Refs(DirectoryAt(t, n - 1), f)
  }

  lemma FlatSlice(t: Table, i: nat)
    requires i < 16
    ensures Flat(t)[16 * i..16 * i + 16] == DirectoryAt(t, i)
  {
    forall j | 0 <= j < 16
      ensures Flat(t)[16 * i + j] == DirectoryAt(t, i)[j]
    {
      var v: Vpn := 16 * i + j;
      assert v / 16 == i && v % 16 == j;
    }
  }

  lemma {:induction false} RefsConcat(a: seq<Pte>, b: seq<Pte>, f: nat)
    ensures Refs(a + b, f) == Refs(a, f) + Refs(b, f)
  {
    if b == [] {
      assert a + b == a;
    } else {
      var n := |b| - 1;
      assert (a + b)[..|a + b| - 1] == a + b[..n];
      RefsConcat(a, b[..n], f);
    }
  }

  lemma RefsSplit(s: seq<Pte>, k: nat, m: nat, f: nat)
    requires k <= m <= |s|
    ensures Refs(s[..m], f) == Refs(s[..k], f) + Refs(s[k..m], f)
  {
    assert s[..m] == s[..k] + s[k..m];
    RefsConcat(s[..k], s[k..m], f);
  }

  lemma {:induction false} FlatPrefix(t: Table, n: nat, f: nat)
    requires n <= 16
    ensures Refs(Flat(t)[..16 * n], f) == RefsUpTo(t, n, f)
  {
    if n > 0 {
      FlatPrefix(t, n - 1, f);
      FlatSlice(t, n - 1);
      RefsSplit(Flat(t), 16 * (n - 1), 16 * (n - 1) + 16, f);
    }
  }

  lemma FlatRefs(t: Table, f: nat)
    ensures Refs(Flat(t), f) == RefsUpTo(t, 16, f)
  {
    FlatPrefix(t, 16, f);
    assert Flat(t)[..256] == Flat(t);
  }

  lemma ForkEnds(t: Table)
    ensures CopiedUpTo(t, 0) == EmptyTable() && ProtectedUpTo(t, 0) == t
    ensures CopiedUpTo(t, 16) == CopyTable(t) && ProtectedUpTo(t, 16) == ProtectTable(t)
    ensures forall f: Frame :: Refs(Flat(t), f) == RefsUpTo(t, 16, f)
  {
    forall f: Frame
      ensures Refs(Flat(t), f) == RefsUpTo(t, 16, f)
    {
      FlatRefs(t, f);
    }
  }

  lemma ForkStep(t: Table, i: nat)
    requires i < 16
    ensures ProtectedUpTo(t, i)[i] == t[i] && CopiedUpTo(t, i)[i] == None
    ensures ProtectedUpTo(t, i)[i := ProtectTable(ProtectedUpTo(t, i))[i]] == ProtectedUpTo(t, i + 1)
    ensures CopiedUpTo(t, i)[i := CopyTable(ProtectedUpTo(t, i))[i]] == CopiedUpTo(t, i + 1)
  {
  }

  /** One more entry counts for the frame it maps. */
  lemma RefsNext(d: seq<Pte>, j: nat)
    requires j < |d|
    ensures forall f: nat :: Refs(d[..j + 1], f) == Refs(d[..j], f) + if d[j].valid && d[j].pfn == f then 1 else 0
    ensures forall f: nat :: Refs(d[..0], f) == 0
  {
    assert d[..j + 1][..j] == d[..j];
  }

  lemma RefsOfNothing()
    ensures forall f: nat :: Refs(NoDirectory(), f) == 0
  {
    forall f: nat
      ensures Refs(NoDirectory(), f) == 0
    {
      RefsZero(NoDirectory(), f);
    }
  }

  class Machine {
    const mode: TlbMode
    const mapcounts: array<nat>
    const tlb: array<TlbSlot>
    const memory: array<int>
    var processes: seq<Proc>
    var current: Proc
    ghost var S: Vm
    ghost var Heap: set<object>

    ghost predicate Valid()
      reads this, Heap
    {
      && {this, mapcounts, tlb, memory} <= Heap && memory as object != mapcounts
      && S.mode == mode
      && mapcounts[..] == S.counts && memory[..] == S.mem
      && TlbIs(S.tlb)
      && ProcessesAre(S.cur, S.queue)
    }

    ghost predicate TlbIs(t: seq<TlbEntry>)
      reads tlb
    {
      && tlb.Length == NR_TLB_ENTRIES && |t| < NR_TLB_ENTRIES
      && (forall j :: 0 <= j < |t| ==> tlb[j] == TlbSlot(true, t[j].rw, t[j].vpn, t[j].pfn))
      && !tlb[|t|].valid
    }

    /** Each process is its value, and no two share memory. */
    ghost predicate ProcessesAre(cur: Process, queue: seq<Process>)
      reads this, Heap
    {
      && Owned(current) && current.Shows(cur)
      && |processes| == |queue|
      && (forall k :: 0 <= k < |processes| ==>
            Owned(processes[k]) && processes[k].Shows(queue[k]) && current.Repr !! processes[k].Repr)
      && (forall j, k :: 0 <= j < k < |processes| ==> processes[j].Repr !! processes[k].Repr)
    }

    ghost predicate Owned(p: Proc)
      reads this, Heap
    {
      p in Heap && p.Repr <= Heap && {this, mapcounts, tlb, memory} !! p.Repr
    }

    constructor (mode: TlbMode)
      ensures Valid() && S == Boot(mode) && fresh(Heap)
    {
      this.mode := mode;
      mapcounts := new nat[128](_ => 0);
      tlb := new TlbSlot[256](_ => TlbSlot(false, 0, 0, 0));
      memory := new int[128](_ => 0);
      processes := [];
      var init := new Proc(0);
      current := init;
      S := Boot(mode);
      new;
      Heap := {this, mapcounts, tlb, memory} + init.Repr;
      assert mapcounts[..] == NoCounts() && memory[..] == NoMemory();
    }

    // -------------------------------------------------------------- TLB

    method LookupTlb(vpn: Vpn, rw: Flags) returns (hit: bool, pfn: Frame)
      requires Valid()
      ensures VmModel.LookupTlb(S.tlb, vpn, rw) == if hit then Some(pfn) else None
    {
      var k := 0;
      hit, pfn := false, 0;
      while tlb[k].valid
        invariant 0 <= k <= |S.tlb|
        invariant VmModel.LookupTlb(S.tlb, vpn, rw) == VmModel.LookupTlb(S.tlb[k..], vpn, rw)
        decreases |S.tlb| - k
      {
        if tlb[k].vpn == vpn && tlb[k].rw >= rw {
          return true, tlb[k].pfn;
        }
        assert S.tlb[k..][1..] == S.tlb[k + 1..];
        k := k + 1;
      }
    }

    /** Overwrites entry `k`, or appends and moves the sentinel. */
    method PutTlb(k: nat, e: TlbEntry)
      requires Valid() && k <= |S.tlb| && k + 1 < NR_TLB_ENTRIES
      modifies this`S, tlb
      ensures Valid()
      ensures S == old(S).(tlb := if k < |old(S).tlb| then old(S).tlb[k := e] else old(S).tlb + [e])
    {
      var append := !tlb[k].valid;
      tlb[k] := TlbSlot(true, e.rw, e.vpn, e.pfn);
      if append {
        tlb[k + 1] := tlb[k + 1].(valid := false);
      }
      S := S.(tlb := if k < |S.tlb| then S.tlb[k := e] else S.tlb + [e]);
    }

    method InsertTlb(vpn: Vpn, rw: Flags, pfn: Frame) returns (room: bool)
      requires Valid()
      modifies this`S, tlb
      ensures room == VmModel.InsertTlb(mode, old(S.tlb), vpn, rw, pfn).Some?
      ensures S == if room then old(S).(tlb := VmModel.InsertTlb(mode, old(S.tlb), vpn, rw, pfn).value) else old(S)
      ensures Valid()
    {
      var k := 0;
      while tlb[k].valid && !(tlb[k].vpn == vpn && (mode == Documented || tlb[k].rw == rw))
        invariant 0 <= k <= |S.tlb|
        invariant forall j :: 0 <= j < k ==> !SameSlot(mode, S.tlb[j], vpn, rw)
        decreases |S.tlb| - k
      {
        k := k + 1;
      }
      assert k == Slot(mode, S.tlb, vpn, rw);
      if !tlb[k].valid && k + 1 == tlb.Length {
        return false;
      }
      PutTlb(k, TlbEntry(rw, vpn, pfn));
      return true;
    }

    /** The part of free_page that takes the entry out and moves the later ones down. The code's search
        looks at the first entry only: `false` is a search that does not end. */
    method RemoveTlb(vpn: Vpn) returns (ended: bool)
      requires Valid()
      modifies this`S, tlb
      ensures ended == VmModel.RemoveTlb(mode, old(S.tlb), vpn).Some?
      ensures S == if ended then old(S).(tlb := VmModel.RemoveTlb(mode, old(S.tlb), vpn).value) else old(S)
      ensures Valid()
    {
      var k := 0;
      while tlb[k].valid && tlb[k].vpn != vpn
        invariant 0 <= k <= |S.tlb|
        invariant mode != Documented ==> k == 0
        invariant forall j :: 0 <= j < k ==> S.tlb[j].vpn != vpn
        decreases |S.tlb| - k
      {
        if mode != Documented {
          assert FindVpn(S.tlb, vpn) != 0;
          return false;
        }
        k := k + 1;
      }
      assert k == FindVpn(S.tlb, vpn);
      if !tlb[k].valid {
        return true;
      }
      ShiftTlb(k, S.tlb);
      S := S.(tlb := Without(S.tlb, k));
      return true;
    }

    /** Moves the entries after `k` down by one. */
    method ShiftTlb(k: nat, ghost t: seq<TlbEntry>)
      requires TlbIs(t) && k < |t|
      modifies tlb
      ensures TlbIs(Without(t, k))
    {
      tlb[k] := tlb[k].(valid := false);
      var i := k + 1;
      while tlb[i].valid
        invariant k < i <= |t|
        invariant forall j :: 0 <= j < i - 1 ==>
                    tlb[j] == (var e := t[if j < k then j else j + 1]; TlbSlot(true, e.rw, e.vpn, e.pfn))
        invariant forall j :: i <= j < |t| ==> tlb[j] == TlbSlot(true, t[j].rw, t[j].vpn, t[j].pfn)
        invariant !tlb[|t|].valid
        decreases |t| - i
      {
        tlb[i - 1] := tlb[i];
        i := i + 1;
      }
      tlb[i - 1] := tlb[i - 1].(valid := false);
    }

    // -------------------------------------------------------------- OS

    /** Makes `p` the PTE of `vpn`, creating the directory if need be. */
    method SetPte(vpn: Vpn, p: Pte)
      requires Valid()
      modifies this`S, this`Heap, current.Repr
      ensures Valid() && fresh(Heap - old(Heap)) && fresh(current.Repr - old(current.Repr))
      ensures S == old(S).(cur := old(S).cur.(table := SetEntry(old(S).cur.table, vpn, p)))
    {
      hide Proc.Shows, SetEntry;
      current.EnsureDirectory(vpn / 16, S.cur);
      ghost var m := S.cur.(table := S.cur.table[vpn / 16 := Some(DirectoryAt(S.cur.table, vpn / 16))]);
      current.Store(vpn, p, m);
      EnsureThenSet(S.cur.table, vpn, p);
      Heap := Heap + current.Repr;
      S := S.(cur := S.cur.(table := SetEntry(S.cur.table, vpn, p)));
    }

    method AllocPage(vpn: Vpn, rw: Flags) returns (ghost r: Option<Frame>, pfn: int)
      requires Valid()
      modifies this`S, this`Heap, mapcounts, current.Repr
      ensures Valid() && fresh(Heap - old(Heap)) && fresh(current.Repr - old(current.Repr))
      ensures (S, r) == VmModel.AllocPage(old(S), vpn, rw)
      ensures pfn == if r.Some? then r.value else -1
    {
      var i := 0;
      while i < NR_PAGEFRAMES && mapcounts[i] != 0
        invariant 0 <= i <= NR_PAGEFRAMES
        invariant forall j :: 0 <= j < i ==> S.counts[j] != 0
      {
        i := i + 1;
      }
      assert i == FirstFree(S.counts);
      if i == NR_PAGEFRAMES {
        return None, -1;
      }
      mapcounts[i] := mapcounts[i] + 1;
      S := S.(counts := S.counts[i := S.counts[i] + 1]);
      SetPte(vpn, Pte(true, rw, i, rw));
      return Some(i), i;
    }

    /** The current process's PTE for `vpn` when its directory exists. */
    function CurrentPte(vpn: Vpn): (p: Pte)
      requires Valid() && S.cur.table[vpn / 16].Some?
      reads this, Heap
      ensures p == Entry(S.cur.table, vpn)
    {
      current.PteAt(vpn, S.cur)
    }

    method DropCount(f: Frame)
      requires Valid()
      modifies this`S, mapcounts
      ensures Valid() && S == old(S).(counts := old(S).counts[f := Dec32(old(S).counts[f])])
    {
      mapcounts[f] := Dec32(mapcounts[f]);
      S := S.(counts := S.counts[f := Dec32(S.counts[f])]);
    }

    method CopyFrame(from: Frame, to: Frame)
      requires Valid()
      modifies this`S, memory
      ensures Valid() && S == old(S).(mem := old(S).mem[to := old(S).mem[from]])
    {
      SetMemory(to, memory[from]);
    }

    method SetMemory(f: Frame, value: int)
      requires Valid()
      modifies this`S, memory
      ensures Valid() && S == old(S).(mem := old(S).mem[f := value])
    {
      memory[f] := value;
      S := S.(mem := S.mem[f := value]);
    }

    /** After a hang the state is not defined. */
    method FreePage(vpn: Vpn) returns (o: Outcome)
      requires Valid()
      modifies this`S, this`Heap, mapcounts, tlb, current.Repr
      ensures o == VmModel.FreePage(old(S), vpn).1
      ensures Valid() && fresh(Heap - old(Heap)) && fresh(current.Repr - old(current.Repr))
      ensures o == Done ==> S == VmModel.FreePage(old(S), vpn).0
    {
      if current.outer[vpn / 16] == null {
        return Crash;
      }
      DropCount(CurrentPte(vpn).pfn);
      SetPte(vpn, NO_PTE);
      var ended := RemoveTlb(vpn);
      return if ended then Done else Hang;
    }

    method CopyPage(vpn: Vpn)
      requires Valid() && S.cur.table[vpn / 16].Some? && S.counts[Entry(S.cur.table, vpn).pfn] >= 2
      modifies this`S, this`Heap, mapcounts, memory, current.Repr
      ensures Valid() && fresh(Heap - old(Heap)) && fresh(current.Repr - old(current.Repr))
      ensures S == VmModel.CopyPage(old(S), vpn)
    {
      hide Valid;
      var shared := CurrentPte(vpn).pfn;
      DropCount(shared);
      var r, f := AllocPage(vpn, ACCESS_WRITE);
      if f != -1 {
        CopyFrame(shared, f);
      }
      SetPteRw(vpn, READ_WRITE);
    }

    method SetPteRw(vpn: Vpn, rw: Flags)
      requires Valid() && S.cur.table[vpn / 16].Some?
      modifies this`S, this`Heap, current.Repr
      ensures Valid() && fresh(Heap - old(Heap)) && fresh(current.Repr - old(current.Repr))
      ensures S == SetRw(old(S), vpn, rw)
    {
      SetPte(vpn, CurrentPte(vpn).(rw := rw));
    }

    method HandlePageFault(vpn: Vpn, rw: Flags) returns (fault: Fault)
      requires Valid()
      modifies this`S, this`Heap, mapcounts, memory, current.Repr
      ensures Valid() && fresh(Heap - old(Heap)) && fresh(current.Repr - old(current.Repr))
      ensures (S, fault) == VmModel.HandlePageFault(old(S), vpn, rw)
    {
      if rw != ACCESS_WRITE {
        return NotHandled;
      }
      if current.outer[vpn / 16] == null {
        return NullDereference;
      }
      var pte := CurrentPte(vpn);
      if pte.priv != ACCESS_READ {
        if mapcounts[pte.pfn] == 1 {
          SetPte(vpn, pte.(rw := READ_WRITE, priv := ACCESS_WRITE));
          return Handled;
        } else if mapcounts[pte.pfn] >= 2 {
          CopyPage(vpn);
          return Handled;
        }
      }
      return NotHandled;
    }

    // -------------------------------------------------------------- switch and fork

    /** The inner loop of fork: counts every valid entry of `src`, write-protects it in place and copies
        it into a fresh directory. */
    method ForkDirectory(src: array<Pte>) returns (dst: array<Pte>)
      requires src.Length == 16 && mapcounts.Length == 128 && src as object != mapcounts
      modifies src, mapcounts
      ensures fresh(dst) && dst.Length == 16
      ensures src[..] == ProtectDirectory(old(src[..])) && dst[..] == CopyDirectory(old(src[..]))
      ensures forall f: Frame :: mapcounts[f] == old(mapcounts[f]) + Refs(old(src[..]), f)
    {
      hide Refs;
      dst := new Pte[16](_ => NO_PTE);
      ghost var d := src[..];
      RefsNext(d, 0);
      var j := 0;
      while j < 16
        invariant 0 <= j <= 16
        invariant forall k :: 0 <= k < 16 ==> src[k] == if k < j then Protect(d[k]) else d[k]
        invariant forall k :: 0 <= k < 16 ==> dst[k] == if k < j && d[k].valid then Protect(d[k]) else NO_PTE
        invariant forall f: Frame :: mapcounts[f] == old(mapcounts[f]) + Refs(d[..j], f)
      {
        RefsNext(d, j);
        if src[j].valid {
          mapcounts[src[j].pfn] := mapcounts[src[j].pfn] + 1;
          if src[j].rw == ACCESS_WRITE {
            src[j] := src[j].(priv := src[j].rw);
          }
          src[j] := src[j].(rw := ACCESS_READ);
          dst[j] := src[j];
        }
        j := j + 1;
      }
      assert d[..16] == d;
    }

    /** One outer slot of fork; a null directory is skipped. */
    method ForkSlot(i: nat, child: Proc, ghost m: Process, ghost c: Process)
      requires i < 16 && mapcounts.Length == 128 && mapcounts !in current.Repr && mapcounts !in child.Repr
      requires current.Repr !! child.Repr && current.Shows(m) && child.Shows(c) && c.table[i] == None
      modifies mapcounts, current.Repr, child.Repr
      ensures fresh(child.Repr - old(child.Repr)) && old(child.Repr) <= child.Repr && current.Repr == old(current.Repr)
      ensures current.Shows(m.(table := m.table[i := ProtectTable(m.table)[i]]))
      ensures child.Shows(c.(table := c.table[i := CopyTable(m.table)[i]]))
      ensures forall f: Frame :: mapcounts[f] == old(mapcounts[f]) + Refs(DirectoryAt(m.table, i), f)
    {
      RefsOfNothing();
      if current.outer[i] != null {
        var dst := ForkDirectory(current.outer[i]);
        child.outer[i] := dst;
        child.Repr := child.Repr + {dst};
      }
    }

    /** The outer loop of fork. */
    method Fork(pid: nat, ghost t: Table) returns (child: Proc)
      requires mapcounts.Length == 128 && {this, mapcounts} !! current.Repr && current.Shows(Process(current.pid, t))
      modifies mapcounts, current.Repr
      ensures fresh(child.Repr) && child.Shows(Process(pid, CopyTable(t)))
      ensures current.Repr == old(current.Repr) && current.Shows(Process(old(current.pid), ProtectTable(t)))
      ensures forall f: Frame :: mapcounts[f] == old(mapcounts[f]) + Refs(Flat(t), f)
    {
      hide Proc.Shows, ProtectedUpTo, CopiedUpTo, Refs, Flat;
      child := new Proc(pid);
      ForkEnds(t);
      var i := 0;
      while i < 16
        invariant 0 <= i <= 16
        invariant fresh(child.Repr) && child.Shows(Process(pid, CopiedUpTo(t, i)))
        invariant current.Repr == old(current.Repr)
        invariant current.Shows(Process(old(current.pid), ProtectedUpTo(t, i)))
        invariant forall f: Frame :: mapcounts[f] == old(mapcounts[f]) + RefsUpTo(t, i, f)
      {
        ForkStep(t, i);
        ForkSlot(i, child, Process(old(current.pid), ProtectedUpTo(t, i)), Process(pid, CopiedUpTo(t, i)));
        i := i + 1;
      }
    }

    method FlushTlb()
      requires Valid()
      modifies this`S, tlb
      ensures Valid() && S == old(S).(tlb := [])
    {
      ghost var t := S.tlb;
      var k := 0;
      while tlb[k].valid
        invariant 0 <= k <= |t|
        invariant forall j :: 0 <= j < k ==> !tlb[j].valid
        invariant forall j :: k <= j < |t| ==> tlb[j].valid
        invariant !tlb[|t|].valid && S == old(S)
        decreases |t| - k
      {
        tlb[k] := tlb[k].(valid := false);
        k := k + 1;
      }
      S := S.(tlb := []);
    }

    /** Takes entry `k` off the list, and puts the current process at its tail. */
    method SwitchTo(k: nat)
      requires Valid() && k < |processes|
      modifies this`S, this`current, this`processes
      ensures Valid()
      ensures S == old(S).(queue := Without(old(S).queue, k) + [old(S).cur], cur := old(S).queue[k])
    {
      var next := processes[k];
      processes := Without(processes, k) + [current];
      current := next;
      S := S.(queue := Without(S.queue, k) + [S.cur], cur := S.queue[k]);
    }

    method ForkChild(pid: nat)
      requires Valid()
      modifies this`S, this`Heap, this`current, this`processes, mapcounts, current.Repr
      ensures Valid() && fresh(Heap - old(Heap)) && fresh(current.Repr)
      ensures S == old(S).(counts := CountsAfterFork(old(S).counts, old(S).cur.table),
                           queue := old(S).queue + [old(S).cur.(table := ProtectTable(old(S).cur.table))],
                           cur := Process(pid, CopyTable(old(S).cur.table)))
    {
      hide Proc.Shows, Refs, Flat, ProtectTable, CopyTable;
      var child := Fork(pid, S.cur.table);
      processes := processes + [current];
      current := child;
      Heap := Heap + child.Repr;
      CountsForked(mapcounts[..], S.counts, S.cur.table);
      S := S.(counts := CountsAfterFork(S.counts, S.cur.table),
              queue := S.queue + [S.cur.(table := ProtectTable(S.cur.table))],
              cur := Process(pid, CopyTable(S.cur.table)));
    }

    method SwitchProcess(pid: nat)
      requires Valid()
      modifies this`S, this`Heap, this`current, this`processes, mapcounts, tlb, current.Repr
      ensures Valid() && fresh(Heap - old(Heap))
      ensures S == VmModel.SwitchProcess(old(S), pid)
    {
      var k := 0;
      while k < |processes| && processes[k].pid != pid
        invariant 0 <= k <= |processes|
        invariant forall j :: 0 <= j < k ==> S.queue[j].pid != pid
      {
        k := k + 1;
      }
      assert k == FindPid(S.queue, pid);
      if k < |processes| {
        SwitchTo(k);
      } else {
        ForkChild(pid);
      }
      FlushTlb();
    }

    // -------------------------------------------------------------- MMU and commands

    method Translate(rw: Request, vpn: Vpn) returns (t: Translation, from_tlb: bool)
      requires Valid()
      modifies this`S, tlb
      ensures Valid() && (S, t) == VmModel.Translate(old(S), rw, vpn)
      ensures from_tlb <==> mode != Off && VmModel.LookupTlb(old(S).tlb, vpn, rw).Some?
    {
      if mode != Off {
        var hit, pfn := LookupTlb(vpn, rw);
        if hit {
          return Hit(pfn), true;
        }
      }
      from_tlb := false;
      if current.outer[vpn / 16] == null {
        return Miss, false;
      }
      var pte := CurrentPte(vpn);
      if !pte.valid {
        return Miss, false;
      }
      if MayWrite(rw) && !MayWrite(pte.rw) {
        return Miss, false;
      }
      if mode != Off {
        var room := InsertTlb(vpn, pte.rw, pte.pfn);
        if !room {
          return NoRoom, false;
        }
      }
      return Hit(pte.pfn), false;
    }

    method Touch(pfn: Frame, rw: Request, value: int) returns (o: Outcome)
      requires Valid()
      modifies this`S, memory
      ensures Valid() && (S, o) == VmModel.Touch(old(S), pfn, rw, value)
    {
      if MayWrite(rw) {
        SetMemory(pfn, value);
        return Done;
      }
      return Loaded(memory[pfn]);
    }

    /** The do/while loop of __access_memory. */
    method AccessMemory(vpn: Vpn, rw: Request, value: int) returns (o: Outcome)
      requires Valid()
      modifies this`S, this`Heap, mapcounts, tlb, memory, current.Repr
      ensures Valid() && fresh(Heap - old(Heap))
      ensures (S, o) == VmModel.AccessMemory(old(S), vpn, rw, value)
    {
      RetriesTwice(S, vpn, rw, value);
      var retries := 0;
      var fault := Handled;
      while fault == Handled && retries < 2
        invariant 0 <= retries <= 2 && Valid() && fresh(Heap - old(Heap)) && fresh(current.Repr - old(current.Repr))
        invariant VmModel.AccessMemory(old(S), vpn, rw, value)
               == if fault == Handled && retries < 2 then Retry(S, vpn, rw, value, retries) else (S, OutcomeOf(fault))
        decreases 2 - retries
      {
        var t, _ := Translate(rw, vpn);
        if t == NoRoom {
          return Overrun;
        }
        if t.Hit? {
          o := Touch(t.pfn, rw, value);
          return;
        }
        retries := retries + 1;
        fault := HandlePageFault(vpn, rw);
      }
      o := OutcomeOf(fault);
    }

    method AllocCommand(vpn: Vpn, rw: Flags) returns (o: Outcome)
      requires Valid()
      modifies this`S, this`Heap, mapcounts, tlb, memory, current.Repr
      ensures Valid() && fresh(Heap - old(Heap))
      ensures (S, o) == VmModel.AllocCommand(old(S), vpn, rw)
    {
      var t, _ := Translate(ACCESS_READ, vpn);
      if t == NoRoom {
        return Overrun;
      }
      if t.Hit? {
        return Refused;
      }
      var r, pfn := AllocPage(vpn, rw);
      if pfn == -1 {
        return Refused;
      }
      SetMemory(pfn, 0);
      return Done;
    }

    method FreeCommand(vpn: Vpn) returns (o: Outcome)
      requires Valid()
      modifies this`S, this`Heap, mapcounts, tlb, current.Repr
      ensures Valid() && fresh(Heap - old(Heap))
      ensures o == VmModel.FreeCommand(old(S), vpn).1
      ensures o != Hang && o != Crash ==> S == VmModel.FreeCommand(old(S), vpn).0
    {
      var t, _ := Translate(ACCESS_READ, vpn);
      if t == NoRoom {
        return Overrun;
      }
      if t == Miss {
        return Refused;
      }
      o := FreePage(vpn);
    }

    /** One command of the trace. From a good state a guarded command ends in a good state with the
        outcome of `Step`. */
    method Execute(c: Command) returns (o: Outcome)
      requires Valid()
      modifies this, mapcounts, tlb, memory, current.Repr
      ensures Valid() && fresh(Heap - old(Heap))
      ensures o == Step(old(S), c).1
      ensures o != Hang && o != Crash ==> S == Step(old(S), c).0
    {
      match c
      case Alloc(vpn, writable) => o := AllocCommand(vpn, if writable then READ_WRITE else ACCESS_READ);
      case Free(vpn) => o := FreeCommand(vpn);
      case Access(vpn, rw, value) => o := AccessMemory(vpn, rw, value);
      case Switch(pid) =>
        SwitchProcess(pid);
        o := Done;
    }

    /** One turn of the command loop, in terms of the run of the rest of the trace. */
    method ExecuteNext(trace: seq<Command>, i: nat) returns (o: Outcome)
      requires Valid() && i < |trace|
      modifies this, Heap
      ensures Valid() && fresh(Heap - old(Heap))
      ensures Ends(trace[i], o) ==>
                Run(old(S), trace[i..]).1 == [o] && (o != Hang && o != Crash ==> S == Run(old(S), trace[i..]).0)
      ensures !Ends(trace[i], o) ==>
                Run(old(S), trace[i..]) == (Run(S, trace[i + 1..]).0, [o] + Run(S, trace[i + 1..]).1)
    {
      RunUnrolls(S, trace, i);
      o := Execute(trace[i]);
    }

    /** The command loop. After a crash or a hang the state is not defined. */
    method Simulate(trace: seq<Command>) returns (outcomes: seq<Outcome>)
      requires Valid()
      modifies this, Heap
      ensures Valid() && outcomes == Run(old(S), trace).1
      ensures (forall o :: o in outcomes ==> o != Hang && o != Crash) ==> S == Run(old(S), trace).0
      ensures Answered(trace, outcomes)
    {
      hide Step, Run, Answered, Valid, Ends;
      EveryCommandAnswered(S, trace);
      outcomes := [];
      var i := 0;
      assert trace[0..] == trace && [] + Run(S, trace).1 == Run(S, trace).1;
      while i < |trace|
        invariant 0 <= i <= |trace| && Valid() && fresh(Heap - old(Heap))
        invariant Run(old(S), trace) == (Run(S, trace[i..]).0, outcomes + Run(S, trace[i..]).1)
      {
        ghost var seen := outcomes;
        var o := ExecuteNext(trace, i);
        outcomes := outcomes + [o];
        if Ends(trace[i], o) {
          assert o in outcomes;
          return;
        }
        i := i + 1;
        assert seen + ([o] + Run(S, trace[i..]).1) == outcomes + Run(S, trace[i..]).1;
      }
      RunNothing(S);
      assert trace[i..] == [] && outcomes + [] == outcomes;
    }

    /** A trace that meets the guard all along runs as with eager copying. */
    method SimulateGuarded(trace: seq<Command>) returns (outcomes: seq<Outcome>)
      requires Valid() && Good(S) && Guarded(S, trace)
      modifies this, Heap
      ensures Valid() && Good(S)
      ensures (View(S), outcomes) == EagerRun(View(old(S)), trace)
    {
      RunAgrees(S, trace);
      GuardedNeverDies(S, trace);
      outcomes := Simulate(trace);
    }
  }

  /** __make_rwflag: the read bit is always there, the write bit when a letter asks for it. */
  method MakeRwFlag(rw: string) returns (flag: Flags)
    ensures flag == if 'w' in rw || 'W' in rw then READ_WRITE else ACCESS_READ
  {
    flag := ACCESS_READ;
    var i := 0;
    while i < |rw|
      invariant 0 <= i <= |rw|
      invariant flag == if 'w' in rw[..i] || 'W' in rw[..i] then READ_WRITE else ACCESS_READ
    {
      if rw[i] == 'w' || rw[i] == 'W' {
        flag := READ_WRITE;
      }
      i := i + 1;
    }
    assert rw[..|rw|] == rw;
  }
}
