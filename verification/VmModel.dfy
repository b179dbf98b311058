/** The virtual-memory simulator as it is coded (os-pa3/pa3.c and os-pa3/vm.c): state, OS and MMU
    operations, and one step per trace command. Page contents are added: the simulator keeps none,
    and what copy-on-write is for cannot be said without them. */
module VmModel {
  import opened Common

  const NR_PAGEFRAMES: nat := 128
  const NR_TLB_ENTRIES: nat := 256

  /** A combination of the bits ACCESS_READ and ACCESS_WRITE. */
  type Flags = r: nat | r <= 3

  const ACCESS_READ: Flags := 1
  const ACCESS_WRITE: Flags := 2
  const READ_WRITE: Flags := 3

  type Frame = f: nat | f < 128
  type Vpn = v: nat | v < 256

  /** What an access may ask for; the driver asserts that one of the bits is set. */
  type Request = r: nat | 1 <= r <= 3 witness 1

  /** `rw & ACCESS_WRITE`. */
  predicate MayWrite(rw: Flags) { rw >= 2 }

  datatype Pte = Pte(valid: bool, rw: Flags, pfn: Frame, priv: Flags)
  const NO_PTE := Pte(false, 0, 0, 0)

  function NoDirectory(): seq<Pte> { seq(16, i => NO_PTE) }
  type Directory = d: seq<Pte> | |d| == 16 witness NoDirectory()

  /** The outer table: sixteen directory pointers, any of them null. */
  function EmptyTable(): seq<Option<Directory>> { seq(16, i => None) }
  type Table = t: seq<Option<Directory>> | |t| == 16 witness EmptyTable()

  datatype Process = Process(pid: nat, table: Table)

  /** One valid TLB entry; the TLB is the sequence of entries before the first invalid one. */
  datatype TlbEntry = TlbEntry(rw: Flags, vpn: Vpn, pfn: Frame)

  /** `Off` is the simulator without `-t`. `Coded` runs the TLB functions as written. `Documented`
      is their comments' contract: one entry per VPN on insertion, and a removal that advances. */
  datatype TlbMode = Off | Coded | Documented

  function NoCounts(): seq<nat> { seq(128, i => 0) }
  function NoMemory(): seq<int> { seq(128, i => 0) }
  type Counts = c: seq<nat> | |c| == 128 witness NoCounts()
  type Memory = m: seq<int> | |m| == 128 witness NoMemory()

  datatype Vm = Vm(mode: TlbMode, counts: Counts, tlb: seq<TlbEntry>,
                   queue: seq<Process>, cur: Process, mem: Memory)

  // ---------------------------------------------------------------- the two-level table

  function DirectoryAt(t: Table, i: nat): Directory
    requires i < 16
  {
    if t[i].None? then NoDirectory() else t[i].value
  }

  function Entry(t: Table, vpn: Vpn): Pte {
    DirectoryAt(t, vpn / 16)[vpn % 16]
  }

  /** Stores a PTE, creating the directory (all entries invalid) when it does not exist. */
  function SetEntry(t: Table, vpn: Vpn, p: Pte): Table {
    t[vpn / 16 := Some(DirectoryAt(t, vpn / 16)[vpn % 16 := p])]
  }

  // ---------------------------------------------------------------- TLB

  /** The first entry for `vpn` whose rw is at least `rw`. */
  function LookupTlb(tlb: seq<TlbEntry>, vpn: Vpn, rw: Flags): (r: Option<Frame>) {
    if tlb == [] then None
    else if tlb[0].vpn == vpn && tlb[0].rw >= rw then Some(tlb[0].pfn)
    else LookupTlb(tlb[1..], vpn, rw)
  }

  predicate SameSlot(mode: TlbMode, e: TlbEntry, vpn: Vpn, rw: Flags) {
    e.vpn == vpn && (mode == Documented || e.rw == rw)
  }

  /** The entry insert_tlb updates in place: the code matches VPN and rw, the documentation VPN only.
      `|tlb|` when there is none. */
  function Slot(mode: TlbMode, tlb: seq<TlbEntry>, vpn: Vpn, rw: Flags): (k: nat)
    ensures k <= |tlb|
    ensures forall j :: 0 <= j < k ==> !SameSlot(mode, tlb[j], vpn, rw)
    ensures k < |tlb| ==> SameSlot(mode, tlb[k], vpn, rw)
  {
    if tlb == [] then 0
    else if SameSlot(mode, tlb[0], vpn, rw) then 0
    else 1 + Slot(mode, tlb[1..], vpn, rw)
  }

  /** insert_tlb: `None` when the sentinel written after a new entry would fall outside the array. */
  function InsertTlb(mode: TlbMode, tlb: seq<TlbEntry>, vpn: Vpn, rw: Flags, pfn: Frame): Option<seq<TlbEntry>> {
    var k := Slot(mode, tlb, vpn, rw);
    if k < |tlb| then Some(tlb[k := TlbEntry(rw, vpn, pfn)])
    else if |tlb| + 1 < NR_TLB_ENTRIES then Some(tlb + [TlbEntry(rw, vpn, pfn)])
    else None
  }

  /** The first entry for `vpn`, whatever its rw. */
  function FindVpn(tlb: seq<TlbEntry>, vpn: Vpn): (k: nat)
    ensures k <= |tlb|
    ensures forall j :: 0 <= j < k ==> tlb[j].vpn != vpn
    ensures k < |tlb| ==> tlb[k].vpn == vpn
  {
    if tlb == [] then 0
    else if tlb[0].vpn == vpn then 0
    else 1 + FindVpn(tlb[1..], vpn)
  }

  /** The removal in free_page: `None` is a search that never ends, which the code's search is as soon
      as the first entry is for another VPN. */
  function RemoveTlb(mode: TlbMode, tlb: seq<TlbEntry>, vpn: Vpn): Option<seq<TlbEntry>> {
    var k := FindVpn(tlb, vpn);
    if tlb == [] then Some(tlb)
    else if mode != Documented && k != 0 then None
    else if k < |tlb| then Some(Without(tlb, k))
    else Some(tlb)
  }

  // ---------------------------------------------------------------- OS operations

  /** The free frame with the smallest number, `|counts|` when every frame is mapped. */
  function FirstFree(counts: seq<nat>): (i: nat)
    ensures i <= |counts|
    ensures forall j :: 0 <= j < i ==> counts[j] != 0
    ensures i < |counts| ==> counts[i] == 0
  {
    if counts == [] then 0 else if counts[0] == 0 then 0 else 1 + FirstFree(counts[1..])
  }

  function AllocPage(s: Vm, vpn: Vpn, rw: Flags): (Vm, Option<Frame>) {
    var f := FirstFree(s.counts);
    if f == NR_PAGEFRAMES then (s, None)
    else
      var table := SetEntry(s.cur.table, vpn, Pte(true, rw, f, rw));
      (s.(counts := s.counts[f := s.counts[f] + 1], cur := s.cur.(table := table)), Some(f))
  }

  datatype Outcome = Done | Loaded(value: int) | Refused | Crash | Hang | Overrun

  function FreePage(s: Vm, vpn: Vpn): (Vm, Outcome) {
    if s.cur.table[vpn / 16].None? then (s, Crash)
    else
      var f := Entry(s.cur.table, vpn).pfn;
      var s' := s.(counts := s.counts[f := Dec32(s.counts[f])],
                   cur := s.cur.(table := SetEntry(s.cur.table, vpn, NO_PTE)));
      match RemoveTlb(s.mode, s.tlb, vpn)
      case None => (s', Hang)
      case Some(tlb) => (s'.(tlb := tlb), Done)
  }

  datatype Fault = Handled | NotHandled | NullDereference

  function SetRw(s: Vm, vpn: Vpn, rw: Flags): Vm {
    s.(cur := s.cur.(table := SetEntry(s.cur.table, vpn, Entry(s.cur.table, vpn).(rw := rw))))
  }

  /** Copy-on-write: the reference is dropped, a page allocated and the contents copied. When no frame
      is free the code still sets rw and reports success. */
  function CopyPage(s: Vm, vpn: Vpn): Vm {
    var shared := Entry(s.cur.table, vpn).pfn;
    var dropped := s.(counts := s.counts[shared := Dec32(s.counts[shared])]);
    match AllocPage(dropped, vpn, ACCESS_WRITE)
    case (s', None) => SetRw(s', vpn, READ_WRITE)
    case (s', Some(f)) => SetRw(s'.(mem := s'.mem[f := s'.mem[shared]]), vpn, READ_WRITE)
  }

  function HandlePageFault(s: Vm, vpn: Vpn, rw: Flags): (Vm, Fault) {
    if rw != ACCESS_WRITE then (s, NotHandled)
    else if s.cur.table[vpn / 16].None? then (s, NullDereference)
    else
      var pte := Entry(s.cur.table, vpn);
      if pte.priv == ACCESS_READ then (s, NotHandled)
      else if s.counts[pte.pfn] == 1 then
        var pte' := pte.(rw := READ_WRITE, priv := ACCESS_WRITE);
        (s.(cur := s.cur.(table := SetEntry(s.cur.table, vpn, pte'))), Handled)
      else if s.counts[pte.pfn] >= 2 then (CopyPage(s, vpn), Handled)
      else (s, NotHandled)
  }

  /** How fork leaves a valid PTE, in the parent and in the child. */
  function Protect(p: Pte): Pte {
    if !p.valid then p
    else if p.rw == ACCESS_WRITE then p.(rw := ACCESS_READ, priv := p.rw)
    else p.(rw := ACCESS_READ)
  }

  function ProtectDirectory(d: Directory): Directory { seq(16, i requires 0 <= i < 16 => Protect(d[i])) }

  function ProtectTable(t: Table): Table {
    seq(16, i requires 0 <= i < 16 => if t[i].None? then None else Some(ProtectDirectory(t[i].value)))
  }

  /** The child's copy of a directory: valid entries only, in fresh zeroed memory. */
  function CopyDirectory(d: Directory): Directory {
    seq(16, i requires 0 <= i < 16 => if d[i].valid then Protect(d[i]) else NO_PTE)
  }

  function CopyTable(t: Table): Table {
    seq(16, i requires 0 <= i < 16 => if t[i].None? then None else Some(CopyDirectory(t[i].value)))
  }

  /** How many valid entries of `ptes` map frame `f`. */
  function Refs(ptes: seq<Pte>, f: nat): nat {
    if ptes == [] then 0
    else Refs(ptes[..|ptes| - 1], f) + (var p := ptes[|ptes| - 1]; if p.valid && p.pfn == f then 1 else 0)
  }

  /** The table as the flat array of 256 PTEs the MMU sees. */
  function Flat(t: Table): (r: seq<Pte>)
    ensures |r| == 256
    ensures forall v: Vpn :: r[v] == Entry(t, v)
  {
    seq(256, i requires 0 <= i < 256 => Entry(t, i))
  }

  function FindPid(queue: seq<Process>, pid: nat): (k: nat)
    ensures k <= |queue|
    ensures forall j :: 0 <= j < k ==> queue[j].pid != pid
    ensures k < |queue| ==> queue[k].pid == pid
  {
    if queue == [] then 0 else if queue[0].pid == pid then 0 else 1 + FindPid(queue[1..], pid)
  }

  function CountsAfterFork(counts: Counts, t: Table): Counts {
    seq(128, f requires 0 <= f < 128 => counts[f] + Refs(Flat(t), f))
  }

  function SwitchProcess(s: Vm, pid: nat): Vm {
    var k := FindPid(s.queue, pid);
    if k < |s.queue| then
      s.(queue := Without(s.queue, k) + [s.cur], cur := s.queue[k], tlb := [])
    else
      s.(counts := CountsAfterFork(s.counts, s.cur.table),
         queue := s.queue + [s.cur.(table := ProtectTable(s.cur.table))],
         cur := Process(pid, CopyTable(s.cur.table)),
         tlb := [])
  }

  // ---------------------------------------------------------------- MMU and commands

  datatype Translation = Hit(pfn: Frame) | Miss | NoRoom

  function Translate(s: Vm, rw: Flags, vpn: Vpn): (Vm, Translation) {
    var cached := LookupTlb(s.tlb, vpn, rw);
    if s.mode != Off && cached.Some? then (s, Hit(cached.value))
    else
      var pte := Entry(s.cur.table, vpn);
      if !pte.valid then (s, Miss)
      else if MayWrite(rw) && !MayWrite(pte.rw) then (s, Miss)
      else if s.mode == Off then (s, Hit(pte.pfn))
      else
        match InsertTlb(s.mode, s.tlb, vpn, pte.rw, pte.pfn)
        case None => (s, NoRoom)
        case Some(tlb) => (s.(tlb := tlb), Hit(pte.pfn))
  }

  /** What an access does to the frame it reached: a store when it asks for the write bit. */
  function Touch(s: Vm, pfn: Frame, rw: Flags, value: int): (Vm, Outcome) {
    if MayWrite(rw) then (s.(mem := s.mem[pfn := value]), Done) else (s, Loaded(s.mem[pfn]))
  }

  /** The fault-and-retry loop: at most two translations and two calls of the fault handler. */
  function AccessMemory(s: Vm, vpn: Vpn, rw: Flags, value: int): (Vm, Outcome) {
    var (s1, t1) := Translate(s, rw, vpn);
    match t1
    case NoRoom => (s1, Overrun)
    case Hit(pfn) => Touch(s1, pfn, rw, value)
    case Miss =>
      var (s2, fault) := HandlePageFault(s1, vpn, rw);
      if fault == NullDereference then (s2, Crash)
      else if fault == NotHandled then (s2, Refused)
      else
        var (s3, t2) := Translate(s2, rw, vpn);
        match t2
        case NoRoom => (s3, Overrun)
        case Hit(pfn) => Touch(s3, pfn, rw, value)
        case Miss =>
          var (s4, again) := HandlePageFault(s3, vpn, rw);
          (s4, match again case Handled => Done case NotHandled => Refused case NullDereference => Crash)
  }

  /** `writable` is the flag of `alloc vpn r|rw`; `rw` of an access is 1 or 2 for the commands read and
      write, and what __make_rwflag returns, 1 or 3, for the command access. */
  datatype Command =
    | Alloc(vpn: Vpn, writable: bool)
    | Free(vpn: Vpn)
    | Access(vpn: Vpn, rw: Request, value: int)
    | Switch(pid: nat)

  function AllocCommand(s: Vm, vpn: Vpn, rw: Flags): (Vm, Outcome) {
    var (s1, t) := Translate(s, ACCESS_READ, vpn);
    match t
    case NoRoom => (s1, Overrun)
    case Hit(_) => (s1, Refused)
    case Miss =>
      match AllocPage(s1, vpn, rw)
      case (s2, None) => (s2, Refused)
      case (s2, Some(f)) => (s2.(mem := s2.mem[f := 0]), Done)
  }

  function FreeCommand(s: Vm, vpn: Vpn): (Vm, Outcome) {
    var (s1, t) := Translate(s, ACCESS_READ, vpn);
    match t
    case NoRoom => (s1, Overrun)
    case Miss => (s1, Refused)
    case Hit(_) => FreePage(s1, vpn)
  }

  function Step(s: Vm, c: Command): (Vm, Outcome) {
    match c
    case Alloc(vpn, writable) => AllocCommand(s, vpn, if writable then READ_WRITE else ACCESS_READ)
    case Free(vpn) => FreeCommand(s, vpn)
    case Access(vpn, rw, value) => AccessMemory(s, vpn, rw, value)
    case Switch(pid) => (SwitchProcess(s, pid), Done)
  }

  /** The command loop leaves on a failed alloc; a crash, a hang or an overrun leaves no defined state. */
  predicate Ends(c: Command, o: Outcome) {
    o == Crash || o == Hang || o == Overrun || (c.Alloc? && o == Refused)
  }

  function Run(s: Vm, trace: seq<Command>): (Vm, seq<Outcome>)
    decreases |trace|
  {
    if trace == [] then (s, [])
    else
      var (s', o) := Step(s, trace[0]);
      if Ends(trace[0], o) then (s', [o])
      else
        var (s'', os) := Run(s', trace[1..]);
        (s'', [o] + os)
  }

  function Boot(mode: TlbMode): Vm {
    Vm(mode, NoCounts(), [], [], Process(0, EmptyTable()), NoMemory())
  }
}
