/** The reference machine: unlimited memory, no page sharing, no TLB. A process is a map from VPNs to
    pages, and fork copies every page of the parent at once. */
module VmEager {
  import opened Common
  import opened VmModel

  datatype Page = Page(writable: bool, value: int)
  function NoPages(): seq<Option<Page>> { seq(256, i => None) }
  type Space = p: seq<Option<Page>> | |p| == 256 witness NoPages()
  datatype EagerProcess = EagerProcess(pid: nat, pages: Space)
  datatype Eager = Eager(queue: seq<EagerProcess>, cur: EagerProcess)

  function FindEager(queue: seq<EagerProcess>, pid: nat): (k: nat)
    ensures k <= |queue|
    ensures forall j :: 0 <= j < k ==> queue[j].pid != pid
    ensures k < |queue| ==> queue[k].pid == pid
  {
    if queue == [] then 0 else if queue[0].pid == pid then 0 else 1 + FindEager(queue[1..], pid)
  }

  function SetPage(e: Eager, vpn: Vpn, page: Option<Page>): Eager {
    e.(cur := e.cur.(pages := e.cur.pages[vpn := page]))
  }

  function EagerStep(e: Eager, c: Command): (Eager, Outcome) {
    match c
    case Alloc(vpn, writable) =>
      if e.cur.pages[vpn].Some? then (e, Refused) else (SetPage(e, vpn, Some(Page(writable, 0))), Done)
    case Free(vpn) =>
      if e.cur.pages[vpn].None? then (e, Refused) else (SetPage(e, vpn, None), Done)
    case Access(vpn, rw, value) =>
      var page := e.cur.pages[vpn];
      if page.None? || (MayWrite(rw) && !page.value.writable) then (e, Refused)
      else if MayWrite(rw) then (SetPage(e, vpn, Some(page.value.(value := value))), Done)
      else (e, Loaded(page.value.value))
    case Switch(pid) =>
      var k := FindEager(e.queue, pid);
      if k < |e.queue| then (Eager(Without(e.queue, k) + [e.cur], e.queue[k]), Done)
      else (Eager(e.queue + [e.cur], EagerProcess(pid, e.cur.pages)), Done)
  }

  function EagerRun(e: Eager, trace: seq<Command>): (Eager, seq<Outcome>)
    decreases |trace|
  {
    if trace == [] then (e, [])
    else
      var (e', o) := EagerStep(e, trace[0]);
      if Ends(trace[0], o) then (e', [o])
      else
        var (e'', os) := EagerRun(e', trace[1..]);
        (e'', [o] + os)
  }

  // ---------------------------------------------------------------- abstraction

  function PageOf(p: Pte, mem: Memory): Option<Page> {
    if p.valid then Some(Page(p.priv != ACCESS_READ, mem[p.pfn])) else None
  }

  function SpaceOf(t: Table, mem: Memory): (r: Space)
    ensures forall v: Vpn :: r[v] == PageOf(Entry(t, v), mem)
  {
    seq(256, i requires 0 <= i < 256 => PageOf(Entry(t, i), mem))
  }

  function EagerProcessOf(p: Process, mem: Memory): EagerProcess {
    EagerProcess(p.pid, SpaceOf(p.table, mem))
  }

  function QueueOf(queue: seq<Process>, mem: Memory): (r: seq<EagerProcess>)
    ensures |r| == |queue|
    ensures forall i :: 0 <= i < |r| ==> r[i] == EagerProcessOf(queue[i], mem)
  {
    seq(|queue|, i requires 0 <= i < |queue| => EagerProcessOf(queue[i], mem))
  }

  /** What the processes of a simulator state can see. */
  function View(s: Vm): Eager { Eager(QueueOf(s.queue, s.mem), EagerProcessOf(s.cur, s.mem)) }
}
