/**
 What the journal generator does with one parsed capture line (generate/gioop.c,
 generate/gprocess.c, generate/generate.c), as a function on values. Class Generator
 performs the same steps on mutable objects.
 */
module GenSpec {
  import opened Seqs

  /** Capacity of pid_map; inserting a pid beyond it is a fatal error. */
  const MAX_PROCESSES: nat := 1024 * 1024 * 10

  const FIRST_FD: nat := 10

  type Path = string

  /** Operation names grouped by what their handlers do to the state. */
  datatype Name =
    | Open | Creat | Close
    | FdOp                  // fstat, read, write, lseek, fsync, ...: one operation on an open descriptor
    | Fcntl(known: bool)    // only four fcntl commands are replayed
    | PathOp                // stat, mkdir, unlink, readlink, chmod, ...
    | Rename                // rename, renameat, renameat2
    | SyncAll | Ignored | ExitGroup | Unknown

  /**
   A parsed capture line. `ok` is the parser's verdict. `touches` says whether the handler
   goes on to update the virtual size of the path, which depends on status and byte counts.
   */
  datatype Task = Task(ok: bool, lineno: nat, pid: nat, name: Name, fd: int,
                       path: Option<Path>, path2: Option<Path>, flags: int, mode: int, touches: bool)
  {
    /** gparser.c sets has_fd only for a positive descriptor. */
    predicate HasFd() { fd > 0 }
  }

  datatype Kind = OpenOp(fd: nat, path: Path) | UseOp(fd: nat) | CloseOp(fd: nat) | OnPath(path: Path) | SyncOp

  /** A journal line: vsize id, mapped pid, operation, and the capture line it came from. */
  datatype Op = Op(id: nat, pid: nat, kind: Kind, lineno: nat)

  datatype Vsize = Vsize(id: nat, touched: bool)

  datatype Vfd = Vfd(fd: int, mapped: nat, path: Path)

  datatype Proc = Proc(mapped: nat, fds: map<int, nat>, vfds: map<nat, Vfd>)

  datatype GState = GState(
    procs: map<nat, Proc>, numPids: nat, numFds: nat,
    vsizes: map<Path, Vsize>, numVsizes: nat, journal: seq<Op>, halted: bool)

  function Init(): GState { GState(map[], 0, FIRST_FD, map[], 0, [], false) }

  // ---------------------------------------------------------------- virtual sizes

  /** generate_vsize_by_path: the id of a path, a new one at its first occurrence. */
  function Know(g: GState, path: Path): (g': GState)
    ensures path in g'.vsizes
    ensures g'.procs == g.procs && g'.numPids == g.numPids && g'.numFds == g.numFds
    ensures g'.journal == g.journal && g'.halted == g.halted
  {
    if path in g.vsizes then g
    else g.(vsizes := g.vsizes[path := Vsize(g.numVsizes + 1, false)], numVsizes := g.numVsizes + 1)
  }

  /** v->updates++ */
  function Touch(g: GState, path: Path): (g': GState)
    requires path in g.vsizes
    ensures g'.procs == g.procs && g'.numPids == g.numPids && g'.numFds == g.numFds
    ensures g'.journal == g.journal && g'.halted == g.halted && g'.numVsizes == g.numVsizes
    ensures g'.vsizes.Keys == g.vsizes.Keys
  {
    g.(vsizes := g.vsizes[path := g.vsizes[path].(touched := true)])
  }

  /** The first update of a path also makes its parent directory known (init_parent_dir). */
  function TouchWithParent(g: GState, path: Path, parent: Path -> Path): (g': GState)
    requires path in g.vsizes
    ensures g'.procs == g.procs && g'.numPids == g.numPids && g'.numFds == g.numFds
    ensures g'.journal == g.journal && g'.halted == g.halted
    ensures forall p :: p in g.vsizes ==> p in g'.vsizes
  {
    if g.vsizes[path].touched then g
    else
      var up := parent(path);
      Touch(if up in g.vsizes then g else Touch(Know(g, up), up), path)
  }

  // ---------------------------------------------------------------- journal lines

  /** Gioop_write with the id of a known path. */
  function Emit(g: GState, path: Path, pid: nat, kind: Kind, lineno: nat): (g': GState)
    requires path in g.vsizes
  {
    g.(journal := g.journal + [Op(g.vsizes[path].id, pid, kind, lineno)])
  }

  /** One operation on an open descriptor: look its path up, then write the line. */
  function EmitFd(g: GState, vfd: Vfd, pid: nat, kind: Kind, lineno: nat): GState {
    Emit(Know(g, vfd.path), vfd.path, pid, kind, lineno)
  }

  /** Writing a CLOSE line and resetting the descriptor (vsize_close). */
  function EmitClose(g: GState, vfd: Vfd, mapped: nat, pid: nat, lineno: nat, touch: bool): GState {
    var g1 := EmitFd(g, vfd, pid, CloseOp(mapped), lineno);
    if touch then Touch(g1, vfd.path) else g1
  }

  // ---------------------------------------------------------------- descriptors

  /** hmap_remove_l, which must only be called with a key that is present. */
  function Remove<K, V>(m: map<K, V>, k: K): map<K, V>
    requires k in m
  {
    m - {k}
  }

  /** The real descriptor maps to an object whose two keys are both present. */
  predicate Mapped(p: Proc, fd: int) { fd in p.fds && p.fds[fd] in p.vfds }

  /** Forget a real descriptor and its virtual one. */
  function Forget(p: Proc, fd: int): Proc
    requires Mapped(p, fd)
  {
    p.(fds := Remove(p.fds, fd), vfds := Remove(p.vfds, p.fds[fd]))
  }

  /** The close that was missed in the capture, when an open reports a descriptor that is still mapped. */
  function InsertMissingClose(g: GState, t: Task): (g': GState)
    requires t.pid in g.procs
    requires t.fd in g.procs[t.pid].fds ==> Mapped(g.procs[t.pid], t.fd)
    ensures t.pid in g'.procs && g'.numFds == g.numFds
  {
    var p := g.procs[t.pid];
    if t.fd !in p.fds then g
    else
      var mapped := p.fds[t.fd];
      EmitClose(g.(procs := g.procs[t.pid := Forget(p, t.fd)]), p.vfds[mapped], mapped, p.mapped, t.lineno, true)
  }

  /** A fresh virtual descriptor for an open (gprocess_create_vfd_by_realfd). */
  function CreateVfd(g: GState, t: Task, path: Path): (g': GState)
    requires t.pid in g.procs
    requires t.fd in g.procs[t.pid].fds ==> Mapped(g.procs[t.pid], t.fd)
    ensures t.pid in g'.procs
  {
    var g1 := InsertMissingClose(g, t);
    var m := g1.numFds + 1;
    var p := g1.procs[t.pid];
    g1.(numFds := m,
        procs := g1.procs[t.pid := p.(fds := p.fds[t.fd := m], vfds := p.vfds[m := Vfd(t.fd, m, path)])])
  }

  // ---------------------------------------------------------------- one task

  /** Every descriptor of every process has both its keys. */
  ghost predicate Consistent(g: GState) {
    forall pid, fd :: pid in g.procs && fd in g.procs[pid].fds ==> Mapped(g.procs[pid], fd)
  }

  /** generate_gprocess_by_realpid */
  function WithProcess(g: GState, pid: nat): GState {
    if pid in g.procs then g
    else if pid >= MAX_PROCESSES then g.(halted := true, numPids := g.numPids + 1)
    else g.(procs := g.procs[pid := Proc(g.numPids + 1, map[], map[])], numPids := g.numPids + 1)
  }

  function RunOpen(g: GState, t: Task, parent: Path -> Path): GState
    requires Consistent(g) && t.pid in g.procs
  {
    if !t.HasFd() || t.path.None? || (if t.name.Creat? then t.mode == -1 else t.flags == -1) then g
    else
      var path := t.path.value;
      var g1 := CreateVfd(g, t, path);
      var g2 := Know(g1, path);
      var g3 := Emit(g2, path, g1.procs[t.pid].mapped, OpenOp(g1.numFds, path), t.lineno);
      TouchWithParent(g3, path, parent)
  }

  function RunClose(g: GState, t: Task): GState
    requires Consistent(g) && t.pid in g.procs
  {
    var p := g.procs[t.pid];
    if !t.HasFd() || t.fd !in p.fds then g
    else
      var mapped := p.fds[t.fd];
      var g1 := EmitClose(g, p.vfds[mapped], mapped, p.mapped, t.lineno, t.touches);
      g1.(procs := g1.procs[t.pid := Forget(p, t.fd)])
  }

  function RunFdOp(g: GState, t: Task): GState
    requires Consistent(g) && t.pid in g.procs
  {
    var p := g.procs[t.pid];
    if !t.HasFd() || t.fd !in p.fds || t.name == Fcntl(false) then g
    else
      var mapped := p.fds[t.fd];
      var g1 := EmitFd(g, p.vfds[mapped], p.mapped, UseOp(mapped), t.lineno);
      if t.touches then Touch(g1, p.vfds[mapped].path) else g1
  }

  function RunPathOp(g: GState, t: Task, parent: Path -> Path): GState
    requires t.pid in g.procs
  {
    if t.path.None? || (t.name.Rename? && t.path2.None?) then g
    else
      var g1 := Know(g, t.path.value);
      var g2 := Emit(g1, t.path.value, g.procs[t.pid].mapped, OnPath(t.path.value), t.lineno);
      if !t.touches then g2
      else if !t.name.Rename? then TouchWithParent(g2, t.path.value, parent)
      else
        var g3 := TouchWithParent(Know(g2, t.path2.value), t.path.value, parent);
        TouchWithParent(g3, t.path2.value, parent)
  }

  /** The order in which hmap_run_cb2 visits the open descriptors: any, but each once. */
  ghost predicate IsOrder(vfds: map<nat, Vfd>, order: seq<nat>) {
    && (forall i :: 0 <= i < |order| ==> order[i] in vfds)
    && (forall i, j :: 0 <= i < j < |order| ==> order[i] != order[j])
    && (forall m :: m in vfds ==> m in order)
  }

  /** gioop_close_all_vfd_cb for each open descriptor in turn. */
  function CloseAll(g: GState, p: Proc, order: seq<nat>, lineno: nat): (g': GState)
    requires forall i :: 0 <= i < |order| ==> order[i] in p.vfds
    ensures g'.procs == g.procs && g'.numFds == g.numFds && g'.numPids == g.numPids && g'.halted == g.halted
    decreases |order|
  {
    if order == [] then g
    else
      var k := |order| - 1;
      var g1 := CloseAll(g, p, order[..k], lineno);
      EmitClose(g1, p.vfds[order[k]], p.vfds[order[k]].mapped, p.mapped, lineno, true)
  }

  function RunExit(g: GState, t: Task, order: seq<nat>): GState
    requires t.pid in g.procs
    requires forall i :: 0 <= i < |order| ==> order[i] in g.procs[t.pid].vfds
  {
    var g1 := CloseAll(g, g.procs[t.pid], order, t.lineno);
    g1.(procs := g1.procs - {t.pid})
  }

  /** The order given for an exit_group task covers the descriptors of its process. */
  ghost predicate OrderFits(g: GState, t: Task, order: seq<nat>) {
    t.name.ExitGroup? && t.pid in g.procs ==> IsOrder(g.procs[t.pid].vfds, order)
  }

  /** The handler of the operation, once the process is known. */
  function Dispatch(g: GState, t: Task, parent: Path -> Path, order: seq<nat>): GState
    requires Consistent(g) && t.pid in g.procs && OrderFits(g, t, order)
  {
    match t.name
    case Open => RunOpen(g, t, parent)
    case Creat => RunOpen(g, t, parent)
    case Close => RunClose(g, t)
    case FdOp => RunFdOp(g, t)
    case Fcntl(_) => RunFdOp(g, t)
    case PathOp => RunPathOp(g, t, parent)
    case Rename => RunPathOp(g, t, parent)
    case SyncAll => g.(journal := g.journal + [Op(0, g.procs[t.pid].mapped, SyncOp, t.lineno)])
    case Ignored => g
    case ExitGroup => RunExit(g, t, order)
    case Unknown => g
  }

  /** gioop_run. A new process has no descriptors, so its order is empty. */
  function Run(g: GState, t: Task, parent: Path -> Path, order: seq<nat>): GState
    requires Consistent(g) && OrderFits(g, t, order)
  {
    if g.halted || !t.ok then g
    else
      var g1 := WithProcess(g, t.pid);
      if g1.halted then g1 else Dispatch(g1, t, parent, if t.pid in g.procs then order else [])
  }
}
