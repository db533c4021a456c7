/**
 What one task does, said in terms of the state before it and the task alone: the journal lines
 it adds, what becomes of the processes and their descriptors, which paths become known.
 */
module GenLaws {
  import opened Seqs
  import opened GenSpec
  import opened GenProof

  // ---------------------------------------------------------------- the state before the task

  /** The task is run at all: its line was parsed and its process fits into the map of processes. */
  predicate Runs(g: GState, t: Task) { !g.halted && t.ok && (t.pid in g.procs || t.pid < MAX_PROCESSES) }

  function MappedPid(g: GState, pid: nat): nat { if pid in g.procs then g.procs[pid].mapped else g.numPids + 1 }

  function OpenFds(g: GState, pid: nat): map<int, nat> { if pid in g.procs then g.procs[pid].fds else map[] }

  function OpenVfds(g: GState, pid: nat): map<nat, Vfd> { if pid in g.procs then g.procs[pid].vfds else map[] }

  /** The id a path has, or gets when it is the next one to become known. */
  function IdOf(g: GState, path: Path): nat { if path in g.vsizes then g.vsizes[path].id else g.numVsizes + 1 }

  /** The id on the OPEN line of a virtual descriptor. */
  function OpenedUnder(g: GState, m: nat): nat {
    var named := FdOps(g.journal, m);
    if named == [] then 0 else named[0].id
  }

  /** open and openat need flags, creat needs a mode; all need a descriptor and a path. */
  predicate Opens(t: Task) {
    t.fd > 0 && t.path.Some? && ((t.name.Open? && t.flags != -1) || (t.name.Creat? && t.mode != -1))
  }

  // ---------------------------------------------------------------- journal lines

  function CloseLine(g: GState, t: Task, m: nat): Op { Op(OpenedUnder(g, m), MappedPid(g, t.pid), CloseOp(m),
                     t.lineno) }

  function CloseLines(g: GState, t: Task, order: seq<nat>): seq<Op> {
    seq(|order|, i requires 0 <= i < |order| => CloseLine(g, t, order[i]))
  }

  /** The lines a task adds to the journal. */
  function LinesOf(g: GState, t: Task, order: seq<nat>): seq<Op> {
    var fds, pid := OpenFds(g, t.pid), MappedPid(g, t.pid);
    if !Runs(g, t) then []
    else
      match t.name
      case Open => OpenLines(g, t)
      case Creat => OpenLines(g, t)
      case Close => if t.fd in fds then [CloseLine(g, t, fds[t.fd])] else []
      case FdOp => UseLines(g, t)
      case Fcntl(known) => if known then UseLines(g, t) else []
      case PathOp => if t.path.Some? then [PathLine(g, t)] else []
      case Rename => if t.path.Some? && t.path2.Some? then [PathLine(g, t)] else []
      case SyncAll => [Op(0, pid, SyncOp, t.lineno)]
      case ExitGroup => if t.pid in g.procs then CloseLines(g, t, order) else []
      case Ignored => []
      case Unknown => []
  }

  /** An accepted open adds its line, after a CLOSE line for the descriptor that was mapped before. */
  function OpenLines(g: GState, t: Task): seq<Op> {
    var fds := OpenFds(g, t.pid);
    if !Opens(t) then []
    else
      (if t.fd in fds then [CloseLine(g, t, fds[t.fd])] else [])
      + [Op(IdOf(g, t.path.value), MappedPid(g, t.pid), OpenOp(g.numFds + 1, t.path.value), t.lineno)]
  }

  function UseLines(g: GState, t: Task): seq<Op> {
    var fds := OpenFds(g, t.pid);
    if t.fd in fds then [Op(OpenedUnder(g, fds[t.fd]), MappedPid(g, t.pid), UseOp(fds[t.fd]), t.lineno)] else []
  }

  function PathLine(g: GState, t: Task): Op
    requires t.path.Some?
  {
    Op(IdOf(g, t.path.value), MappedPid(g, t.pid), OnPath(t.path.value), t.lineno)
  }

  // ---------------------------------------------------------------- processes and descriptors

  /** The process of the task afterwards, unless the task ends it. */
  function ProcAfter(g: GState, t: Task): Proc {
    var fds, vfds, fd := OpenFds(g, t.pid), OpenVfds(g, t.pid), t.fd;
    var gone := if fd in fds then {fds[fd]} else {};
    if Opens(t) then
      Proc(MappedPid(g, t.pid), fds[fd := g.numFds + 1],
           (vfds - gone)[g.numFds + 1 := Vfd(fd, g.numFds + 1, t.path.value)])
    else if t.name.Close? then Proc(MappedPid(g, t.pid), fds - {fd}, vfds - gone)
    else Proc(MappedPid(g, t.pid), fds, vfds)
  }

  function ProcsAfter(g: GState, t: Task): map<nat, Proc> {
    if !Runs(g, t) then g.procs
    else if t.name.ExitGroup? then g.procs - {t.pid}
    else g.procs[t.pid := ProcAfter(g, t)]
  }

  ghost predicate Positive(p: Proc) { forall fd :: fd in p.fds ==> fd > 0 }

  /** Mapped pids are given out once each, and real descriptors are positive. */
  ghost predicate Numbered(procs: map<nat, Proc>, numPids: nat) {
    && (forall pid :: pid in procs ==> 1 <= procs[pid].mapped <= numPids)
    && (forall p, q :: p in procs && q in procs && procs[p].mapped == procs[q].mapped ==> p == q)
    && (forall pid :: pid in procs ==> Positive(procs[pid]))
  }

  // ---------------------------------------------------------------- proofs, handler by handler

  lemma OpenIsTraced(g: GState, pid: nat, m: nat)
    requires Inv(g) && pid in g.procs && m in g.procs[pid].vfds
    ensures var path := g.procs[pid].vfds[m].path;
            && path in g.vsizes && OpenedUnder(g, m) == g.vsizes[path].id && g.procs[pid].vfds[m].mapped == m
  {
    assert OpenInJournal(g.journal, g.vsizes, m, g.procs[pid].vfds[m].path);
  }

  lemma FdIsTraced(g: GState, pid: nat, fd: int)
    requires Inv(g) && pid in g.procs && fd in g.procs[pid].fds
    ensures var p := g.procs[pid]; var m := p.fds[fd];
            && m in p.vfds && p.vfds[m].mapped == m && p.vfds[m].path in g.vsizes
            && OpenedUnder(g, m) == g.vsizes[p.vfds[m].path].id
  {
    assert Bijection(g.procs[pid]);
    OpenIsTraced(g, pid, g.procs[pid].fds[fd]);
  }

  lemma UseLaw(g: GState, t: Task)
    requires Inv(g) && Consistent(g) && Numbered(g.procs, g.numPids) && t.pid in g.procs && Runs(g, t)
    requires t.name.FdOp? || t.name == Fcntl(true)
    ensures RunFdOp(g, t).journal == g.journal + UseLines(g, t) && RunFdOp(g, t).procs == g.procs
  {
    hide Inv, OpenedUnder;
    if t.fd in g.procs[t.pid].fds {
      FdIsTraced(g, t.pid, t.fd);
    }
  }

  lemma CloseLine1(g: GState, t: Task)
    requires Inv(g) && Consistent(g) && t.pid in g.procs && t.fd in g.procs[t.pid].fds
    ensures var p := g.procs[t.pid]; var m := p.fds[t.fd];
            forall touch :: EmitClose(g, p.vfds[m], m, p.mapped, t.lineno, touch).journal
              == g.journal + [CloseLine(g, t, m)]
  {
    hide Inv, OpenedUnder;
    FdIsTraced(g, t.pid, t.fd);
  }

  lemma CloseLaw(g: GState, t: Task)
    requires Inv(g) && Consistent(g) && Numbered(g.procs, g.numPids) && t.pid in g.procs && t.name.Close?
    ensures var fds := g.procs[t.pid].fds;
            RunClose(g, t).journal == g.journal + if t.fd in fds then [CloseLine(g, t, fds[t.fd])] else []
    ensures RunClose(g, t).procs == g.procs[t.pid := ProcAfter(g, t)]
  {
    hide Inv, CloseLine;
    var p := g.procs[t.pid];
    if t.fd in p.fds {
      CloseLine1(g, t);
      assert p.vfds - {p.fds[t.fd]} == Remove(p.vfds, p.fds[t.fd]);
    } else {
      assert p.fds - {t.fd} == p.fds && p.vfds - {} == p.vfds;
      assert g.procs[t.pid := p] == g.procs;
    }
  }

  lemma InsertedCloseLaw(g: GState, t: Task)
    requires Inv(g) && Consistent(g) && t.pid in g.procs && Opens(t)
    ensures var p, g1 := g.procs[t.pid], InsertMissingClose(g, t);
            && g1.journal == g.journal + (if t.fd in p.fds then [CloseLine(g, t, p.fds[t.fd])] else [])
            && g1.procs == g.procs[t.pid := if t.fd in p.fds then Forget(p, t.fd) else p]
            && g1.vsizes.Keys == g.vsizes.Keys && g1.numVsizes == g.numVsizes && g1.numFds == g.numFds
            && forall path :: path in g.vsizes ==> g1.vsizes[path].id == g.vsizes[path].id
  {
    hide Inv, CloseLine;
    var p := g.procs[t.pid];
    if t.fd in p.fds {
      CloseLine1(g, t);
      FdIsTraced(g, t.pid, t.fd);
      EmitCloseProcs(g, g.procs[t.pid := Forget(p, t.fd)], p.vfds[p.fds[t.fd]], p.fds[t.fd], p.mapped, t.lineno, true);
    }
  }

  lemma OpenLaw(g: GState, t: Task, parent: Path -> Path)
    requires Inv(g) && Consistent(g) && Numbered(g.procs, g.numPids) && t.pid in g.procs
    requires t.name.Open? || t.name.Creat?
    ensures RunOpen(g, t, parent).journal == g.journal + OpenLines(g, t)
    ensures RunOpen(g, t, parent).procs == g.procs[t.pid := ProcAfter(g, t)]
  {
    hide Inv, CloseLine, TouchWithParent, InsertMissingClose;
    var p, m := g.procs[t.pid], g.numFds + 1;
    if !Opens(t) {
      assert g.procs[t.pid := p] == g.procs;
    } else if t.fd in p.fds {
      InsertedCloseLaw(g, t);
      assert (p.fds - {t.fd})[t.fd := m] == p.fds[t.fd := m];
    } else {
      InsertedCloseLaw(g, t);
      assert p.vfds - {} == p.vfds;
    }
  }

  lemma PathLaw(g: GState, t: Task, parent: Path -> Path)
    requires t.pid in g.procs && (t.name.PathOp? || t.name.Rename?)
    ensures RunPathOp(g, t, parent).procs == g.procs
    ensures RunPathOp(g, t, parent).journal
         == g.journal + if t.path.Some? && (t.name.Rename? ==> t.path2.Some?) then [PathLine(g, t)] else []
  {
    hide TouchWithParent;
  }

  lemma {:induction false} CloseAllLaw(g: GState, t: Task, order: seq<nat>)
    requires Inv(g) && t.pid in g.procs
    requires forall i :: 0 <= i < |order| ==> order[i] in g.procs[t.pid].vfds
    ensures var g' := CloseAll(g, g.procs[t.pid], order, t.lineno);
            && g'.journal == g.journal + CloseLines(g, t, order)
            && g'.vsizes.Keys == g.vsizes.Keys
               && forall path :: path in g.vsizes ==> g'.vsizes[path].id == g.vsizes[path].id
    decreases |order|
  {
    hide Inv, OpenedUnder;
    if order == [] {
    } else {
      var k := |order| - 1;
      CloseAllLaw(g, t, order[..k]);
      OpenIsTraced(g, t.pid, order[k]);
      assert CloseLines(g, t, order) == CloseLines(g, t, order[..k]) + [CloseLine(g, t, order[k])];
    }
  }

  // ---------------------------------------------------------------- one task

  lemma DispatchLaw(g: GState, t: Task, parent: Path -> Path, order: seq<nat>)
    requires Inv(g) && Consistent(g) && Numbered(g.procs, g.numPids) && t.pid in g.procs && Runs(g, t)
    requires OrderFits(g, t, order)
    ensures var g' := Dispatch(g, t, parent, order);
            g'.journal == g.journal + LinesOf(g, t, order) && g'.procs == ProcsAfter(g, t)
  {
    hide Inv, CloseLine, Consistent, Numbered, RunOpen, RunClose, RunFdOp, RunPathOp, OpenedUnder;
    assert !t.name.Close? && !Opens(t) && !t.name.ExitGroup? ==> g.procs[t.pid := g.procs[t.pid]] == g.procs;
    match t.name
    case Open => OpenLaw(g, t, parent);
    case Creat => OpenLaw(g, t, parent);
    case Close => CloseLaw(g, t);
    case FdOp => UseLaw(g, t);
    case Fcntl(known) => FcntlLaw(g, t);
    case PathOp => PathLaw(g, t, parent);
    case Rename => PathLaw(g, t, parent);
    case ExitGroup => CloseAllLaw(g, t, order);
    case _ =>
  }

  lemma FcntlLaw(g: GState, t: Task)
    requires Inv(g) && Consistent(g) && Numbered(g.procs, g.numPids) && t.pid in g.procs && Runs(g, t) && t.name.Fcntl?
    ensures RunFdOp(g, t).journal == g.journal + (if t.name.known then UseLines(g, t) else [])
    ensures RunFdOp(g, t).procs == g.procs
  {
    hide Inv, UseLines;
    if t.name.known {
      UseLaw(g, t);
    }
  }

  /** A process that is new leaves the descriptors, the lines and the ids of the task as they are. */
  lemma NewProcessLaw(g: GState, t: Task, order: seq<nat>)
    requires Runs(g, t) && t.pid !in g.procs
    ensures var g1 := WithProcess(g, t.pid);
            LinesOf(g1, t, []) == LinesOf(g, t, order) && ProcsAfter(g1, t) == ProcsAfter(g, t)
  {
    var g1 := WithProcess(g, t.pid);
    assert CloseLines(g1, t, []) == [];
  }

  lemma NumberedNew(procs: map<nat, Proc>, numPids: nat, pid: nat, p: Proc)
    requires Numbered(procs, numPids) && pid !in procs && p.mapped == numPids + 1 && Positive(p)
    ensures Numbered(procs[pid := p], numPids + 1)
  {
    hide Positive;
  }

  lemma NumberedProcess(g: GState, pid: nat)
    requires Numbered(g.procs, g.numPids)
    ensures Numbered(WithProcess(g, pid).procs, WithProcess(g, pid).numPids)
  {
    hide Positive;
    if pid !in g.procs {
      NewIsPositive(g.numPids + 1);
      NumberedNew(g.procs, g.numPids, pid, Proc(g.numPids + 1, map[], map[]));
    }
  }

  lemma NewIsPositive(mapped: nat)
    ensures Positive(Proc(mapped, map[], map[]))
  {
  }

  lemma NumberedAfter(g: GState, t: Task)
    requires Numbered(g.procs, g.numPids) && t.pid in g.procs
    ensures Numbered(ProcsAfter(g, t), g.numPids)
  {
    hide ProcAfter, Positive;
    PositiveAfter(g, t);
  }

  lemma PositiveAfter(g: GState, t: Task)
    requires t.pid in g.procs && Positive(g.procs[t.pid])
    ensures Positive(ProcAfter(g, t)) && ProcAfter(g, t).mapped == g.procs[t.pid].mapped
  {
  }

  /** Nothing ends a process's turn early but a full map of processes; an accepted open takes one number. */
  lemma DispatchCounts(g: GState, t: Task, parent: Path -> Path, order: seq<nat>)
    requires Consistent(g) && t.pid in g.procs && OrderFits(g, t, order)
    ensures var g' := Dispatch(g, t, parent, order);
            && g'.numPids == g.numPids && g'.halted == g.halted
            && g'.numFds == g.numFds + if Opens(t) then 1 else 0
  {
    hide Consistent, TouchWithParent;
  }

  lemma NotRun(g: GState, t: Task, parent: Path -> Path, order: seq<nat>)
    requires Consistent(g) && Numbered(g.procs, g.numPids) && OrderFits(g, t, order) && !Runs(g, t)
    ensures var g' := Run(g, t, parent, order);
            && g'.journal == g.journal + LinesOf(g, t, order) && g'.procs == ProcsAfter(g, t) == g.procs
            && Numbered(g.procs, g'.numPids) && g'.numFds == g.numFds
            && g'.halted == (g.halted || t.ok)
  {
  }

  /** The whole effect of one task on the journal and the processes. */
  lemma RunLaw(g: GState, t: Task, parent: Path -> Path, order: seq<nat>)
    requires Good(g) && Consistent(g) && Numbered(g.procs, g.numPids) && OrderFits(g, t, order)
    ensures var g' := Run(g, t, parent, order);
            g'.journal == g.journal + LinesOf(g, t, order) && g'.procs == ProcsAfter(g, t)
    ensures Numbered(ProcsAfter(g, t), Run(g, t, parent, order).numPids)
  {
    hide Inv, LinesOf, ProcsAfter, Dispatch, Numbered;
    if Runs(g, t) {
      var g1 := WithProcess(g, t.pid);
      NewProcessInv(g, t.pid);
      InvConsistent(g1, {});
      NumberedProcess(g, t.pid);
      if t.pid in g.procs {
        DispatchLaw(g, t, parent, order);
        DispatchCounts(g, t, parent, order);
      } else {
        NewProcessLaw(g, t, order);
        DispatchLaw(g1, t, parent, []);
        DispatchCounts(g1, t, parent, []);
      }
      NumberedAfter(g1, t);
    } else {
      NotRun(g, t, parent, order);
    }
  }

  lemma {:induction false} StatesNumbered(tasks: seq<Task>, parent: Path -> Path, states: seq<GState>,
                                          orders: seq<seq<nat>>, i: nat)
    requires RunThrough(tasks, parent, states, orders) && i <= |tasks|
    ensures Numbered(states[i].procs, states[i].numPids)
  {
    hide Inv, Run, Numbered, ProcsAfter;
    if i == 0 {
      NothingNumbered();
    } else {
      StatesNumbered(tasks, parent, states, orders, i - 1);
      RunGood(tasks, parent, states, orders, i - 1);
      assert CanStep(states[i - 1], tasks[i - 1], parent, orders[i - 1], states[i]);
      RunLaw(states[i - 1], tasks[i - 1], parent, orders[i - 1]);
    }
  }

  lemma NothingNumbered()
    ensures Numbered(map[], 0)
  {
  }

  // ---------------------------------------------------------------- every state the generator reaches

  /** Mapped pids are 1..num_pids, no two processes share one. */
  lemma MappedPidsAreDistinct(tasks: seq<Task>, parent: Path -> Path, g: GState)
    requires Generated(tasks, parent, g)
    ensures Numbered(g.procs, g.numPids)
  {
    hide Numbered, CanStep;
    var states, orders :| RunThrough(tasks, parent, states, orders) && g == states[|tasks|];
    StatesNumbered(tasks, parent, states, orders, |tasks|);
  }

  /** Each task adds exactly the lines of its kind to the journal, and nothing else happens to it. */
  lemma TaskAddsItsLines(tasks: seq<Task>, parent: Path -> Path, g: GState, t: Task, order: seq<nat>)
    requires Generated(tasks, parent, g) && OrderFits(g, t, order)
    ensures Consistent(g) && Run(g, t, parent, order).journal == g.journal + LinesOf(g, t, order)
  {
    hide Good, Numbered, LinesOf, Run, ProcsAfter;
    GeneratedGood(tasks, parent, g);
    MappedPidsAreDistinct(tasks, parent, g);
    RunLaw(g, t, parent, order);
  }

  /** Each task changes at most the process it names: one descriptor, or the whole process at its end. */
  lemma TaskChangesItsProcess(tasks: seq<Task>, parent: Path -> Path, g: GState, t: Task, order: seq<nat>)
    requires Generated(tasks, parent, g) && OrderFits(g, t, order)
    ensures Consistent(g) && Run(g, t, parent, order).procs == ProcsAfter(g, t)
  {
    hide Good, Numbered, LinesOf, Run, ProcsAfter;
    GeneratedGood(tasks, parent, g);
    MappedPidsAreDistinct(tasks, parent, g);
    RunLaw(g, t, parent, order);
  }

  /** What the numbers count: processes seen, accepted opens. A pid beyond the map ends the generator. */
  lemma TaskCounts(tasks: seq<Task>, parent: Path -> Path, g: GState, t: Task, order: seq<nat>)
    requires Generated(tasks, parent, g) && OrderFits(g, t, order) && !g.halted && t.ok
    ensures Consistent(g)
    ensures var g' := Run(g, t, parent, order);
            && g'.numPids == g.numPids + (if t.pid in g.procs then 0 else 1)
            && (g'.halted <==> t.pid !in g.procs && t.pid >= MAX_PROCESSES)
            && g'.numFds == g.numFds + (if Opens(t) && !g'.halted then 1 else 0)
  {
    hide Good, Dispatch, Consistent;
    GeneratedGood(tasks, parent, g);
    var g1 := WithProcess(g, t.pid);
    if !g1.halted {
      NewProcessConsistent(g, t.pid);
      DispatchCounts(g1, t, parent, if t.pid in g.procs then order else []);
    }
  }

  lemma NewProcessConsistent(g: GState, pid: nat)
    requires Consistent(g)
    ensures Consistent(WithProcess(g, pid))
  {
  }

  /** An operation on an open descriptor is replayed on that descriptor, under the id it was opened with. */
  lemma UseIsReplayed(tasks: seq<Task>, parent: Path -> Path, g: GState, t: Task)
    requires Generated(tasks, parent, g) && !g.halted && t.ok && t.pid in g.procs && t.fd in g.procs[t.pid].fds
    requires t.name.FdOp? || t.name == Fcntl(true)
    ensures var m := g.procs[t.pid].fds[t.fd]; var ops := FdOps(g.journal, m);
            && ops != [] && ops[0].kind.OpenOp? && Consistent(g)
            && Run(g, t, parent, []).journal == g.journal + [Op(ops[0].id, g.procs[t.pid].mapped, UseOp(m), t.lineno)]
  {
    hide Good, Run, FdOps;
    TaskAddsItsLines(tasks, parent, g, t, []);
    OpenedFirst(tasks, parent, g, t.pid, t.fd);
  }

  lemma OpenedFirst(tasks: seq<Task>, parent: Path -> Path, g: GState, pid: nat, fd: int)
    requires Generated(tasks, parent, g) && pid in g.procs && fd in g.procs[pid].fds
    ensures var ops := FdOps(g.journal, g.procs[pid].fds[fd]); ops != [] && ops[0].kind.OpenOp?
  {
    hide FdOps;
    DescriptorMaps(tasks, parent, g, pid);
  }
}
