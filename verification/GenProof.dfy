/** What every run of the generator establishes about its maps and about the journal it writes. */
module GenProof {
  import opened Seqs
  import opened GenSpec

  // ---------------------------------------------------------------- lifecycle of a virtual descriptor

  /** The virtual descriptor a journal line names. */
  function FdOf(kind: Kind): Option<nat> {
    match kind
    case OpenOp(fd, _) => Some(fd)
    case UseOp(fd) => Some(fd)
    case CloseOp(fd) => Some(fd)
    case OnPath(_) => None
    case SyncOp => None
  }

  function Names(fd: nat): Op -> bool { (op: Op) => FdOf(op.kind) == Some(fd) }

  /** The journal lines that name one virtual descriptor. */
  function FdOps(journal: seq<Op>, fd: nat): seq<Op> { Filter(journal, Names(fd)) }

  /** Opened first and once, closed last and at most once, always under one vsize id. */
  ghost predicate Lifecycle(ops: seq<Op>) {
    && (ops != [] ==> ops[0].kind.OpenOp?)
    && (forall i :: 0 < i < |ops| ==> !ops[i].kind.OpenOp?)
    && (forall i :: 0 <= i < |ops| - 1 ==> !ops[i].kind.CloseOp?)
    && (forall i :: 0 <= i < |ops| ==> ops[i].id == ops[0].id)
  }

  ghost predicate IsOpen(ops: seq<Op>) { Lifecycle(ops) && ops != [] && !ops[|ops| - 1].kind.CloseOp? }

  ghost predicate WellFormed(journal: seq<Op>) { forall fd: nat :: Lifecycle(FdOps(journal, fd)) }

  // ---------------------------------------------------------------- invariants

  /**
   Real descriptors and virtual descriptors of a process are in bijection, and each object
   agrees with both its keys.
   */
  ghost predicate Bijection(p: Proc) {
    && (forall fd :: fd in p.fds ==> p.fds[fd] in p.vfds && p.vfds[p.fds[fd]].fd == fd)
    && (forall m :: m in p.vfds ==> p.vfds[m].mapped == m && p.vfds[m].fd in p.fds && p.fds[p.vfds[m].fd] == m)
  }

  ghost predicate Maps(procs: map<nat, Proc>, numFds: nat) {
    && (forall pid :: pid in procs ==> Bijection(procs[pid]))
    && (forall pid, m :: pid in procs && m in procs[pid].vfds ==> FIRST_FD < m <= numFds)
    && (forall p, q, m :: p in procs && q in procs && m in procs[p].vfds && m in procs[q].vfds ==> p == q)
  }

  ghost predicate Issued(vsizes: map<Path, Vsize>, id: nat) {
    exists path :: path in vsizes && vsizes[path].id == id
  }

  /** Ids are distinct per path and are exactly 1..numVsizes. */
  ghost predicate Ids(vsizes: map<Path, Vsize>, numVsizes: nat) {
    && (forall path :: path in vsizes ==> 1 <= vsizes[path].id <= numVsizes)
    && (forall a, b :: a in vsizes && b in vsizes && vsizes[a].id == vsizes[b].id ==> a == b)
    && (forall id :: 1 <= id <= numVsizes ==> Issued(vsizes, id))
  }

  /** Every line that names a path carries that path's id; no id exceeds the number of paths. */
  ghost predicate Tagged(journal: seq<Op>, vsizes: map<Path, Vsize>, numVsizes: nat) {
    forall i :: 0 <= i < |journal| ==>
      && journal[i].id <= numVsizes
      && (journal[i].kind.OpenOp? || journal[i].kind.OnPath? ==>
            journal[i].kind.path in vsizes && journal[i].id == vsizes[journal[i].kind.path].id)
      && (FdOf(journal[i].kind).Some? ==> journal[i].id >= 1)
  }

  /** The descriptor is open in the journal, under its path's id. */
  ghost predicate OpenInJournal(journal: seq<Op>, vsizes: map<Path, Vsize>, m: nat, path: Path) {
    IsOpen(FdOps(journal, m)) && path in vsizes && FdOps(journal, m)[0].id == vsizes[path].id
  }

  ghost predicate NumbersUsed(journal: seq<Op>, numFds: nat) {
    forall fd: nat :: FdOps(journal, fd) != [] ==> FIRST_FD < fd <= numFds
  }

  /** The descriptors in the maps, except those in `closed`, are open in the journal. */
  ghost predicate StillOpen(journal: seq<Op>, vsizes: map<Path, Vsize>, procs: map<nat, Proc>, closed: set<nat>) {
    forall pid, m {:trigger procs[pid].vfds[m]} :: pid in procs && m in procs[pid].vfds && m !in closed ==>
      OpenInJournal(journal, vsizes, m, procs[pid].vfds[m].path)
  }

  ghost predicate Owned(procs: map<nat, Proc>, fd: nat) { exists pid :: pid in procs && fd in procs[pid].vfds }

  /** A descriptor that is open in the journal is still in some process's map: nothing is left open behind. */
  ghost predicate NoneLeft(journal: seq<Op>, procs: map<nat, Proc>, closed: set<nat>) {
    forall fd: nat :: IsOpen(FdOps(journal, fd)) ==> fd !in closed && Owned(procs, fd)
  }

  ghost predicate Base(g: GState) {
    Maps(g.procs, g.numFds) && Ids(g.vsizes, g.numVsizes) && Tagged(g.journal, g.vsizes, g.numVsizes)
  }

  ghost predicate Trace(g: GState, closed: set<nat>) {
    && WellFormed(g.journal) && NumbersUsed(g.journal, g.numFds)
    && StillOpen(g.journal, g.vsizes, g.procs, closed)
    && NoneLeft(g.journal, g.procs, closed)
  }

  ghost predicate InvExcept(g: GState, closed: set<nat>) { Base(g) && Trace(g, closed) }

  ghost predicate Inv(g: GState) { InvExcept(g, {}) }

  lemma InitInv()
    ensures Inv(Init())
  {
  }

  lemma InvConsistent(g: GState, closed: set<nat>)
    requires InvExcept(g, closed)
    ensures Consistent(g)
  {
  }

  // ---------------------------------------------------------------- virtual sizes

  /** Ids only get added, and those present keep their value. */
  ghost predicate Grows(a: map<Path, Vsize>, b: map<Path, Vsize>) {
    forall path :: path in a ==> path in b && b[path].id == a[path].id
  }

  lemma GrowInv(g: GState, g': GState, closed: set<nat>)
    requires InvExcept(g, closed)
    requires g'.procs == g.procs && g'.numFds == g.numFds && g'.journal == g.journal
    requires Grows(g.vsizes, g'.vsizes) && Ids(g'.vsizes, g'.numVsizes) && g.numVsizes <= g'.numVsizes
    ensures InvExcept(g', closed)
  {
    forall pid, m | pid in g.procs && m in g.procs[pid].vfds && m !in closed
      ensures OpenInJournal(g'.journal, g'.vsizes, m, g.procs[pid].vfds[m].path)
    {
      assert OpenInJournal(g.journal, g.vsizes, m, g.procs[pid].vfds[m].path);
    }
  }

  lemma KnowIds(g: GState, path: Path)
    requires Ids(g.vsizes, g.numVsizes)
    ensures var g' := Know(g, path);
            Ids(g'.vsizes, g'.numVsizes) && Grows(g.vsizes, g'.vsizes) && g.numVsizes <= g'.numVsizes
  {
    hide Issued;
    var g' := Know(g, path);
    forall id: nat | 1 <= id <= g'.numVsizes
      ensures Issued(g'.vsizes, id)
    {
      if id <= g.numVsizes {
        StillIssued(g.vsizes, g'.vsizes, id);
      } else {
        IssuedTo(g'.vsizes, path);
      }
    }
  }

  lemma StillIssued(a: map<Path, Vsize>, b: map<Path, Vsize>, id: nat)
    requires Issued(a, id) && Grows(a, b)
    ensures Issued(b, id)
  {
    var p :| p in a && a[p].id == id;
    assert p in b && b[p].id == id;
  }

  lemma IssuedTo(vsizes: map<Path, Vsize>, path: Path)
    requires path in vsizes
    ensures Issued(vsizes, vsizes[path].id)
  {
  }

  lemma KnowInv(g: GState, path: Path, closed: set<nat>)
    requires InvExcept(g, closed)
    ensures InvExcept(Know(g, path), closed) && Grows(g.vsizes, Know(g, path).vsizes)
  {
    KnowIds(g, path);
    GrowInv(g, Know(g, path), closed);
  }

  lemma TouchIds(g: GState, path: Path)
    requires path in g.vsizes && Ids(g.vsizes, g.numVsizes)
    ensures Ids(Touch(g, path).vsizes, g.numVsizes) && Grows(g.vsizes, Touch(g, path).vsizes)
  {
    var g' := Touch(g, path);
    forall id: nat | 1 <= id <= g.numVsizes
      ensures Issued(g'.vsizes, id)
    {
      assert Issued(g.vsizes, id);
      var p :| p in g.vsizes && g.vsizes[p].id == id;
      assert p in g'.vsizes && g'.vsizes[p].id == id;
    }
  }

  lemma TouchInv(g: GState, path: Path, closed: set<nat>)
    requires path in g.vsizes && InvExcept(g, closed)
    ensures InvExcept(Touch(g, path), closed)
  {
    TouchIds(g, path);
    GrowInv(g, Touch(g, path), closed);
  }

  lemma TouchWithParentInv(g: GState, path: Path, parent: Path -> Path, closed: set<nat>)
    requires path in g.vsizes && InvExcept(g, closed)
    ensures InvExcept(TouchWithParent(g, path, parent), closed)
  {
    if !g.vsizes[path].touched {
      var up := parent(path);
      if up in g.vsizes {
        TouchInv(g, path, closed);
      } else {
        KnowInv(g, up, closed);
        TouchInv(Know(g, up), up, closed);
        TouchInv(Touch(Know(g, up), up), path, closed);
      }
    }
  }

  // ---------------------------------------------------------------- journal lines

  lemma FdOpsSnoc(journal: seq<Op>, op: Op, fd: nat)
    ensures FdOps(journal + [op], fd)
         == if FdOf(op.kind) == Some(fd) then FdOps(journal, fd) + [op] else FdOps(journal, fd)
  {
    FilterSnoc(journal, op, Names(fd));
  }

  /** A line that names no descriptor. */
  lemma PlainLineInv(g: GState, op: Op, closed: set<nat>)
    requires InvExcept(g, closed) && FdOf(op.kind).None? && op.id <= g.numVsizes
    requires op.kind.OnPath? ==> op.kind.path in g.vsizes && op.id == g.vsizes[op.kind.path].id
    ensures InvExcept(g.(journal := g.journal + [op]), closed)
  {
    forall fd: nat
      ensures FdOps(g.journal + [op], fd) == FdOps(g.journal, fd)
    {
      FdOpsSnoc(g.journal, op, fd);
    }
  }

  /** A line on an open descriptor: one more use, or its close. */
  lemma FdLineLifecycle(journal: seq<Op>, vsizes: map<Path, Vsize>, m: nat, path: Path, op: Op)
    requires OpenInJournal(journal, vsizes, m, path) && op.id == vsizes[path].id
    requires op.kind == UseOp(m) || op.kind == CloseOp(m)
    ensures Lifecycle(FdOps(journal + [op], m))
    ensures if op.kind.UseOp? then OpenInJournal(journal + [op], vsizes, m, path) else !IsOpen(FdOps(journal + [op], m))
  {
    FdOpsSnoc(journal, op, m);
    assert op.kind.CloseOp? ==> !IsOpen(FdOps(journal + [op], m));
  }

  lemma OtherFdOps(journal: seq<Op>, op: Op, m: nat)
    requires op.kind == UseOp(m) || op.kind == CloseOp(m)
    ensures forall fd: nat :: fd != m ==> FdOps(journal + [op], fd) == FdOps(journal, fd)
  {
    forall fd: nat | fd != m
      ensures FdOps(journal + [op], fd) == FdOps(journal, fd)
    {
      FdOpsSnoc(journal, op, fd);
    }
  }

  lemma FdLineStillOpen(g: GState, pid: nat, m: nat, op: Op, closed: set<nat>)
    requires StillOpen(g.journal, g.vsizes, g.procs, closed)
    requires pid in g.procs && m in g.procs[pid].vfds && m !in closed
    requires op.kind == UseOp(m) || op.kind == CloseOp(m)
    requires g.procs[pid].vfds[m].path in g.vsizes && op.id == g.vsizes[g.procs[pid].vfds[m].path].id
    requires forall q :: q in g.procs && m in g.procs[q].vfds ==> q == pid
    ensures StillOpen(g.journal + [op], g.vsizes, g.procs, if op.kind.CloseOp? then closed + {m} else closed)
  {
    assert OpenInJournal(g.journal, g.vsizes, m, g.procs[pid].vfds[m].path);
    FdLineLifecycle(g.journal, g.vsizes, m, g.procs[pid].vfds[m].path, op);
    OtherFdOps(g.journal, op, m);
    forall q, k | q in g.procs && k in g.procs[q].vfds && k !in closed && k != m
      ensures OpenInJournal(g.journal + [op], g.vsizes, k, g.procs[q].vfds[k].path)
    {
      assert OpenInJournal(g.journal, g.vsizes, k, g.procs[q].vfds[k].path);
    }
  }

  /** The line keeps every lifecycle, and no other number becomes open or used. */
  lemma FdLineFormed(journal: seq<Op>, vsizes: map<Path, Vsize>, numFds: nat, m: nat, path: Path, op: Op)
    requires WellFormed(journal) && NumbersUsed(journal, numFds) && FIRST_FD < m <= numFds
    requires OpenInJournal(journal, vsizes, m, path) && op.id == vsizes[path].id
    requires op.kind == UseOp(m) || op.kind == CloseOp(m)
    ensures WellFormed(journal + [op]) && NumbersUsed(journal + [op], numFds)
  {
    FdLineLifecycle(journal, vsizes, m, path, op);
    OtherFdOps(journal, op, m);
  }

  lemma FdLineNoneLeft(g: GState, pid: nat, m: nat, op: Op, closed: set<nat>)
    requires NoneLeft(g.journal, g.procs, closed)
    requires pid in g.procs && m in g.procs[pid].vfds && m !in closed
    requires op.kind == UseOp(m) || op.kind == CloseOp(m)
    requires op.kind.CloseOp? ==> !IsOpen(FdOps(g.journal + [op], m))
    ensures NoneLeft(g.journal + [op], g.procs, if op.kind.CloseOp? then closed + {m} else closed)
  {
    OtherFdOps(g.journal, op, m);
    assert Owned(g.procs, m);
    forall k: nat | IsOpen(FdOps(g.journal + [op], k)) && k != m
      ensures k !in closed && Owned(g.procs, k)
    {
      assert IsOpen(FdOps(g.journal, k));
    }
  }

  lemma FdLineTraced(g: GState, pid: nat, m: nat, op: Op, closed: set<nat>)
    requires Trace(g, closed) && FIRST_FD < m <= g.numFds
    requires pid in g.procs && m in g.procs[pid].vfds && m !in closed
    requires op.kind == UseOp(m) || op.kind == CloseOp(m)
    requires g.procs[pid].vfds[m].path in g.vsizes && op.id == g.vsizes[g.procs[pid].vfds[m].path].id
    requires forall q :: q in g.procs && m in g.procs[q].vfds ==> q == pid
    ensures Trace(g.(journal := g.journal + [op]), if op.kind.CloseOp? then closed + {m} else closed)
  {
    var path := g.procs[pid].vfds[m].path;
    assert OpenInJournal(g.journal, g.vsizes, m, path);
    FdLineLifecycle(g.journal, g.vsizes, m, path, op);
    FdLineFormed(g.journal, g.vsizes, g.numFds, m, path, op);
    FdLineStillOpen(g, pid, m, op, closed);
    FdLineNoneLeft(g, pid, m, op, closed);
  }

  lemma FdLineInv(g: GState, pid: nat, m: nat, kind: Kind, lineno: nat, closed: set<nat>)
    requires InvExcept(g, closed) && pid in g.procs && m in g.procs[pid].vfds && m !in closed
    requires kind == UseOp(m) || kind == CloseOp(m)
    ensures InvExcept(EmitFd(g, g.procs[pid].vfds[m], g.procs[pid].mapped, kind, lineno),
                      if kind.CloseOp? then closed + {m} else closed)
  {
    var path := g.procs[pid].vfds[m].path;
    KnowInv(g, path, closed);
    var g1 := Know(g, path);
    KnownFdLineInv(g1, pid, m, Op(g1.vsizes[path].id, g.procs[pid].mapped, kind, lineno), closed);
  }

  lemma KnownFdLineInv(g: GState, pid: nat, m: nat, op: Op, closed: set<nat>)
    requires InvExcept(g, closed) && pid in g.procs && m in g.procs[pid].vfds && m !in closed
    requires op.kind == UseOp(m) || op.kind == CloseOp(m)
    requires g.procs[pid].vfds[m].path in g.vsizes && op.id == g.vsizes[g.procs[pid].vfds[m].path].id
    ensures InvExcept(g.(journal := g.journal + [op]), if op.kind.CloseOp? then closed + {m} else closed)
  {
    hide Trace;
    FdLineTraced(g, pid, m, op, closed);
  }

  lemma CloseLineInv(g: GState, pid: nat, m: nat, lineno: nat, touch: bool, closed: set<nat>)
    requires InvExcept(g, closed) && pid in g.procs && m in g.procs[pid].vfds && m !in closed
    ensures InvExcept(EmitClose(g, g.procs[pid].vfds[m], m, g.procs[pid].mapped, lineno, touch), closed + {m})
  {
    FdLineInv(g, pid, m, CloseOp(m), lineno, closed);
    if touch {
      TouchInv(EmitFd(g, g.procs[pid].vfds[m], g.procs[pid].mapped, CloseOp(m), lineno),
               g.procs[pid].vfds[m].path, closed + {m});
    }
  }

  // ---------------------------------------------------------------- descriptors

  lemma ForgetMaps(procs: map<nat, Proc>, numFds: nat, pid: nat, fd: int)
    requires Maps(procs, numFds) && pid in procs && Mapped(procs[pid], fd)
    ensures Maps(procs[pid := Forget(procs[pid], fd)], numFds)
  {
    var p := procs[pid];
    var p' := Forget(p, fd);
    assert Bijection(p);
    assert Bijection(p') by {
      assert forall f :: f in p'.fds ==> f in p.fds && f != fd && p.vfds[p.fds[f]].fd == f;
    }
  }

  lemma ForgetStillOpen(g: GState, pid: nat, fd: int)
    requires Maps(g.procs, g.numFds) && pid in g.procs && Mapped(g.procs[pid], fd)
    requires StillOpen(g.journal, g.vsizes, g.procs, {g.procs[pid].fds[fd]})
    ensures StillOpen(g.journal, g.vsizes, g.procs[pid := Forget(g.procs[pid], fd)], {})
  {
    var procs' := g.procs[pid := Forget(g.procs[pid], fd)];
    forall q, k | q in procs' && k in procs'[q].vfds
      ensures OpenInJournal(g.journal, g.vsizes, k, procs'[q].vfds[k].path)
    {
      assert k in g.procs[q].vfds && k != g.procs[pid].fds[fd];
      assert procs'[q].vfds[k] == g.procs[q].vfds[k];
      assert OpenInJournal(g.journal, g.vsizes, k, g.procs[q].vfds[k].path);
    }
  }

  lemma ForgetNoneLeft(g: GState, pid: nat, fd: int)
    requires pid in g.procs && Mapped(g.procs[pid], fd)
    requires NoneLeft(g.journal, g.procs, {g.procs[pid].fds[fd]})
    ensures NoneLeft(g.journal, g.procs[pid := Forget(g.procs[pid], fd)], {})
  {
    var procs' := g.procs[pid := Forget(g.procs[pid], fd)];
    forall k: nat | IsOpen(FdOps(g.journal, k))
      ensures Owned(procs', k)
    {
      var q :| q in g.procs && k in g.procs[q].vfds;
      assert q in procs' && k in procs'[q].vfds;
    }
  }

  /** Forgetting a descriptor whose close has been written. */
  lemma ForgetInv(g: GState, pid: nat, fd: int)
    requires pid in g.procs && Mapped(g.procs[pid], fd)
    requires InvExcept(g, {g.procs[pid].fds[fd]})
    ensures Inv(g.(procs := g.procs[pid := Forget(g.procs[pid], fd)]))
  {
    ForgetMaps(g.procs, g.numFds, pid, fd);
    ForgetStillOpen(g, pid, fd);
    ForgetNoneLeft(g, pid, fd);
  }

  /** Lines and sizes do not depend on the maps, so the order of removing and writing does not matter. */
  lemma EmitCloseProcs(g: GState, procs: map<nat, Proc>, vfd: Vfd, mapped: nat, pid: nat, lineno: nat, touch: bool)
    ensures EmitClose(g.(procs := procs), vfd, mapped, pid, lineno, touch)
         == EmitClose(g, vfd, mapped, pid, lineno, touch).(procs := procs)
  {
  }

  /** Writing the close of a descriptor and forgetting it. */
  lemma ClosedInv(g: GState, pid: nat, fd: int, lineno: nat, touch: bool)
    requires InvExcept(g, {}) && pid in g.procs && Mapped(g.procs[pid], fd)
    ensures var p := g.procs[pid];
            Inv(EmitClose(g, p.vfds[p.fds[fd]], p.fds[fd], p.mapped, lineno, touch)
                .(procs := g.procs[pid := Forget(p, fd)]))
  {
    hide InvExcept;
    var p := g.procs[pid];
    var m := p.fds[fd];
    var g1 := EmitClose(g, p.vfds[m], m, p.mapped, lineno, touch);
    assert InvExcept(g1, {m}) by {
      CloseLineInv(g, pid, m, lineno, touch, {});
      assert {} + {m} == {m};
    }
    ForgetInv(g1, pid, fd);
  }

  lemma InsertedCloseInv(g: GState, t: Task)
    requires Inv(g) && t.pid in g.procs
    requires t.fd in g.procs[t.pid].fds ==> Mapped(g.procs[t.pid], t.fd)
    ensures var g' := InsertMissingClose(g, t); Inv(g') && t.fd !in g'.procs[t.pid].fds
  {
    var p := g.procs[t.pid];
    if t.fd in p.fds {
      ClosedInv(g, t.pid, t.fd, t.lineno, true);
      EmitCloseProcs(g, g.procs[t.pid := Forget(p, t.fd)], p.vfds[p.fds[t.fd]], p.fds[t.fd], p.mapped, t.lineno, true);
    }
  }

  /** The journal after the OPEN line of a number that was never used. */
  lemma FreshLine(journal: seq<Op>, op: Op, m: nat)
    requires op.kind.OpenOp? && op.kind.fd == m && FdOps(journal, m) == []
    ensures FdOps(journal + [op], m) == [op] && IsOpen([op])
    ensures forall fd: nat :: fd != m ==> FdOps(journal + [op], fd) == FdOps(journal, fd)
  {
    forall fd: nat
      ensures FdOps(journal + [op], fd) == if fd == m then [op] else FdOps(journal, fd)
    {
      FdOpsSnoc(journal, op, fd);
    }
  }

  /** A process after an open of a real descriptor it does not have mapped. */
  function Opened(p: Proc, fd: int, m: nat, path: Path): Proc {
    p.(fds := p.fds[fd := m], vfds := p.vfds[m := Vfd(fd, m, path)])
  }

  lemma OpenedMaps(procs: map<nat, Proc>, numFds: nat, pid: nat, fd: int, path: Path)
    requires Maps(procs, numFds) && pid in procs && fd !in procs[pid].fds && numFds >= FIRST_FD
    ensures Maps(procs[pid := Opened(procs[pid], fd, numFds + 1, path)], numFds + 1)
  {
    hide Bijection;
    OpenedBijection(procs[pid], fd, numFds + 1, path);
  }

  lemma OpenedBijection(p: Proc, fd: int, m: nat, path: Path)
    requires Bijection(p) && fd !in p.fds && m !in p.vfds
    ensures Bijection(Opened(p, fd, m, path))
  {
  }

  lemma OpenedTraced(g: GState, t: Task, path: Path)
    requires t.pid in g.procs && path in g.vsizes && g.numFds >= FIRST_FD
    requires Trace(g, {})
    ensures Trace(AfterOpenLine(g, t, path), {})
  {
    hide FdOps, Filter, StillOpen, NoneLeft, Opened;
    var g' := AfterOpenLine(g, t, path);
    var m := g.numFds + 1;
    FreshLine(g.journal, g'.journal[|g.journal|], m);
    OpenedStillOpen(g, t, path);
    OpenedNoneLeft(g, t, path);
  }

  lemma OpenedStillOpen(g: GState, t: Task, path: Path)
    requires t.pid in g.procs && path in g.vsizes && g.numFds >= FIRST_FD
    requires NumbersUsed(g.journal, g.numFds) && StillOpen(g.journal, g.vsizes, g.procs, {})
    ensures var g' := AfterOpenLine(g, t, path); StillOpen(g'.journal, g'.vsizes, g'.procs, {})
  {
    hide Filter;
    var g' := AfterOpenLine(g, t, path);
    var m := g.numFds + 1;
    FreshLine(g.journal, g'.journal[|g.journal|], m);
    forall q, k | q in g'.procs && k in g'.procs[q].vfds
      ensures OpenInJournal(g'.journal, g'.vsizes, k, g'.procs[q].vfds[k].path)
    {
      if k != m {
        assert k in g.procs[q].vfds;
        assert OpenInJournal(g.journal, g.vsizes, k, g.procs[q].vfds[k].path);
      }
    }
  }

  lemma OpenedNoneLeft(g: GState, t: Task, path: Path)
    requires t.pid in g.procs && path in g.vsizes && NumbersUsed(g.journal, g.numFds)
             && NoneLeft(g.journal, g.procs, {})
    ensures var g' := AfterOpenLine(g, t, path); NoneLeft(g'.journal, g'.procs, {})
  {
    hide FdOps, Lifecycle;
    var g' := AfterOpenLine(g, t, path);
    var m := g.numFds + 1;
    FreshLine(g.journal, g'.journal[|g.journal|], m);
    assert t.pid in g'.procs && m in g'.procs[t.pid].vfds;
    forall k: nat | IsOpen(FdOps(g'.journal, k)) && k != m
      ensures Owned(g'.procs, k)
    {
      assert IsOpen(FdOps(g.journal, k));
      var q :| q in g.procs && k in g.procs[q].vfds;
      assert q in g'.procs && k in g'.procs[q].vfds;
    }
  }

  lemma TaggedSnoc(journal: seq<Op>, op: Op, vsizes: map<Path, Vsize>, numVsizes: nat, path: Path)
    requires Tagged(journal, vsizes, numVsizes) && Ids(vsizes, numVsizes)
    requires path in vsizes && op.id == vsizes[path].id && op.kind.OpenOp? && op.kind.path == path
    ensures Tagged(journal + [op], vsizes, numVsizes)
  {
  }

  lemma OpenedBase(g: GState, t: Task, path: Path)
    requires Base(g) && t.pid in g.procs && path in g.vsizes && g.numFds >= FIRST_FD && t.fd !in g.procs[t.pid].fds
    ensures Base(AfterOpenLine(g, t, path))
  {
    hide Tagged, Maps, Ids;
    var op := Op(g.vsizes[path].id, g.procs[t.pid].mapped, OpenOp(g.numFds + 1, path), t.lineno);
    TaggedSnoc(g.journal, op, g.vsizes, g.numVsizes, path);
    OpenedMaps(g.procs, g.numFds, t.pid, t.fd, path);
  }

  lemma OpenedInv(g: GState, t: Task, path: Path)
    requires Inv(g) && t.pid in g.procs && path in g.vsizes && g.numFds >= FIRST_FD && t.fd !in g.procs[t.pid].fds
    ensures Inv(AfterOpenLine(g, t, path))
  {
    OpenedBase(g, t, path);
    OpenedTraced(g, t, path);
  }

  // ---------------------------------------------------------------- tasks

  predicate OpenAccepted(t: Task) {
    t.HasFd() && t.path.Some? && !(if t.name.Creat? then t.mode == -1 else t.flags == -1)
  }

  /** The state once the OPEN line is written, when the real descriptor was not mapped any more. */
  function AfterOpenLine(k: GState, t: Task, path: Path): GState
    requires t.pid in k.procs && path in k.vsizes
  {
    k.(procs := k.procs[t.pid := Opened(k.procs[t.pid], t.fd, k.numFds + 1, path)], numFds := k.numFds + 1,
       journal := k.journal + [Op(k.vsizes[path].id, k.procs[t.pid].mapped, OpenOp(k.numFds + 1, path), t.lineno)])
  }

  lemma OpenSplits(g: GState, t: Task, parent: Path -> Path)
    requires t.pid in g.procs && Consistent(g) && OpenAccepted(t)
    ensures var k := Know(InsertMissingClose(g, t), t.path.value);
            RunOpen(g, t, parent) == TouchWithParent(AfterOpenLine(k, t, t.path.value), t.path.value, parent)
  {
    var path := t.path.value;
    var k := Know(InsertMissingClose(g, t), path);
    var g1 := CreateVfd(g, t, path);
    assert Know(g1, path) == k.(procs := g1.procs, numFds := g1.numFds);
  }

  lemma OpenInv(g: GState, t: Task, parent: Path -> Path)
    requires Inv(g) && g.numFds >= FIRST_FD && t.pid in g.procs && Consistent(g)
    ensures Inv(RunOpen(g, t, parent)) && RunOpen(g, t, parent).numFds >= FIRST_FD
  {
    if OpenAccepted(t) {
      var path := t.path.value;
      OpenSplits(g, t, parent);
      InsertedCloseInv(g, t);
      KnowInv(InsertMissingClose(g, t), path, {});
      var k := Know(InsertMissingClose(g, t), path);
      OpenLineInv(k, t, path, parent);
    }
  }

  lemma OpenLineInv(k: GState, t: Task, path: Path, parent: Path -> Path)
    requires Inv(k) && k.numFds >= FIRST_FD && t.pid in k.procs && path in k.vsizes && t.fd !in k.procs[t.pid].fds
    ensures var g' := TouchWithParent(AfterOpenLine(k, t, path), path, parent);
            Inv(g') && g'.numFds >= FIRST_FD
  {
    OpenedInv(k, t, path);
    TouchWithParentInv(AfterOpenLine(k, t, path), path, parent, {});
  }

  lemma CloseInv(g: GState, t: Task)
    requires Inv(g) && t.pid in g.procs && Consistent(g)
    ensures Inv(RunClose(g, t))
  {
    var p := g.procs[t.pid];
    if t.HasFd() && t.fd in p.fds {
      assert Mapped(p, t.fd);
      ClosedInv(g, t.pid, t.fd, t.lineno, t.touches);
    }
  }

  lemma FdOpInv(g: GState, t: Task)
    requires Inv(g) && t.pid in g.procs && Consistent(g)
    ensures Inv(RunFdOp(g, t))
  {
    var p := g.procs[t.pid];
    if t.HasFd() && t.fd in p.fds && t.name != Fcntl(false) {
      assert Mapped(p, t.fd);
      var m := p.fds[t.fd];
      FdLineInv(g, t.pid, m, UseOp(m), t.lineno, {});
      if t.touches {
        TouchInv(EmitFd(g, p.vfds[m], p.mapped, UseOp(m), t.lineno), p.vfds[m].path, {});
      }
    }
  }

  lemma PathOpInv(g: GState, t: Task, parent: Path -> Path)
    requires Inv(g) && t.pid in g.procs
    ensures Inv(RunPathOp(g, t, parent))
  {
    if t.path.Some? && !(t.name.Rename? && t.path2.None?) {
      var path := t.path.value;
      KnowInv(g, path, {});
      var g1 := Know(g, path);
      PlainLineInv(g1, Op(g1.vsizes[path].id, g.procs[t.pid].mapped, OnPath(path), t.lineno), {});
      var g2 := Emit(g1, path, g.procs[t.pid].mapped, OnPath(path), t.lineno);
      if t.touches {
        if !t.name.Rename? {
          TouchWithParentInv(g2, path, parent, {});
        } else {
          KnowInv(g2, t.path2.value, {});
          TouchWithParentInv(Know(g2, t.path2.value), path, parent, {});
          TouchWithParentInv(TouchWithParent(Know(g2, t.path2.value), path, parent), t.path2.value, parent, {});
        }
      }
    }
  }

  function Elements<T(==)>(xs: seq<T>): set<T> { set x | x in xs }

  lemma ElementsSnoc(xs: seq<nat>, x: nat)
    ensures Elements(xs + [x]) == Elements(xs) + {x}
    ensures x !in xs ==> x !in Elements(xs)
  {
    assert forall m :: m in xs + [x] <==> m in xs || m == x;
  }

  lemma {:induction false} CloseAllInv(g: GState, pid: nat, order: seq<nat>, lineno: nat)
    requires InvExcept(g, {}) && pid in g.procs
    requires forall i :: 0 <= i < |order| ==> order[i] in g.procs[pid].vfds
    requires forall i, j :: 0 <= i < j < |order| ==> order[i] != order[j]
    ensures InvExcept(CloseAll(g, g.procs[pid], order, lineno), Elements(order))
    decreases |order|
  {
    hide InvExcept;
    if order == [] {
      assert Elements(order) == {};
    } else {
      var front, last := order[..|order| - 1], order[|order| - 1];
      CloseAllInv(g, pid, front, lineno);
      CloseOneMore(g, pid, front, last, order, lineno);
    }
  }

  lemma CloseOneMore(g: GState, pid: nat, front: seq<nat>, last: nat, order: seq<nat>, lineno: nat)
    requires pid in g.procs && order == front + [last] && last in g.procs[pid].vfds && last !in front
    requires forall i :: 0 <= i < |front| ==> front[i] in g.procs[pid].vfds
    requires InvExcept(CloseAll(g, g.procs[pid], front, lineno), Elements(front))
    ensures InvExcept(CloseAll(g, g.procs[pid], order, lineno), Elements(order))
  {
    ElementsSnoc(front, last);
    assert order[..|order| - 1] == front;
    NextCloseInv(CloseAll(g, g.procs[pid], front, lineno), pid, last, lineno, Elements(front));
  }

  lemma NextCloseInv(g: GState, pid: nat, m: nat, lineno: nat, closed: set<nat>)
    requires InvExcept(g, closed) && pid in g.procs && m in g.procs[pid].vfds && m !in closed
    ensures var p := g.procs[pid];
            InvExcept(EmitClose(g, p.vfds[m], p.vfds[m].mapped, p.mapped, lineno, true), closed + {m})
  {
    assert Bijection(g.procs[pid]);
    CloseLineInv(g, pid, m, lineno, true, closed);
  }

  lemma DropStillOpen(g: GState, pid: nat, closed: set<nat>)
    requires Maps(g.procs, g.numFds) && pid in g.procs && closed == g.procs[pid].vfds.Keys
    requires StillOpen(g.journal, g.vsizes, g.procs, closed) && NoneLeft(g.journal, g.procs, closed)
    ensures StillOpen(g.journal, g.vsizes, g.procs - {pid}, {}) && NoneLeft(g.journal, g.procs - {pid}, {})
  {
    var procs' := g.procs - {pid};
    forall q, k | q in procs' && k in procs'[q].vfds
      ensures OpenInJournal(g.journal, g.vsizes, k, procs'[q].vfds[k].path)
    {
      assert k in g.procs[q].vfds && k !in closed;
      assert OpenInJournal(g.journal, g.vsizes, k, g.procs[q].vfds[k].path);
    }
    forall k: nat | IsOpen(FdOps(g.journal, k))
      ensures Owned(procs', k)
    {
      var q :| q in g.procs && k in g.procs[q].vfds;
      assert q in procs' && k in procs'[q].vfds;
    }
  }

  lemma DropProcess(g: GState, pid: nat, closed: set<nat>)
    requires InvExcept(g, closed) && pid in g.procs && closed == g.procs[pid].vfds.Keys
    ensures Inv(g.(procs := g.procs - {pid}))
  {
    DropStillOpen(g, pid, closed);
  }

  lemma ExitInv(g: GState, t: Task, order: seq<nat>)
    requires Inv(g) && t.pid in g.procs && IsOrder(g.procs[t.pid].vfds, order)
    ensures Inv(RunExit(g, t, order))
  {
    hide InvExcept, StillOpen;
    CloseAllInv(g, t.pid, order, t.lineno);
    assert Elements(order) == g.procs[t.pid].vfds.Keys;
    DropProcess(CloseAll(g, g.procs[t.pid], order, t.lineno), t.pid, Elements(order));
  }

  lemma NewProcessStillOpen(g: GState, pid: nat)
    requires StillOpen(g.journal, g.vsizes, g.procs, {}) && pid !in g.procs && pid < MAX_PROCESSES
    ensures StillOpen(g.journal, g.vsizes, WithProcess(g, pid).procs, {})
  {
    var procs' := WithProcess(g, pid).procs;
    forall q, k | q in procs' && k in procs'[q].vfds
      ensures OpenInJournal(g.journal, g.vsizes, k, procs'[q].vfds[k].path)
    {
      assert k in g.procs[q].vfds;
      assert OpenInJournal(g.journal, g.vsizes, k, g.procs[q].vfds[k].path);
    }
  }

  lemma NewProcessNoneLeft(g: GState, pid: nat)
    requires NoneLeft(g.journal, g.procs, {}) && pid !in g.procs && pid < MAX_PROCESSES
    ensures NoneLeft(g.journal, WithProcess(g, pid).procs, {})
  {
    var procs' := WithProcess(g, pid).procs;
    forall k: nat | IsOpen(FdOps(g.journal, k))
      ensures Owned(procs', k)
    {
      var q :| q in g.procs && k in g.procs[q].vfds;
      assert q in procs' && k in procs'[q].vfds;
    }
  }

  lemma NewProcessInv(g: GState, pid: nat)
    requires Inv(g)
    ensures Inv(WithProcess(g, pid))
  {
    if pid !in g.procs && pid < MAX_PROCESSES {
      NewProcessStillOpen(g, pid);
      NewProcessNoneLeft(g, pid);
    }
  }

  // ---------------------------------------------------------------- every run

  /** What holds between two tasks. */
  ghost predicate Good(g: GState) { Inv(g) && g.numFds >= FIRST_FD }

  predicate OpensOrEnds(name: Name) { name.Open? || name.Creat? || name.ExitGroup? }

  lemma DispatchOpenInv(g: GState, t: Task, parent: Path -> Path, order: seq<nat>)
    requires Good(g) && Consistent(g) && t.pid in g.procs && OrderFits(g, t, order) && OpensOrEnds(t.name)
    ensures Good(Dispatch(g, t, parent, order))
  {
    match t.name
    case Open => OpenInv(g, t, parent);
    case Creat => OpenInv(g, t, parent);
    case ExitGroup => ExitInv(g, t, order);
  }

  lemma DispatchInv(g: GState, t: Task, parent: Path -> Path, order: seq<nat>)
    requires Good(g) && Consistent(g) && t.pid in g.procs && OrderFits(g, t, order)
    ensures Good(Dispatch(g, t, parent, order))
  {
    hide InvExcept, Consistent, TouchWithParent;
    if OpensOrEnds(t.name) {
      DispatchOpenInv(g, t, parent, order);
    } else {
      match t.name
      case Close => CloseInv(g, t);
      case FdOp => FdOpInv(g, t);
      case Fcntl(_) => FdOpInv(g, t);
      case PathOp => PathOpInv(g, t, parent);
      case Rename => PathOpInv(g, t, parent);
      case SyncAll => PlainLineInv(g, Op(0, g.procs[t.pid].mapped, SyncOp, t.lineno), {});
      case _ =>
    }
  }

  lemma RunInv(g: GState, t: Task, parent: Path -> Path, order: seq<nat>)
    requires Good(g) && Consistent(g) && OrderFits(g, t, order)
    ensures Good(Run(g, t, parent, order))
  {
    if !g.halted && t.ok {
      NewProcessInv(g, t.pid);
      var g1 := WithProcess(g, t.pid);
      if !g1.halted {
        InvConsistent(g1, {});
        DispatchInv(g1, t, parent, if t.pid in g.procs then order else []);
      }
    }
  }

  /** Task t can take the generator from g0 to g, visiting open descriptors in this order if it ends a process. */
  ghost predicate CanStep(g0: GState, t: Task, parent: Path -> Path, order: seq<nat>, g: GState) {
    Consistent(g0) && OrderFits(g0, t, order) && g == Run(g0, t, parent, order)
  }

  /** The states a run over these tasks goes through, with the order in which each exit_group visits the descriptors. */
  ghost predicate RunThrough(tasks: seq<Task>, parent: Path -> Path, states: seq<GState>, orders: seq<seq<nat>>) {
    && |states| == |tasks| + 1 && |orders| == |tasks| && states[0] == Init()
    && forall i {:trigger tasks[i]} :: 0 <= i < |tasks| ==>
         CanStep(states[i], tasks[i], parent, orders[i], states[i + 1])
  }

  /** `g` is a state the generator can be in after these tasks; exit_group may visit descriptors in any order. */
  ghost predicate Generated(tasks: seq<Task>, parent: Path -> Path, g: GState) {
    exists states, orders :: RunThrough(tasks, parent, states, orders) && g == states[|tasks|]
  }

  lemma {:induction false} RunGood(tasks: seq<Task>, parent: Path -> Path, states: seq<GState>, orders: seq<seq<nat>>,
                                   i: nat)
    requires RunThrough(tasks, parent, states, orders) && i <= |tasks|
    ensures Good(states[i])
  {
    hide Inv, Run;
    if i == 0 {
      InitInv();
    } else {
      RunGood(tasks, parent, states, orders, i - 1);
      assert CanStep(states[i - 1], tasks[i - 1], parent, orders[i - 1], states[i]);
      RunInv(states[i - 1], tasks[i - 1], parent, orders[i - 1]);
    }
  }

  /** Every run keeps all invariants; in particular each removal from a descriptor map names a present key. */
  lemma GeneratedGood(tasks: seq<Task>, parent: Path -> Path, g: GState)
    requires Generated(tasks, parent, g)
    ensures Good(g) && Consistent(g)
  {
    hide InvExcept, CanStep, Consistent;
    var states, orders :| RunThrough(tasks, parent, states, orders) && g == states[|tasks|];
    RunGood(tasks, parent, states, orders, |tasks|);
    InvConsistent(g, {});
  }

  lemma GeneratedNothing(parent: Path -> Path)
    ensures Generated([], parent, Init())
  {
    assert RunThrough([], parent, [Init()], []);
  }

  lemma GeneratedSnoc(tasks: seq<Task>, parent: Path -> Path, g: GState, t: Task, order: seq<nat>, g': GState)
    requires Generated(tasks, parent, g) && CanStep(g, t, parent, order, g')
    ensures Generated(tasks + [t], parent, g')
  {
    hide CanStep;
    var states, orders :| RunThrough(tasks, parent, states, orders) && g == states[|tasks|];
    var tasks', states', orders' := tasks + [t], states + [g'], orders + [order];
    forall i {:trigger tasks'[i]} | 0 <= i < |tasks'|
      ensures CanStep(states'[i], tasks'[i], parent, orders'[i], states'[i + 1])
    {
      if i < |tasks| {
        assert tasks'[i] == tasks[i];
      }
    }
    assert RunThrough(tasks', parent, states', orders');
  }

  /**
   Journal well-formedness: whatever is captured, every virtual descriptor is opened at most
   once, before its uses, closed at most once, after them, under one vsize id, and its number
   is above 10 and at most num_mapped_fds.
   */
  lemma JournalWellFormed(tasks: seq<Task>, parent: Path -> Path, g: GState, fd: nat)
    requires Generated(tasks, parent, g)
    ensures Lifecycle(FdOps(g.journal, fd))
    ensures FdOps(g.journal, fd) != [] ==> FIRST_FD < fd <= g.numFds
  {
    GeneratedGood(tasks, parent, g);
  }

  /** One path, one id: equal ids mean equal paths, the ids are 1..num_vsizes, and every line carries its path's id. */
  lemma OnePathOneId(tasks: seq<Task>, parent: Path -> Path, g: GState)
    requires Generated(tasks, parent, g)
    ensures forall a, b :: a in g.vsizes && b in g.vsizes && g.vsizes[a].id == g.vsizes[b].id ==> a == b
    ensures forall id :: 1 <= id <= g.numVsizes <==> id > 0 && Issued(g.vsizes, id)
    ensures Tagged(g.journal, g.vsizes, g.numVsizes)
  {
    GeneratedGood(tasks, parent, g);
  }

  /**
   Descriptor maps: bijective in each process, bounded, disjoint between processes, and open in
   the journal under their path's id.
   */
  lemma DescriptorMaps(tasks: seq<Task>, parent: Path -> Path, g: GState, pid: nat)
    requires Generated(tasks, parent, g) && pid in g.procs
    ensures Bijection(g.procs[pid])
    ensures forall m :: m in g.procs[pid].vfds ==> FIRST_FD < m <= g.numFds
    ensures forall q, m :: q in g.procs && m in g.procs[pid].vfds && m in g.procs[q].vfds ==> q == pid
    ensures forall m :: m in g.procs[pid].vfds ==> OpenInJournal(g.journal, g.vsizes, m, g.procs[pid].vfds[m].path)
  {
    GeneratedGood(tasks, parent, g);
  }

  /** When a process exits, every descriptor it had open ends with a CLOSE line, written by this task or before. */
  lemma ExitClosesEverything(tasks: seq<Task>, parent: Path -> Path, g: GState, t: Task, order: seq<nat>, fd: nat)
    requires Generated(tasks, parent, g) && !g.halted && t.ok && t.name.ExitGroup? && t.pid in g.procs
    requires IsOrder(g.procs[t.pid].vfds, order) && fd in g.procs[t.pid].vfds
    ensures Consistent(g) && OrderFits(g, t, order)
    ensures var ops := FdOps(Run(g, t, parent, order).journal, fd);
            Lifecycle(ops) && ops != [] && ops[|ops| - 1].kind == CloseOp(fd)
    ensures t.pid !in Run(g, t, parent, order).procs
  {
    GeneratedGood(tasks, parent, g);
    ExitRuns(g, t, parent, order);
    ExitEnds(g, t, order, fd);
  }

  lemma ExitRuns(g: GState, t: Task, parent: Path -> Path, order: seq<nat>)
    requires Consistent(g) && !g.halted && t.ok && t.name.ExitGroup? && t.pid in g.procs
    requires IsOrder(g.procs[t.pid].vfds, order)
    ensures Run(g, t, parent, order) == RunExit(g, t, order)
  {
  }

  lemma ExitEnds(g: GState, t: Task, order: seq<nat>, fd: nat)
    requires Inv(g) && t.pid in g.procs && IsOrder(g.procs[t.pid].vfds, order) && fd in g.procs[t.pid].vfds
    ensures var ops := FdOps(RunExit(g, t, order).journal, fd);
            Lifecycle(ops) && ops != [] && ops[|ops| - 1].kind == CloseOp(fd)
    ensures t.pid !in RunExit(g, t, order).procs
  {
    ExitInv(g, t, order);
    WasOpened(g, t.pid, fd);
    NotOwned(g, t.pid, fd);
    CloseAllExtends(g, g.procs[t.pid], order, t.lineno);
    ClosedAtTheEnd(g.journal, RunExit(g, t, order), fd);
  }

  lemma WasOpened(g: GState, pid: nat, fd: nat)
    requires Inv(g) && pid in g.procs && fd in g.procs[pid].vfds
    ensures FdOps(g.journal, fd) != []
  {
    assert OpenInJournal(g.journal, g.vsizes, fd, g.procs[pid].vfds[fd].path);
  }

  lemma NotOwned(g: GState, pid: nat, fd: nat)
    requires Maps(g.procs, g.numFds) && pid in g.procs && fd in g.procs[pid].vfds
    ensures !Owned(g.procs - {pid}, fd)
  {
  }

  /** A descriptor that has lines in the journal and is in no map ends with its close. */
  lemma ClosedAtTheEnd(before: seq<Op>, g: GState, fd: nat)
    requires Inv(g) && before <= g.journal && FdOps(before, fd) != [] && !Owned(g.procs, fd)
    ensures var ops := FdOps(g.journal, fd); Lifecycle(ops) && ops != [] && ops[|ops| - 1].kind == CloseOp(fd)
  {
    FilterPrefix(before, g.journal, Names(fd));
    var ops := FdOps(g.journal, fd);
    assert Lifecycle(ops) && ops != [];
    assert !IsOpen(ops);
    assert ops[|ops| - 1] in ops;
  }

  lemma {:induction false} CloseAllExtends(g: GState, p: Proc, order: seq<nat>, lineno: nat)
    requires forall i :: 0 <= i < |order| ==> order[i] in p.vfds
    ensures g.journal <= CloseAll(g, p, order, lineno).journal
    decreases |order|
  {
    if order == [] {
    } else {
      CloseAllExtends(g, p, order[..|order| - 1], lineno);
    }
  }
}
