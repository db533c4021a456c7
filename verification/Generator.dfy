/**
 The journal generator on mutable objects: processes with their two descriptor maps, virtual
 descriptors that are recycled through a ring, and the journal. Every method is proved
 against the function of GenSpec that describes it.
 */
module Generator {
  import opened Seqs
  import opened GenSpec
  import GenProof

  /** rbuffer_new(1024) holds one element less. */
  const VFD_BUFFER: nat := 1023

  class VirtualFd {
    var fd: int
    var mapped: nat
    var path: Path
    var offset: int
    /** The map entry that holds this object: process and virtual number. None while in the ring or in hand. */
    ghost var owner: Option<(nat, nat)>

    function Value(): Vfd
      reads this`fd, this`mapped, this`path
    {
      Vfd(fd, mapped, path)
    }

    constructor (fd: int, mapped: nat, path: Path)
      ensures Value() == Vfd(fd, mapped, path) && offset == 0 && owner == None
    {
      this.fd, this.mapped, this.path, offset, owner := fd, mapped, path, 0, None;
    }

    /** vfd_update: a recycled object becomes a new descriptor. */
    method Update(fd: int, mapped: nat, path: Path)
      modifies this
      ensures Value() == Vfd(fd, mapped, path) && offset == 0 && owner == old(owner)
    {
      this.fd, this.mapped, this.path, offset := fd, mapped, path, 0;
    }
  }

  class Process {
    const pid: nat
    const mapped: nat
    var fdMap: map<int, nat>
    var vfdMap: map<nat, VirtualFd>
    ghost var objects: set<VirtualFd>

    constructor (pid: nat, mapped: nat)
      ensures Is(pid, Proc(mapped, map[], map[])) && objects == {}
    {
      this.pid, this.mapped, fdMap, vfdMap, objects := pid, mapped, map[], map[], {};
    }

    /** The maps hold what `p` says, in objects owned by this process. */
    ghost predicate Holds(p: Proc)
      reads this, objects
    {
      && mapped == p.mapped && fdMap == p.fds && vfdMap.Keys == p.vfds.Keys
      && (forall m :: m in vfdMap ==>
            vfdMap[m] in objects && vfdMap[m].Value() == p.vfds[m] && vfdMap[m].owner == Some((pid, m)))
      && (forall vfd :: vfd in objects ==> vfd.owner.Some? && vfd.owner.value.0 == pid)
    }

    /** The object kept under `pid`. */
    ghost predicate Is(pid: nat, p: Proc)
      reads this, objects
    {
      this.pid == pid && Holds(p)
    }

    /** hmap_remove_l on both maps; the object is not owned any more. */
    method Drop(fd: int, vfd: VirtualFd, ghost p: Proc)
      requires Holds(p) && Mapped(p, fd) && vfd == vfdMap[fdMap[fd]]
      modifies this, vfd`owner
      ensures Is(pid, Forget(p, fd)) && vfd.owner == None && objects == old(objects) - {vfd}
    {
      var m := fdMap[fd];
      assert forall n :: n in vfdMap && n != m ==> vfdMap[n] != vfd;
      fdMap := Remove(fdMap, fd);
      vfdMap := Remove(vfdMap, m);
      objects := objects - {vfd};
      vfd.owner := None;
    }

    /** hmap_insert_l into both maps. */
    method Add(fd: int, m: nat, vfd: VirtualFd, ghost p: Proc)
      requires Holds(p) && vfd.owner == None && vfd.fd == fd && vfd.mapped == m
      modifies this, vfd`owner
      ensures Is(pid, GenProof.Opened(p, fd, m, vfd.path)) && objects == old(objects) + {vfd}
    {
      assert forall n :: n in vfdMap ==> vfdMap[n] in objects && vfdMap[n] != vfd;
      vfdMap := vfdMap[m := vfd];
      fdMap := fdMap[fd := m];
      objects := objects + {vfd};
      vfd.owner := Some((pid, m));
    }
  }

  class Generator {
    var pidMap: map<nat, Process>
    var vfdBuffer: seq<VirtualFd>
    var vsizes: map<Path, Vsize>
    var numPids: nat
    var numFds: nat
    var numVsizes: nat
    var journal: seq<Op>
    var halted: bool
    ghost var state: GState
    ghost var Repr: set<object>

    /** The plain fields agree with the ghost state. */
    ghost predicate Fields()
      reads this
    {
      && numPids == state.numPids && numFds == state.numFds && numVsizes == state.numVsizes
      && vsizes == state.vsizes && journal == state.journal && halted == state.halted
    }

    ghost predicate Processes()
      reads this, Repr
    {
      && pidMap.Keys == state.procs.Keys
      && (forall pid :: pid in pidMap ==> pidMap[pid] in Repr && pidMap[pid].objects <= Repr)
      && (forall pid :: pid in pidMap ==> pidMap[pid].Is(pid, state.procs[pid]))
    }

    /** The ring holds distinct objects that no process can reach. */
    ghost predicate Recycled()
      reads this`vfdBuffer, vfdBuffer
    {
      && |vfdBuffer| <= VFD_BUFFER
      && (forall i :: 0 <= i < |vfdBuffer| ==> vfdBuffer[i].owner == None)
      && (forall i, j :: 0 <= i < j < |vfdBuffer| ==> vfdBuffer[i] != vfdBuffer[j])
    }

    ghost predicate Valid()
      reads this, Repr
    {
      this in Repr && Fields() && Processes() && (forall vfd :: vfd in vfdBuffer ==> vfd in Repr) && Recycled()
    }

    constructor ()
      ensures Valid() && fresh(Repr) && state == Init()
    {
      pidMap, vfdBuffer, vsizes, journal, halted := map[], [], map[], [], false;
      numPids, numFds, numVsizes := 0, FIRST_FD, 0;
      state := Init();
      Repr := {this};
    }

    // -------------------------------------------------------------- sizes and lines

    /** generate_vsize_by_path */
    method VsizeByPath(path: Path)
      requires Valid()
      modifies this`vsizes, this`numVsizes, this`state
      ensures Valid() && state == Know(old(state), path)
    {
      if path !in vsizes {
        numVsizes := numVsizes + 1;
        vsizes := vsizes[path := Vsize(numVsizes, false)];
      }
      state := Know(state, path);
    }

    /** Gioop_write */
    method Write(path: Path, pid: nat, kind: Kind, lineno: nat)
      requires Valid() && path in vsizes
      modifies this`journal, this`state
      ensures Valid() && state == Emit(old(state), path, pid, kind, lineno)
    {
      journal := journal + [Op(vsizes[path].id, pid, kind, lineno)];
      state := Emit(state, path, pid, kind, lineno);
    }

    /** v->updates++ */
    method TouchVsize(path: Path)
      requires Valid() && path in vsizes
      modifies this`vsizes, this`state
      ensures Valid() && state == Touch(old(state), path)
    {
      vsizes := vsizes[path := vsizes[path].(touched := true)];
      state := Touch(state, path);
    }

    /** The first update of a path makes its parent directory known. */
    method TouchFirst(path: Path, parent: Path -> Path)
      requires Valid() && path in vsizes
      modifies this`vsizes, this`numVsizes, this`state
      ensures Valid() && state == TouchWithParent(old(state), path, parent)
    {
      if !vsizes[path].touched {
        var up := parent(path);
        if up !in vsizes {
          VsizeByPath(up);
          TouchVsize(up);
        }
        TouchVsize(path);
      }
    }

    /** vfd->offset = 0 */
    method Rewind(vfd: VirtualFd)
      requires Valid()
      modifies vfd`offset
      ensures Valid() && vfd.Value() == old(vfd.Value())
    {
      vfd.offset := 0;
    }

    /** A CLOSE line for a descriptor, and vsize_close. */
    method WriteClose(vfd: VirtualFd, mapped: nat, pid: nat, lineno: nat, touch: bool)
      requires Valid()
      modifies this`vsizes, this`numVsizes, this`journal, this`state, vfd`offset
      ensures Valid() && state == EmitClose(old(state), old(vfd.Value()), mapped, pid, lineno, touch)
      ensures vfd.Value() == old(vfd.Value())
    {
      VsizeByPath(vfd.path);
      Write(vfd.path, pid, CloseOp(mapped), lineno);
      if touch {
        TouchVsize(vfd.path);
        Rewind(vfd);
      }
    }

    // -------------------------------------------------------------- descriptor objects

    /** An object in nobody's hands: not in a map, not in the ring. */
    ghost predicate Free(vfd: VirtualFd)
      reads this, vfd
    {
      vfd in Repr && vfd.owner == None && vfd !in vfdBuffer
    }

    /** An object from the ring, or a new one. */
    method TakeVfd(fd: int, mapped: nat, path: Path) returns (vfd: VirtualFd)
      requires Valid()
      modifies this`vfdBuffer, this`Repr, vfdBuffer
      ensures Valid() && state == old(state) && fresh(Repr - old(Repr)) && old(Repr) <= Repr
      ensures Free(vfd) && vfd.Value() == Vfd(fd, mapped, path)
    {
      if vfdBuffer == [] {
        vfd := new VirtualFd(fd, mapped, path);
        Repr := Repr + {vfd};
      } else {
        vfd := vfdBuffer[0];
        vfdBuffer := vfdBuffer[1..];
        vfd.Update(fd, mapped, path);
      }
    }

    /** Back into the ring; when it is full the object is destroyed. */
    method Release(vfd: VirtualFd)
      requires Valid() && Free(vfd)
      modifies this`vfdBuffer
      ensures Valid()
      ensures vfdBuffer == if |old(vfdBuffer)| < VFD_BUFFER then old(vfdBuffer) + [vfd] else old(vfdBuffer)
    {
      if |vfdBuffer| < VFD_BUFFER {
        vfdBuffer := vfdBuffer + [vfd];
      }
    }

    /** The object of an open real descriptor. */
    ghost function ObjectOf(pid: nat, fd: int): VirtualFd
      reads this, Repr
      requires Valid() && pid in pidMap && Mapped(state.procs[pid], fd)
    {
      pidMap[pid].vfdMap[pidMap[pid].fdMap[fd]]
    }

    /** An object that is free, or open in this process, is in no other process. */
    lemma Elsewhere(pid: nat, fd: int, vfd: VirtualFd)
      requires Valid() && pid in pidMap
      requires Free(vfd) || (Mapped(state.procs[pid], fd) && vfd == ObjectOf(pid, fd))
      ensures pidMap[pid].Holds(state.procs[pid]) && pidMap[pid].pid == pid
      ensures forall q :: q in pidMap && q != pid ==> pidMap[q] != pidMap[pid] && vfd !in pidMap[q].objects
      ensures vfd !in vfdBuffer && vfd in Repr
    {
    }

    /** Remove both keys of an open descriptor; the object is then free. */
    method Detach(pid: nat, fd: int, vfd: VirtualFd)
      requires Valid() && pid in pidMap && Mapped(state.procs[pid], fd) && vfd == ObjectOf(pid, fd)
      modifies this`state, pidMap[pid], vfd`owner
      ensures Valid() && Free(vfd)
      ensures state == old(state).(procs := old(state).procs[pid := Forget(old(state).procs[pid], fd)])
    {
      hide Process.Holds, Process.Is, Recycled, Forget, Mapped;
      var p := pidMap[pid];
      Elsewhere(pid, fd, vfd);
      p.Drop(fd, vfd, state.procs[pid]);
      state := state.(procs := state.procs[pid := Forget(state.procs[pid], fd)]);
    }

    /** Insert a free object under both keys. */
    method Attach(pid: nat, fd: int, mapped: nat, vfd: VirtualFd)
      requires Valid() && Free(vfd) && pid in pidMap && vfd.fd == fd && vfd.mapped == mapped
      modifies this`state, pidMap[pid], vfd`owner
      ensures Valid()
      ensures var g := old(state);
              state == g.(procs := g.procs[pid := GenProof.Opened(g.procs[pid], fd, mapped, vfd.path)])
    {
      hide Process.Holds, Process.Is, Recycled, GenProof.Opened;
      var p := pidMap[pid];
      Elsewhere(pid, fd, vfd);
      p.Add(fd, mapped, vfd, state.procs[pid]);
      state := state.(procs := state.procs[pid := GenProof.Opened(state.procs[pid], fd, mapped, vfd.path)]);
    }

    // -------------------------------------------------------------- handlers

    /** generate_gprocess_by_realpid; a pid beyond pid_map ends the program. */
    method EnsureProcess(pid: nat)
      requires Valid()
      modifies this`pidMap, this`numPids, this`halted, this`state, this`Repr
      ensures Valid() && fresh(Repr - old(Repr)) && old(Repr) <= Repr
      ensures state == WithProcess(old(state), pid)
    {
      hide Process.Holds, Process.Is, Recycled;
      if pid !in pidMap {
        numPids := numPids + 1;
        if pid >= MAX_PROCESSES {
          halted := true;
        } else {
          var p := new Process(pid, numPids);
          pidMap := pidMap[pid := p];
          Repr := Repr + {p};
        }
        state := WithProcess(state, pid);
      }
    }

    /** The close that was missed: forget the old descriptor and write a CLOSE line for it. */
    method InsertClose(t: Task)
      requires Valid() && t.pid in pidMap && Mapped(state.procs[t.pid], t.fd)
      modifies Repr
      ensures Valid() && Repr == old(Repr) && pidMap == old(pidMap)
      ensures state == InsertMissingClose(old(state), t)
    {
      hide Process.Holds, Processes, Recycled, EmitClose, Forget;
      var p := pidMap[t.pid];
      MapsOf(t.pid);
      var oldMapped := p.fdMap[t.fd];
      var vfd := p.vfdMap[oldMapped];
      Detach(t.pid, t.fd, vfd);
      WriteClose(vfd, oldMapped, p.mapped, t.lineno, true);
      Release(vfd);
    }

    lemma MapsOf(pid: nat)
      requires Valid() && pid in pidMap
      ensures pid in state.procs && pidMap[pid] in Repr
      ensures pidMap[pid].fdMap == state.procs[pid].fds && pidMap[pid].mapped == state.procs[pid].mapped
      ensures pidMap[pid].vfdMap.Keys == state.procs[pid].vfds.Keys
      ensures forall m :: m in pidMap[pid].vfdMap ==>
                pidMap[pid].vfdMap[m] in Repr && pidMap[pid].vfdMap[m].Value() == state.procs[pid].vfds[m]
    {
    }

    /** gprocess_create_vfd_by_realfd */
    method CreateVfdByRealFd(t: Task, path: Path)
      requires Valid() && t.pid in pidMap
      requires t.fd in state.procs[t.pid].fds ==> Mapped(state.procs[t.pid], t.fd)
      modifies Repr
      ensures Valid() && fresh(Repr - old(Repr)) && pidMap == old(pidMap)
      ensures state == CreateVfd(old(state), t, path)
    {
      hide Process.Holds, Processes, Recycled, InsertMissingClose;
      MapsOf(t.pid);
      if t.fd in pidMap[t.pid].fdMap {
        InsertClose(t);
      } else {
        UnmappedInsertsNothing(state, t);
      }
      MapNext(t.pid, t.fd, path);
    }

    /** The next virtual descriptor of a process, for a real one. */
    method MapNext(pid: nat, fd: int, path: Path)
      requires Valid() && pid in pidMap
      modifies Repr
      ensures Valid() && fresh(Repr - old(Repr)) && pidMap == old(pidMap)
      ensures old(pid in state.procs)
      ensures var g := old(state); var m := g.numFds + 1;
              state == g.(numFds := m, procs := g.procs[pid := GenProof.Opened(g.procs[pid], fd, m, path)])
    {
      hide Process.Holds, Recycled;
      var vfd := TakeVfd(fd, numFds + 1, path);
      CountFd();
      Attach(pid, fd, numFds, vfd);
    }

    lemma UnmappedInsertsNothing(g: GState, t: Task)
      requires t.pid in g.procs && t.fd !in g.procs[t.pid].fds
      ensures InsertMissingClose(g, t) == g
    {
    }

    /** ++g->num_mapped_fds */
    method CountFd()
      requires Valid()
      modifies this`numFds, this`state
      ensures Valid() && state == old(state).(numFds := old(state).numFds + 1) && numFds == old(numFds) + 1
    {
      hide Process.Holds, Recycled;
      numFds := numFds + 1;
      state := state.(numFds := state.numFds + 1);
    }

    /** gioop_open, gioop_openat and gioop_creat */
    method OpenFile(t: Task, parent: Path -> Path)
      requires Valid() && t.pid in pidMap && Consistent(state)
      modifies Repr
      ensures Valid() && fresh(Repr - old(Repr))
      ensures state == RunOpen(old(state), t, parent)
    {
      hide Process.Holds, Processes, Recycled, CreateVfd, TouchWithParent;
      if !t.HasFd() || t.path.None? || (if t.name.Creat? then t.mode == -1 else t.flags == -1) {
        return;
      }
      MapsOf(t.pid);
      var p, path := pidMap[t.pid], t.path.value;
      CreateVfdByRealFd(t, path);
      MapsOf(t.pid);
      VsizeByPath(path);
      Write(path, p.mapped, OpenOp(numFds, path), t.lineno);
      TouchFirst(path, parent);
    }

    lemma CloseLineKeepsMaps(g: GState, vfd: Vfd, mapped: nat, pid: nat, lineno: nat, touch: bool)
      ensures EmitClose(g, vfd, mapped, pid, lineno, touch).procs == g.procs
    {
    }

    /** gioop_close */
    method CloseFile(t: Task)
      requires Valid() && t.pid in pidMap && Consistent(state)
      modifies Repr
      ensures Valid() && Repr == old(Repr)
      ensures state == RunClose(old(state), t)
    {
      hide Process.Holds, Processes, Recycled, EmitClose, Forget;
      MapsOf(t.pid);
      var p := pidMap[t.pid];
      if !t.HasFd() || t.fd !in p.fdMap {
        return;
      }
      var mapped := p.fdMap[t.fd];
      assert Mapped(state.procs[t.pid], t.fd);
      var vfd := p.vfdMap[mapped];
      CloseLineKeepsMaps(state, vfd.Value(), mapped, p.mapped, t.lineno, t.touches);
      WriteClose(vfd, mapped, p.mapped, t.lineno, t.touches);
      Detach(t.pid, t.fd, vfd);
      Release(vfd);
    }

    /** The handlers of operations on an open descriptor. */
    method UseFile(t: Task)
      requires Valid() && t.pid in pidMap && Consistent(state)
      modifies this`vsizes, this`numVsizes, this`journal, this`state
      ensures Valid() && state == RunFdOp(old(state), t)
    {
      hide Process.Holds, Processes, Recycled;
      MapsOf(t.pid);
      var p := pidMap[t.pid];
      if !t.HasFd() || t.fd !in p.fdMap || t.name == Fcntl(false) {
        return;
      }
      var mapped := p.fdMap[t.fd];
      assert Mapped(state.procs[t.pid], t.fd);
      var vfd := p.vfdMap[mapped];
      VsizeByPath(vfd.path);
      Write(vfd.path, p.mapped, UseOp(mapped), t.lineno);
      if t.touches {
        TouchVsize(vfd.path);
      }
    }

    /** The handlers of operations on a path. */
    method UsePath(t: Task, parent: Path -> Path)
      requires Valid() && t.pid in pidMap
      modifies this`vsizes, this`numVsizes, this`journal, this`state
      ensures Valid() && state == RunPathOp(old(state), t, parent)
    {
      hide Process.Holds, Processes, Recycled, TouchWithParent;
      if t.path.None? || (t.name.Rename? && t.path2.None?) {
        return;
      }
      MapsOf(t.pid);
      var path := t.path.value;
      VsizeByPath(path);
      Write(path, pidMap[t.pid].mapped, OnPath(path), t.lineno);
      if t.touches {
        if t.name.Rename? {
          VsizeByPath(t.path2.value);
          TouchFirst(path, parent);
          TouchFirst(t.path2.value, parent);
        } else {
          TouchFirst(path, parent);
        }
      }
    }

    /** gioop_sync: a line without a path has vsize id 0. */
    method Sync(t: Task)
      requires Valid() && t.pid in pidMap
      modifies this`journal, this`state
      ensures Valid()
      ensures var g := old(state);
              state == g.(journal := g.journal + [Op(0, g.procs[t.pid].mapped, SyncOp, t.lineno)])
    {
      MapsOf(t.pid);
      journal := journal + [Op(0, pidMap[t.pid].mapped, SyncOp, t.lineno)];
      state := state.(journal := state.journal + [Op(0, state.procs[t.pid].mapped, SyncOp, t.lineno)]);
    }

    /**
     gioop_exit_group: every open descriptor is closed, in whatever order the map yields them,
     and the process is gone.
     */
    method ExitGroup(t: Task) returns (ghost order: seq<nat>)
      requires Valid() && t.pid in pidMap
      modifies this`pidMap, this`vsizes, this`numVsizes, this`journal, this`state, pidMap[t.pid].objects
      ensures Valid() && Repr == old(Repr)
      ensures IsOrder(old(state).procs[t.pid].vfds, order)
      ensures old(state).procs[t.pid].vfds == map[] ==> order == []
      ensures state == RunExit(old(state), t, order)
    {
      hide Process.Holds, Processes, Recycled, EmitClose, CloseAll;
      order := CloseEach(t);
      EndProcess(t.pid);
    }

    method CloseEach(t: Task) returns (ghost order: seq<nat>)
      requires Valid() && t.pid in pidMap
      modifies this`vsizes, this`numVsizes, this`journal, this`state, pidMap[t.pid].objects
      ensures Valid()
      ensures IsOrder(old(state).procs[t.pid].vfds, order)
      ensures old(state).procs[t.pid].vfds == map[] ==> order == []
      ensures state == CloseAll(old(state), old(state).procs[t.pid], order, t.lineno)
    {
      hide Process.Holds, Processes, Recycled, EmitClose, Partial, IsOrder;
      MapsOf(t.pid);
      ghost var was := state.procs[t.pid];
      var todo := pidMap[t.pid].vfdMap.Keys;
      PartialStarts(was.vfds);
      order := [];
      while todo != {}
        invariant Valid() && Partial(was.vfds, todo, order)
        invariant forall i :: 0 <= i < |order| ==> order[i] in was.vfds
        invariant state == CloseAll(old(state), was, order, t.lineno)
        decreases todo
      {
        var m :| m in todo;
        PartialMore(was.vfds, todo, order, m);
        CloseAllSnoc(old(state), was, order, m, t.lineno);
        CloseMember(t, m);
        order, todo := order + [m], todo - {m};
      }
      PartialEnds(was.vfds, order);
    }

    /** gioop_close_all_vfd_cb */
    method CloseMember(t: Task, m: nat)
      requires Valid() && t.pid in pidMap && m in state.procs[t.pid].vfds
      modifies this`vsizes, this`numVsizes, this`journal, this`state, pidMap[t.pid].objects
      ensures Valid() && pidMap[t.pid].objects == old(pidMap[t.pid].objects)
      ensures var p := old(state).procs[t.pid];
              state == EmitClose(old(state), p.vfds[m], p.vfds[m].mapped, p.mapped, t.lineno, true)
    {
      hide Process.Holds, Processes, Recycled, EmitClose;
      var p := pidMap[t.pid];
      MapsOf(t.pid);
      var vfd := p.vfdMap[m];
      ObjectInProcess(t.pid, m);
      WriteClose(vfd, vfd.mapped, p.mapped, t.lineno, true);
    }

    /** `order` lists the visited descriptors, each once, and `todo` holds the others. */
    ghost predicate Partial(vfds: map<nat, Vfd>, todo: set<nat>, order: seq<nat>) {
      && (forall m :: m in todo ==> m in vfds && m !in order)
      && (vfds == map[] ==> order == [])
      && (forall m :: m in vfds ==> m in todo || m in order)
      && (forall i :: 0 <= i < |order| ==> order[i] in vfds)
      && (forall i, j :: 0 <= i < j < |order| ==> order[i] != order[j])
    }

    lemma PartialStarts(vfds: map<nat, Vfd>)
      ensures Partial(vfds, vfds.Keys, [])
    {
    }

    lemma PartialMore(vfds: map<nat, Vfd>, todo: set<nat>, order: seq<nat>, m: nat)
      requires Partial(vfds, todo, order) && m in todo
      ensures Partial(vfds, todo - {m}, order + [m]) && m in vfds
    {
    }

    lemma PartialEnds(vfds: map<nat, Vfd>, order: seq<nat>)
      requires Partial(vfds, {}, order)
      ensures IsOrder(vfds, order) && (vfds == map[] ==> order == [])
    {
    }

    lemma ObjectInProcess(pid: nat, m: nat)
      requires Valid() && pid in pidMap && m in pidMap[pid].vfdMap
      ensures pidMap[pid].vfdMap[m] in pidMap[pid].objects
    {
    }

    lemma CloseAllSnoc(g: GState, p: Proc, order: seq<nat>, m: nat, lineno: nat)
      requires m in p.vfds && forall i :: 0 <= i < |order| ==> order[i] in p.vfds
      ensures CloseAll(g, p, order + [m], lineno)
           == EmitClose(CloseAll(g, p, order, lineno), p.vfds[m], p.vfds[m].mapped, p.mapped, lineno, true)
    {
      hide EmitClose;
      assert (order + [m])[..|order|] == order;
    }

    /** amap_unset; the process object and its descriptors are destroyed. */
    method EndProcess(pid: nat)
      requires Valid() && pid in pidMap
      modifies this`pidMap, this`state
      ensures Valid() && state == old(state).(procs := old(state).procs - {pid})
    {
      hide Process.Holds, Process.Is, Recycled;
      pidMap := pidMap - {pid};
      state := state.(procs := state.procs - {pid});
    }

    // -------------------------------------------------------------- tasks

    /** The handler of the operation. */
    method Handle(t: Task, parent: Path -> Path) returns (ghost order: seq<nat>)
      requires Valid() && t.pid in pidMap && Consistent(state)
      modifies Repr
      ensures Valid() && fresh(Repr - old(Repr))
      ensures OrderFits(old(state), t, order)
      ensures !t.name.ExitGroup? || old(state).procs[t.pid].vfds == map[] ==> order == []
      ensures state == Dispatch(old(state), t, parent, order)
    {
      hide Process.Holds, Processes, Recycled, RunOpen, RunClose, RunFdOp, RunPathOp, RunExit;
      order := [];
      match t.name {
        case Open => OpenFile(t, parent);
        case Creat => OpenFile(t, parent);
        case Close => CloseFile(t);
        case FdOp => UseFile(t);
        case Fcntl(_) => UseFile(t);
        case PathOp => UsePath(t, parent);
        case Rename => UsePath(t, parent);
        case SyncAll => Sync(t);
        case Ignored =>
        case ExitGroup =>
          ObjectsOf(t.pid);
          order := ExitGroup(t);
        case Unknown =>
      }
    }

    lemma ObjectsOf(pid: nat)
      requires Valid() && pid in pidMap
      ensures pid in state.procs && pidMap[pid].objects <= Repr
    {
    }

    /** A process that is new has nothing open. */
    lemma NewProcess(g: GState, t: Task)
      requires Consistent(g)
      ensures Consistent(WithProcess(g, t.pid))
      ensures t.pid !in g.procs ==> OrderFits(g, t, [])
    {
    }

    lemma SameProcesses(g: GState, pid: nat)
      requires Valid() && state == WithProcess(g, pid) && !state.halted
      ensures pid in pidMap
    {
    }

    lemma OrderOfNew(g: GState, t: Task, order: seq<nat>)
      requires !WithProcess(g, t.pid).halted && OrderFits(WithProcess(g, t.pid), t, order)
      requires !t.name.ExitGroup? || WithProcess(g, t.pid).procs[t.pid].vfds == map[] ==> order == []
      ensures OrderFits(g, t, order) && (t.pid !in g.procs ==> order == [])
    {
    }

    /** Some order fits every task. */
    lemma SomeOrder(g: GState, t: Task) returns (order: seq<nat>)
      ensures OrderFits(g, t, order)
    {
      order := [];
      if t.pid in g.procs {
        var vfds := g.procs[t.pid].vfds;
        var todo := vfds.Keys;
        PartialStarts(vfds);
        while todo != {}
          invariant Partial(vfds, todo, order)
          decreases todo
        {
          var m :| m in todo;
          PartialMore(vfds, todo, order, m);
          order, todo := order + [m], todo - {m};
        }
        PartialEnds(vfds, order);
      }
    }

    /** gioop_run */
    method RunTask(t: Task, parent: Path -> Path) returns (ghost order: seq<nat>)
      requires Valid() && Consistent(state)
      modifies Repr
      ensures Valid() && fresh(Repr - old(Repr))
      ensures GenProof.CanStep(old(state), t, parent, order, state)
    {
      hide Process.Holds, Processes, Recycled, Dispatch, Consistent;
      order := [];
      if !halted && t.ok {
        NewProcess(state, t);
        EnsureProcess(t.pid);
        if !halted {
          SameProcesses(old(state), t.pid);
          order := Handle(t, parent);
          OrderOfNew(old(state), t, order);
        }
      } else {
        order := SomeOrder(state, t);
      }
    }
  }

  /** The writer thread's work on the whole capture: the journal it leaves is one GenProof speaks about. */
  method Generate(tasks: seq<Task>, parent: Path -> Path) returns (g: Generator)
    ensures g.Valid() && GenProof.Generated(tasks, parent, g.state) && g.journal == g.state.journal
  {
    hide GenProof.Generated, GenProof.CanStep, Consistent, GenProof.Good;
    g := new Generator();
    GenProof.GeneratedNothing(parent);
    for i := 0 to |tasks|
      invariant g.Valid() && fresh(g.Repr)
      invariant GenProof.Generated(tasks[..i], parent, g.state)
    {
      ghost var before := g.state;
      GenProof.GeneratedGood(tasks[..i], parent, before);
      ghost var order := g.RunTask(tasks[i], parent);
      GenProof.GeneratedSnoc(tasks[..i], parent, before, tasks[i], order, g.state);
      assert tasks[..i + 1] == tasks[..i] + [tasks[i]];
    }
    assert tasks[..|tasks|] == tasks;
  }
}
