/**
 Exactly when every virtual descriptor of every capture is owned by one thread: the boundary
 of the map that binds ids to threads, seen from the capture.
 */
module ReplayBoundary {
  import opened Seqs
  import AMap
  import opened Paths
  import S = Symlinks
  import opened Scheduler
  import opened SchedulerInv
  import SB = SchedulerBoundary
  import GenSpec
  import GenProof
  import opened Replay

  // ---------------------------------------------------------------- one worker of the system runs alone

  lemma ReplayedSnoc(u: Setup, s: System, m: Move, s': System)
    requires Replayed(u, s) && Makes(u, s, m, s')
    ensures Replayed(u, s')
  {
    hide Makes;
    var schedule, states :| SystemTrace(u, schedule, states) && s == states[|schedule|];
    var schedule', states' := schedule + [m], states + [s'];
    forall i {:trigger schedule'[i]} | 0 <= i < |schedule'|
      ensures Makes(u, states'[i], schedule'[i], states'[i + 1])
    {
      if i < |schedule| {
        assert schedule'[i] == schedule[i];
      }
    }
    assert SystemTrace(u, schedule', states');
  }

  /** Only worker w has made moves so far. */
  function Alone(u: Setup, w: nat, s: State): System
    requires w < u.numWorkers
  {
    System(InitSystem(u).workers[w := s], Map(s.executed, Tag(w)))
  }

  lemma AloneReady(u: Setup, w: nat, s: State)
    requires ValidSetup(u) && w < u.numWorkers && Shape(ConfigOf(u, w), s)
    ensures Ready(u, Alone(u, w, s))
  {
    hide Shape;
    forall v | 0 <= v < u.numWorkers
      ensures Shape(ConfigOf(u, v), Init())
    {
      InitShape(ConfigOf(u, v));
    }
  }

  lemma InitShape(c: Config)
    requires c.numWorkers > 0
    ensures Shape(c, Init())
  {
  }

  lemma AloneMoves(u: Setup, w: nat, s: State, a: Actor)
    requires ValidSetup(u) && w < u.numWorkers && Shape(ConfigOf(u, w), s)
    ensures Makes(u, Alone(u, w, s), Move(w, a), Alone(u, w, Step(ConfigOf(u, w), s, a)))
  {
    hide Shape, Step;
    var c := ConfigOf(u, w);
    AloneReady(u, w, s);
    ExecutedGrows(c, s, a);
    var before, after := s.executed, Step(c, s, a).executed;
    MapConcat(before, after[|before|..], Tag(w));
    assert after == before + after[|before|..];
    assert InitSystem(u).workers[w := s][w := Step(c, s, a)] == InitSystem(u).workers[w := Step(c, s, a)];
  }

  lemma {:induction false} AloneTrace(u: Setup, w: nat, schedule: seq<Actor>, states: seq<State>, i: nat)
    requires ValidSetup(u) && w < u.numWorkers && Trace(ConfigOf(u, w), schedule, states) && i <= |schedule|
    ensures Replayed(u, Alone(u, w, states[i]))
    decreases i
  {
    hide Shape, Step, Makes;
    if i == 0 {
      AloneStart(u, w);
    } else {
      AloneTrace(u, w, schedule, states, i - 1);
      assert Takes(ConfigOf(u, w), states[i - 1], schedule[i - 1], states[i]);
      AloneMoves(u, w, states[i - 1], schedule[i - 1]);
      ReplayedSnoc(u, Alone(u, w, states[i - 1]), Move(w, schedule[i - 1]), Alone(u, w, states[i]));
    }
  }

  lemma AloneStart(u: Setup, w: nat)
    requires ValidSetup(u) && w < u.numWorkers
    ensures Replayed(u, Alone(u, w, Init()))
  {
    var schedule: seq<Move> := [];
    assert Alone(u, w, Init()) == InitSystem(u);
    assert SystemTrace(u, schedule, [InitSystem(u)]);
  }

  /** Whatever a worker can do alone it can do in the system, while the others stand still. */
  lemma WorkerInSystem(u: Setup, w: nat, s: State)
    requires ValidSetup(u) && w < u.numWorkers && Reachable(ConfigOf(u, w), s)
    ensures Replayed(u, Alone(u, w, s))
  {
    hide Takes;
    var schedule, states :| Trace(ConfigOf(u, w), schedule, states) && s == states[|schedule|];
    AloneTrace(u, w, schedule, states, |schedule|);
  }

  // ---------------------------------------------------------------- parent directories

  /** The parent of a path below a directory is that directory. */
  ghost predicate DropsLast(parent: GenSpec.Path -> GenSpec.Path) {
    forall dir: string, last: string :: dir != "" && dir[|dir| - 1] != '/' && Part(last) ==>
      parent(dir + "/" + last) == dir
  }

  /**
   dirname() as section "dirname" of POSIX.1-2017 describes it; two leading slashes, which it
   leaves open, count as one.
   */
  function Dirname(path: string): string {
    var stripped := S.StripSlashes(path);
    if path == "" then "."
    else if stripped == "" then "/"
    else
      match S.LastSlash(stripped)
      case None => "."
      case Some(i) =>
        var dir := S.StripSlashes(stripped[..i]);
        if dir == "" then "/" else dir
  }

  function DirnameOf(): GenSpec.Path -> GenSpec.Path { (path: GenSpec.Path) => Dirname(path) }

  lemma DirnameDropsLast()
    ensures DropsLast(DirnameOf())
  {
    forall dir: string, last: string | dir != "" && dir[|dir| - 1] != '/' && Part(last)
      ensures Dirname(dir + "/" + last) == dir
    {
      DirnameOfJoin(dir, last);
    }
  }

  lemma DirnameOfJoin(dir: string, last: string)
    requires dir != "" && dir[|dir| - 1] != '/' && Part(last)
    ensures Dirname(dir + "/" + last) == dir
  {
    hide S.LastSlash, S.StripSlashes;
    var s := dir + "/" + last;
    assert s[|s| - 1] == last[|last| - 1] && last[|last| - 1] in last;
    NothingStripped(s);
    NothingStripped(dir);
    S.LastSlashAfter(dir, last);
    assert s[..|dir|] == dir;
  }

  lemma NothingStripped(s: string)
    requires s != "" && s[|s| - 1] != '/'
    ensures S.StripSlashes(s) == s
  {
  }

  // ---------------------------------------------------------------- a capture with exactly n paths

  const DIR: string := "/m/.ioriot/n"

  function Letters(n: nat): string { seq(n, i => 'a') }

  /** A directory, and files in it. */
  function NameOf(n: nat): GenSpec.Path { if n <= 1 then DIR else DIR + "/" + Letters(n - 1) }

  function PathTask(n: nat): GenSpec.Task {
    GenSpec.Task(true, n, 1, GenSpec.PathOp, 0, Some(NameOf(n)), None, 0, 0, false)
  }

  function OpenTask(n: nat): GenSpec.Task {
    GenSpec.Task(true, n, 1, GenSpec.Open, 3, Some(NameOf(n)), None, 0, 0, true)
  }

  function CloseTask(n: nat): GenSpec.Task {
    GenSpec.Task(true, n, 1, GenSpec.Close, 3, None, None, 0, 0, false)
  }

  /** One operation on each of the first n paths. */
  function PathTasks(n: nat): seq<GenSpec.Task> { if n == 0 then [] else PathTasks(n - 1) + [PathTask(n)] }

  /** The first n paths have the ids 1..n, and nothing is open. */
  ghost predicate PathsKnown(g: GenSpec.GState, n: nat) {
    && !g.halted && g.numVsizes == n && g.numFds == GenSpec.FIRST_FD
    && (forall k :: 1 <= k <= n ==> NameOf(k) in g.vsizes)
    && (forall path :: path in g.vsizes ==> n >= 1 && (|path| == |DIR| || |DIR| + 2 <= |path| <= |DIR| + n))
    && (n == 0 ==> g.procs == map[])
    && (n > 0 ==> 1 in g.procs && g.procs[1].fds == map[] && g.procs[1].vfds == map[])
    && PathLines(g.journal, n)
  }

  /** The first n journal lines are one path operation on each id. */
  ghost predicate PathLines(journal: seq<GenSpec.Op>, n: nat) {
    |journal| >= n && forall i :: 0 <= i < n ==> journal[i].id == i + 1 && journal[i].kind.OnPath?
  }

  lemma NextPath(g: GenSpec.GState, n: nat, parent: GenSpec.Path -> GenSpec.Path) returns (g': GenSpec.GState)
    requires PathsKnown(g, n) && |g.journal| == n && GenSpec.Consistent(g)
    ensures GenProof.CanStep(g, PathTask(n + 1), parent, [], g') && PathsKnown(g', n + 1) && |g'.journal| == n + 1
  {
    var t := PathTask(n + 1);
    assert |NameOf(n + 1)| == if n == 0 then |DIR| else |DIR| + n + 1;
    assert NameOf(n + 1) !in g.vsizes;
    g' := GenSpec.Run(g, t, parent, []);
    var g1 := GenSpec.WithProcess(g, 1);
    assert g' == GenSpec.RunPathOp(g1, t, parent);
  }

  lemma {:induction false} PathsGenerated(n: nat, parent: GenSpec.Path -> GenSpec.Path) returns (g: GenSpec.GState)
    ensures GenProof.Generated(PathTasks(n), parent, g) && PathsKnown(g, n) && |g.journal| == n
    decreases n
  {
    hide GenProof.Generated, PathsKnown, GenProof.CanStep, GenProof.Inv;
    if n == 0 {
      g := GenSpec.Init();
      GenProof.GeneratedNothing(parent);
      NothingKnown();
    } else {
      var before := PathsGenerated(n - 1, parent);
      GenProof.GeneratedGood(PathTasks(n - 1), parent, before);
      g := NextPath(before, n - 1, parent);
      GenProof.GeneratedSnoc(PathTasks(n - 1), parent, before, PathTask(n), [], g);
    }
  }

  lemma NothingKnown()
    ensures PathsKnown(GenSpec.Init(), 0)
  {
  }

  /** The capture: an operation on each of n - 1 paths, then an open and a close of the n-th. */
  function CaptureOf(n: nat): seq<GenSpec.Task>
    requires n >= 1
  {
    PathTasks(n - 1) + [OpenTask(n)] + [CloseTask(n + 1)]
  }

  const FD: nat := 11

  /** What the generator makes of it: the open and the close of descriptor 11 under the last id. */
  ghost predicate LastIdUsed(g: GenSpec.GState, n: nat) {
    && n >= 1 && g.numVsizes == n && |g.journal| == n + 1 && PathLines(g.journal, n - 1)
    && g.journal[n - 1].id == n && g.journal[n - 1].kind.OpenOp? && g.journal[n - 1].kind.fd == FD
    && g.journal[n].id == n && g.journal[n].kind == GenSpec.CloseOp(FD)
  }

  lemma OpenLast(g: GenSpec.GState, n: nat, parent: GenSpec.Path -> GenSpec.Path) returns (g': GenSpec.GState)
    requires n >= 2 && PathsKnown(g, n - 1) && |g.journal| == n - 1 && GenSpec.Consistent(g) && DropsLast(parent)
    ensures GenProof.CanStep(g, OpenTask(n), parent, [], g') && !g'.halted && |g'.journal| == n && g'.numVsizes == n
    ensures g.journal <= g'.journal && g'.journal[n - 1].id == n
    ensures g'.journal[n - 1].kind == GenSpec.OpenOp(FD, NameOf(n))
    ensures 1 in g'.procs && 3 in g'.procs[1].fds && g'.procs[1].fds[3] == FD && FD in g'.procs[1].vfds
    ensures g'.procs[1].vfds[FD].path == NameOf(n) && NameOf(n) in g'.vsizes && g'.vsizes[NameOf(n)].id == n
  {
    var t := OpenTask(n);
    assert NameOf(n) !in g.vsizes && NameOf(1) in g.vsizes && NameOf(1) != NameOf(n);
    assert Part(Letters(n - 1)) && parent(NameOf(n)) == DIR;
    g' := GenSpec.Run(g, t, parent, []);
    assert g' == GenSpec.RunOpen(g, t, parent);
  }

  lemma CloseLast(g: GenSpec.GState, n: nat, parent: GenSpec.Path -> GenSpec.Path) returns (g': GenSpec.GState)
    requires GenSpec.Consistent(g) && !g.halted && |g.journal| == n && g.numVsizes == n
    requires 1 in g.procs && 3 in g.procs[1].fds && g.procs[1].fds[3] == FD && FD in g.procs[1].vfds
    requires g.procs[1].vfds[FD].path == NameOf(n) && NameOf(n) in g.vsizes && g.vsizes[NameOf(n)].id == n
    ensures GenProof.CanStep(g, CloseTask(n + 1), parent, [], g') && g'.numVsizes == n && |g'.journal| == n + 1
    ensures g.journal <= g'.journal && g'.journal[n].id == n && g'.journal[n].kind == GenSpec.CloseOp(FD)
  {
    var t := CloseTask(n + 1);
    g' := GenSpec.Run(g, t, parent, []);
    assert g' == GenSpec.RunClose(g, t);
  }

  lemma LastIdGenerated(n: nat, parent: GenSpec.Path -> GenSpec.Path) returns (g: GenSpec.GState)
    requires n >= 2 && DropsLast(parent)
    ensures GenProof.Generated(CaptureOf(n), parent, g) && LastIdUsed(g, n)
  {
    hide GenProof.Generated, GenProof.CanStep, GenProof.Inv, GenSpec.Consistent;
    var g0 := PathsGenerated(n - 1, parent);
    GenProof.GeneratedGood(PathTasks(n - 1), parent, g0);
    var g1 := OpenLast(g0, n, parent);
    GenProof.GeneratedSnoc(PathTasks(n - 1), parent, g0, OpenTask(n), [], g1);
    GenProof.GeneratedGood(PathTasks(n - 1) + [OpenTask(n)], parent, g1);
    g := CloseLast(g1, n, parent);
    GenProof.GeneratedSnoc(PathTasks(n - 1) + [OpenTask(n)], parent, g1, CloseTask(n + 1), [], g);
  }

  // ---------------------------------------------------------------- ownership lost

  /** The replay of that capture. */
  function LastIdSetup(g: GenSpec.GState, n: nat, numWorkers: nat, numThreads: nat): Setup {
    Setup(File(g.journal, []), numWorkers, numThreads, n)
  }

  /** The worker that is responsible for the last id. */
  function LastIdConfig(g: GenSpec.GState, n: nat, numWorkers: nat, numThreads: nat): Config
    requires numWorkers >= 1
  {
    ConfigOf(LastIdSetup(g, n, numWorkers, numThreads), n % numWorkers)
  }

  lemma LastIdLines(g: GenSpec.GState, n: nat, numWorkers: nat, numThreads: nat)
    requires LastIdUsed(g, n) && numWorkers >= 1
    ensures var c := LastIdConfig(g, n, numWorkers, numThreads);
            && |c.lines| == n + 3 && SB.Distinct(c, n)
            && (forall i :: n <= i < n + 2 ==> Mine(c, i) && Id(c, i) == n)
  {
    hide File, Mine, LastIdUsed;
    var c := LastIdConfig(g, n, numWorkers, numThreads);
    LastIdNumber(g, n);
    FirstLine(c, g.journal);
    forall i | 1 <= i < n + 2
      ensures c.lines[i] == Entry(if i < n then i else n) && Id(c, i) == if i < n then i else n
    {
      IdOfLine(g, n, i);
      IdOnLine(c, g.journal, [], i);
    }
    forall i | n <= i < n + 2
      ensures Mine(c, i)
    {
      MineById(c, i, n);
    }
  }

  lemma FirstLine(c: Config, ops: seq<GenSpec.Op>)
    requires c.lines == File(ops, []) && c.numWorkers > 0
    ensures |c.lines| == |ops| + 2 && !Mine(c, 0) && !c.lines[0].InitMark?
  {
  }

  lemma IdOfLine(g: GenSpec.GState, n: nat, i: nat)
    requires LastIdUsed(g, n) && 1 <= i <= n + 1
    ensures |g.journal| == n + 1 && g.journal[i - 1].id == if i < n then i else n
  {
  }

  lemma MineById(c: Config, i: nat, id: nat)
    requires i < |c.lines| && c.lines[i] == Entry(id) && c.numWorkers >= 1 && c.me == id % c.numWorkers
    ensures Mine(c, i)
  {
  }

  lemma LastFdLines(g: GenSpec.GState, n: nat)
    requires LastIdUsed(g, n)
    ensures FdLines(g.journal, FD, n + 1) == [n, n + 1]
    ensures NamesFd(g.journal, FD)(n + 1) && forall i: nat :: i < n ==> !NamesFd(g.journal, FD)(i)
  {
    NoFdLines(g, n, n - 1);
    assert FdLines(g.journal, FD, n) == [n];
    forall i: nat | i < n
      ensures !NamesFd(g.journal, FD)(i)
    {
      if i > 0 {
        assert g.journal[i - 1].kind.OnPath?;
      }
    }
  }

  lemma {:induction false} NoFdLines(g: GenSpec.GState, n: nat, k: nat)
    requires LastIdUsed(g, n) && k < n
    ensures FdLines(g.journal, FD, k) == []
  {
    if k == 0 {
    } else {
      NoFdLines(g, n, k - 1);
      assert g.journal[k - 1].kind.OnPath?;
    }
  }

  /**
   For any number of workers, and of threads but one, a generated journal with n ids and a
   replay that closes a descriptor before opening it.
   */
  lemma OwnershipLost(parent: GenSpec.Path -> GenSpec.Path, n: nat, numWorkers: nat, numThreads: nat)
    returns (g: GenSpec.GState, u: Setup, s: System)
    requires DropsLast(parent) && n >= 1 && n % 1024 == 0 && numWorkers >= 1 && numThreads > 1
    ensures Composed(CaptureOf(n), parent, g, u, []) && Replayed(u, s)
    ensures u.numWorkers == numWorkers && u.numThreads == numThreads && g.numVsizes == n
    ensures !OwnedByOne(g.journal, FD, s.log)
  {
    hide GenProof.Generated, Replayed, LastIdUsed, Reachable, File, Mine, PathLines, SB.RanAhead, DropsLast,
      SB.Distinct;
    g := LastIdGenerated(n, parent);
    u := LastIdSetup(g, n, numWorkers, numThreads);
    var c := LastIdConfig(g, n, numWorkers, numThreads);
    LastIdLines(g, n, numWorkers, numThreads);
    assert !HasSlot(c, n) && ValidConfig(c) by {
      AMap.EveryIdHasASlot(n);
      AMap.CapacityIsMultiple(n);
    }
    var worker := SB.Overtaken(c, n);
    WorkerInSystem(u, n % numWorkers, worker);
    s := Alone(u, n % numWorkers, worker);
    NotOwned(g, n, worker.executed, n % numWorkers);
    LastIdNumber(g, n);
  }

  lemma LastIdNumber(g: GenSpec.GState, n: nat)
    requires LastIdUsed(g, n)
    ensures n >= 1 && g.numVsizes == n && |g.journal| == n + 1
  {
  }

  lemma NotOwned(g: GenSpec.GState, n: nat, executed: seq<Exec>, w: nat)
    requires LastIdUsed(g, n) && SB.RanAhead(executed, n, n + 1)
    ensures !OwnedByOne(g.journal, FD, Map(executed, Tag(w)))
  {
    LastFdLines(g, n);
    var lines: seq<nat> := Lines(Map(executed, Tag(w)));
    OnlyLast(lines, NamesFd(g.journal, FD));
    assert lines[|lines| - 1] == n + 1;
  }

  lemma OnlyLast(lines: seq<nat>, keep: nat -> bool)
    requires lines != [] && keep(lines[|lines| - 1]) && forall i :: 0 <= i < |lines| - 1 ==> !keep(lines[i])
    ensures Filter(lines, keep) == [lines[|lines| - 1]]
  {
    var front, last := lines[..|lines| - 1], lines[|lines| - 1];
    assert lines == front + [last];
    FilterNone(front, keep);
    FilterSnoc(front, last, keep);
  }

  // ---------------------------------------------------------------- the boundary

  /** Whatever is captured and however it is replayed, one thread owns each descriptor. */
  ghost predicate AlwaysOwned(parent: GenSpec.Path -> GenSpec.Path, numWorkers: nat, numThreads: nat, numVsizes: nat) {
    forall tasks, g, u, init, s, fd: nat ::
      (Composed(tasks, parent, g, u, init) && Replayed(u, s)
       && u.numWorkers == numWorkers && u.numThreads == numThreads && g.numVsizes == numVsizes) ==>
      OwnedByOne(g.journal, fd, s.log)
  }

  /**
   Every descriptor of every capture is owned by one thread, in journal order, if and only if
   there is one thread per worker or num_vsizes is not a multiple of 1024.
   */
  lemma OwnershipExactly(parent: GenSpec.Path -> GenSpec.Path, numWorkers: nat, numThreads: nat, numVsizes: nat)
    requires DropsLast(parent) && numWorkers >= 1 && numThreads >= 1 && numVsizes >= 1
    ensures AlwaysOwned(parent, numWorkers, numThreads, numVsizes) <==> numThreads == 1 || numVsizes % 1024 != 0
  {
    hide Composed, Replayed, OwnedByOne, DropsLast;
    if numThreads == 1 || numVsizes % 1024 != 0 {
      forall tasks, g, u, init, s, fd: nat
        | Composed(tasks, parent, g, u, init) && Replayed(u, s)
          && u.numWorkers == numWorkers && u.numThreads == numThreads && g.numVsizes == numVsizes
        ensures OwnedByOne(g.journal, fd, s.log)
      {
        EveryDescriptorOwned(tasks, parent, g, u, init, fd);
        DescriptorOwnership(tasks, parent, g, u, init, s, fd);
      }
    } else {
      var g, u, s := OwnershipLost(parent, numVsizes, numWorkers, numThreads);
      assert !OwnedByOne(g.journal, FD, s.log);
    }
  }

  /** In particular with dirname(), which init_parent_dir calls. */
  lemma OwnershipUnderDirname(numWorkers: nat, numThreads: nat, numVsizes: nat)
    requires numWorkers >= 1 && numThreads >= 1 && numVsizes >= 1
    ensures AlwaysOwned(DirnameOf(), numWorkers, numThreads, numVsizes) <==> numThreads == 1 || numVsizes % 1024 != 0
  {
    hide AlwaysOwned, DropsLast;
    DirnameDropsLast();
    OwnershipExactly(DirnameOf(), numWorkers, numThreads, numVsizes);
  }
}
