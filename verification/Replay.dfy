/**
 The whole replay: several workers over one journal file, each with its own threads, and one
 map of open descriptors shared by all of them (replay/replay.c, replay/rioop.c). Composed
 with the generator this gives the per-descriptor ownership that rioop_close relies on.
 */
module Replay {
  import opened Seqs
  import AMap
  import opened Scheduler
  import opened SchedulerInv
  import opened SchedulerOrder
  import GenSpec
  import GenProof

  // ---------------------------------------------------------------- several workers

  datatype Setup = Setup(lines: seq<Line>, numWorkers: nat, numThreads: nat, numVsizes: int)

  predicate ValidSetup(u: Setup) {
    u.numWorkers >= 1 && u.numThreads >= 1 && AMap.Capacity(u.numVsizes) >= 1
  }

  function ConfigOf(u: Setup, w: nat): Config { Config(u.lines, u.numWorkers, w, u.numThreads, u.numVsizes) }

  /** One worker, or one of its threads, makes a move. */
  datatype Move = Move(worker: nat, actor: Actor)

  /** Journal line `line` was run by this thread of this worker. */
  datatype Ran = Ran(worker: nat, thread: nat, line: nat)

  /** `log` is history: every operation that was run, by whichever worker, in the order of running. */
  datatype System = System(workers: seq<State>, log: seq<Ran>)

  function Tag(w: nat): Exec -> Ran { (e: Exec) => Ran(w, e.thread, e.line) }

  function ByWorker(w: nat): Ran -> bool { (r: Ran) => r.worker == w }

  function RanLine(): Ran -> nat { (r: Ran) => r.line }

  function InitSystem(u: Setup): System { System(seq(u.numWorkers, i => Init()), []) }

  /** Every worker's own indices are in range. */
  ghost predicate Ready(u: Setup, s: System) {
    |s.workers| == u.numWorkers && forall w :: 0 <= w < u.numWorkers ==> Shape(ConfigOf(u, w), s.workers[w])
  }

  /** The move is made by its worker alone; what it runs is logged. */
  ghost function SystemStep(u: Setup, s: System, m: Move): (s': System)
    requires ValidSetup(u) && Ready(u, s)
  {
    if m.worker >= u.numWorkers then s
    else
      var c, before := ConfigOf(u, m.worker), s.workers[m.worker];
      var after := Step(c, before, m.actor);
      ExecutedGrows(c, before, m.actor);
      System(s.workers[m.worker := after], s.log + Map(after.executed[|before.executed|..], Tag(m.worker)))
  }

  ghost predicate Makes(u: Setup, s: System, m: Move, s': System) {
    ValidSetup(u) && Ready(u, s) && s' == SystemStep(u, s, m)
  }

  /** The states that one interleaving of all workers and threads goes through. */
  ghost predicate SystemTrace(u: Setup, schedule: seq<Move>, states: seq<System>) {
    && |states| == |schedule| + 1 && states[0] == InitSystem(u)
    && forall i {:trigger schedule[i]} :: 0 <= i < |schedule| ==> Makes(u, states[i], schedule[i], states[i + 1])
  }

  /** Some interleaving leads to this state of the system. */
  ghost predicate Replayed(u: Setup, s: System) {
    exists schedule, states :: SystemTrace(u, schedule, states) && s == states[|schedule|]
  }

  /** A move runs at most one operation, after those run before. */
  lemma ExecutedGrows(c: Config, s: State, a: Actor)
    requires ValidConfig(c) && Shape(c, s)
    ensures s.executed <= Step(c, s, a).executed && |Step(c, s, a).executed| <= |s.executed| + 1
  {
    match a
    case Worker => WorkerExecutes(c, s);
    case Pthread(t) =>
      if t < |s.threads| {
        ThreadExecutes(c, s, t);
      }
  }

  lemma WorkerExecutes(c: Config, s: State)
    requires ValidConfig(c) && Shape(c, s)
    ensures s.executed <= WorkerStep(c, s).executed && |WorkerStep(c, s).executed| <= |s.executed| + 1
  {
  }

  lemma ThreadExecutes(c: Config, s: State, t: nat)
    requires ValidConfig(c) && Shape(c, s) && t < |s.threads|
    ensures s.executed <= ThreadStep(c, s, t).executed && |ThreadStep(c, s, t).executed| <= |s.executed| + 1
  {
  }

  /** Worker w is in a state it can reach alone, and the log records what it ran. */
  ghost predicate Projects(u: Setup, s: System, w: nat) {
    && w < |s.workers| && Reachable(ConfigOf(u, w), s.workers[w])
    && Filter(s.log, ByWorker(w)) == Map(s.workers[w].executed, Tag(w))
  }

  ghost predicate AllProject(u: Setup, s: System) {
    && |s.workers| == u.numWorkers && (forall w :: 0 <= w < u.numWorkers ==> Projects(u, s, w))
    && (forall r :: r in s.log ==> r.worker < u.numWorkers)
  }

  lemma LogGrows(log: seq<Ran>, before: seq<Exec>, after: seq<Exec>, w: nat)
    requires before <= after && Filter(log, ByWorker(w)) == Map(before, Tag(w))
    ensures Filter(log + Map(after[|before|..], Tag(w)), ByWorker(w)) == Map(after, Tag(w))
  {
    var more := Map(after[|before|..], Tag(w));
    FilterConcat(log, more, ByWorker(w));
    FilterAll(more, ByWorker(w));
    MapConcat(before, after[|before|..], Tag(w));
    assert after == before + after[|before|..];
  }

  lemma OtherLogGrows(log: seq<Ran>, before: seq<Exec>, after: seq<Exec>, mover: nat, w: nat)
    requires before <= after && mover != w
    ensures Filter(log + Map(after[|before|..], Tag(mover)), ByWorker(w)) == Filter(log, ByWorker(w))
  {
    var more := Map(after[|before|..], Tag(mover));
    FilterConcat(log, more, ByWorker(w));
    FilterNone(more, ByWorker(w));
  }

  lemma OthersUntouched(u: Setup, s: System, m: Move, w: nat)
    requires ValidSetup(u) && Ready(u, s) && m.worker < u.numWorkers && w < u.numWorkers && m.worker != w
             && Projects(u, s, w)
    ensures Projects(u, SystemStep(u, s, m), w)
  {
    hide Shape, Step, Reachable, Filter, Map;
    var c, before := ConfigOf(u, m.worker), s.workers[m.worker];
    assert Shape(c, before);
    ExecutedGrows(c, before, m.actor);
    OtherLogGrows(s.log, before.executed, Step(c, before, m.actor).executed, m.worker, w);
  }

  lemma MoverSteps(u: Setup, s: System, m: Move)
    requires ValidSetup(u) && Ready(u, s) && m.worker < u.numWorkers && Projects(u, s, m.worker)
    ensures Projects(u, SystemStep(u, s, m), m.worker)
  {
    hide Shape, Step, Reachable, Filter, Map;
    var c, before := ConfigOf(u, m.worker), s.workers[m.worker];
    assert Shape(c, before);
    StepReachable(c, before, m.actor);
    ExecutedGrows(c, before, m.actor);
    LogGrows(s.log, before.executed, Step(c, before, m.actor).executed, m.worker);
  }

  lemma StepProjects(u: Setup, s: System, m: Move)
    requires ValidSetup(u) && Ready(u, s) && AllProject(u, s)
    ensures AllProject(u, SystemStep(u, s, m))
  {
    hide Shape, Step, Projects;
    if m.worker < u.numWorkers {
      forall w | 0 <= w < u.numWorkers
        ensures Projects(u, SystemStep(u, s, m), w)
      {
        if w == m.worker {
          MoverSteps(u, s, m);
        } else {
          OthersUntouched(u, s, m, w);
        }
      }
    }
  }

  lemma InitProjects(u: Setup)
    requires ValidSetup(u)
    ensures AllProject(u, InitSystem(u))
  {
    hide Reachable;
    forall w | 0 <= w < u.numWorkers
      ensures Reachable(ConfigOf(u, w), Init())
    {
      InitReachable(ConfigOf(u, w));
    }
  }

  lemma {:induction false} TraceProjects(u: Setup, schedule: seq<Move>, states: seq<System>, i: nat)
    requires ValidSetup(u) && SystemTrace(u, schedule, states) && i <= |schedule|
    ensures AllProject(u, states[i])
  {
    hide AllProject, SystemStep, Ready;
    if i == 0 {
      InitProjects(u);
    } else {
      TraceProjects(u, schedule, states, i - 1);
      assert Makes(u, states[i - 1], schedule[i - 1], states[i]);
      StepProjects(u, states[i - 1], schedule[i - 1]);
    }
  }

  /**
   In the system each worker behaves as it can behave alone, and the global log restricted to
   it is what it ran.
   */
  lemma EachWorkerAlone(u: Setup, s: System)
    requires ValidSetup(u) && Replayed(u, s)
    ensures AllProject(u, s)
  {
    hide AllProject, Makes;
    var schedule, states :| SystemTrace(u, schedule, states) && s == states[|schedule|];
    TraceProjects(u, schedule, states, |schedule|);
  }

  // ---------------------------------------------------------------- the journal file

  function EntryOf(): GenSpec.Op -> Line { (op: GenSpec.Op) => Entry(op.id) }

  /** A .replay file: the meta header, the operations, the "#INIT" mark, and whatever the init section holds. */
  function File(ops: seq<GenSpec.Op>, init: seq<Line>): seq<Line> {
    [Comment] + Map(ops, EntryOf()) + [InitMark] + init
  }

  /** The operation on a line of the file. */
  function OpOn(ops: seq<GenSpec.Op>, line: nat): Option<GenSpec.Op> {
    if 1 <= line <= |ops| then Some(ops[line - 1]) else None
  }

  function NamesFd(ops: seq<GenSpec.Op>, fd: nat): nat -> bool {
    (line: nat) => OpOn(ops, line).Some? && GenProof.FdOf(OpOn(ops, line).value.kind) == Some(fd)
  }

  function RanFd(ops: seq<GenSpec.Op>, fd: nat): Ran -> bool { (r: Ran) => NamesFd(ops, fd)(r.line) }

  function ExecFd(ops: seq<GenSpec.Op>, fd: nat): Exec -> bool { (e: Exec) => NamesFd(ops, fd)(e.line) }

  /** The lines of the file, up to line n, that name a virtual descriptor. */
  function FdLines(ops: seq<GenSpec.Op>, fd: nat, n: nat): seq<nat>
    requires n <= |ops|
  {
    if n == 0 then []
    else FdLines(ops, fd, n - 1) + if NamesFd(ops, fd)(n) then [n] else []
  }

  lemma {:induction false} FdLinesAreFdOps(ops: seq<GenSpec.Op>, fd: nat, n: nat)
    requires n <= |ops|
    ensures |FdLines(ops, fd, n)| == |GenProof.FdOps(ops[..n], fd)|
    ensures forall i :: 0 <= i < |FdLines(ops, fd, n)| ==>
              OpOn(ops, FdLines(ops, fd, n)[i]) == Some(GenProof.FdOps(ops[..n], fd)[i])
  {
    hide Filter;
    if n == 0 {
    } else {
      FdLinesAreFdOps(ops, fd, n - 1);
      assert ops[..n] == ops[..n - 1] + [ops[n - 1]];
      FilterSnoc(ops[..n - 1], ops[n - 1], GenProof.Names(fd));
      assert OpOn(ops, n) == Some(ops[n - 1]);
    }
  }

  lemma {:induction false} BodyOfFile(c: Config, ops: seq<GenSpec.Op>, init: seq<Line>, from: nat)
    requires c.lines == File(ops, init) && from <= |ops| + 1
    ensures Body(c, from) == |ops| + 1
    decreases |ops| + 1 - from
  {
    if from <= |ops| {
      BodyOfFile(c, ops, init, from + 1);
    }
  }

  /** A worker that is responsible for every line naming a descriptor accepts exactly those lines of it. */
  lemma {:induction false} AcceptsFdLines(c: Config, ops: seq<GenSpec.Op>, fd: nat, n: nat)
    requires n <= |ops| && n < |c.lines| && c.numWorkers > 0 && !Mine(c, 0)
    requires forall i :: 1 <= i <= n && NamesFd(ops, fd)(i) ==> Mine(c, i)
    ensures Filter(Accepted(c, n + 1), NamesFd(ops, fd)) == FdLines(ops, fd, n)
  {
    hide Accepted, Filter, Mine;
    AcceptOne(c, NamesFd(ops, fd), n);
    if n == 0 {
      AcceptNone(c, NamesFd(ops, fd));
    } else {
      AcceptsFdLines(c, ops, fd, n - 1);
    }
  }

  lemma AcceptNone(c: Config, keep: nat -> bool)
    requires c.numWorkers > 0
    ensures Filter(Accepted(c, 0), keep) == []
  {
  }

  lemma AcceptOne(c: Config, keep: nat -> bool, n: nat)
    requires n < |c.lines| && c.numWorkers > 0 && (keep(n) ==> Mine(c, n))
    ensures Filter(Accepted(c, n + 1), keep) == Filter(Accepted(c, n), keep) + if keep(n) then [n] else []
  {
    assert Accepted(c, n + 1) == Accepted(c, n) + if Mine(c, n) then [n] else [];
    if Mine(c, n) {
      FilterSnoc(Accepted(c, n), n, keep);
    } else {
      assert Accepted(c, n) + [] == Accepted(c, n);
    }
  }

  // ---------------------------------------------------------------- capture to replay

  /** The file is what the generator wrote for some capture, and the map sizes come from its header. */
  ghost predicate Composed(tasks: seq<GenSpec.Task>, parent: GenSpec.Path -> GenSpec.Path, g: GenSpec.GState, u: Setup,
                           init: seq<Line>) {
    && GenProof.Generated(tasks, parent, g) && ValidSetup(u)
    && u.lines == File(g.journal, init) && u.numVsizes == g.numVsizes
  }

  /** The vsize id under which a virtual descriptor is used. */
  function FdId(ops: seq<GenSpec.Op>, fd: nat): nat {
    var named := GenProof.FdOps(ops, fd);
    if named == [] then 0 else named[0].id
  }

  /** Ids for which a worker keeps journal order. */
  predicate KeepsOrder(u: Setup, id: nat) { u.numThreads == 1 || AMap.HasSlot(u.numVsizes, id) }

  lemma OneIdPerFd(ops: seq<GenSpec.Op>, fd: nat, line: nat)
    requires GenProof.WellFormed(ops) && NamesFd(ops, fd)(line)
    ensures ops[line - 1].id == FdId(ops, fd)
  {
    assert GenProof.Lifecycle(GenProof.FdOps(ops, fd));
    assert ops[line - 1] in GenProof.FdOps(ops, fd);
  }

  lemma IdOnLine(c: Config, ops: seq<GenSpec.Op>, init: seq<Line>, line: nat)
    requires c.lines == File(ops, init) && OpOn(ops, line).Some?
    ensures line < |c.lines| && c.lines[line] == Entry(ops[line - 1].id) && Id(c, line) == ops[line - 1].id
  {
  }

  /** What a worker has run of a descriptor's lines is a prefix of what it has dispatched of them. */
  lemma RunFdPrefix(c: Config, s: State, ops: seq<GenSpec.Op>, init: seq<Line>, fd: nat)
    requires ValidConfig(c) && Inv(c, s) && c.lines == File(ops, init) && GenProof.WellFormed(ops)
    requires Ordered(c, FdId(ops, fd))
    ensures Filter(s.executed, ExecFd(ops, fd)) <= Filter(s.dispatched, ExecFd(ops, fd))
  {
    var id := FdId(ops, fd);
    var p, q := OpHasId(c, id), ExecFd(ops, fd);
    forall e: Exec | q(e)
      ensures p(e)
    {
      OneIdPerFd(ops, fd, e.line);
      IdOnLine(c, ops, init, e.line);
    }
    ExecutedPrefixOfDispatched(c, s, id);
    FilterTwice(s.executed, p, q);
    FilterTwice(s.dispatched, p, q);
    FilterPrefix(Filter(s.executed, p), Filter(s.dispatched, p), q);
  }

  lemma OwnFdLines(c: Config, ops: seq<GenSpec.Op>, init: seq<Line>, fd: nat)
    requires ValidConfig(c) && c.lines == File(ops, init) && GenProof.WellFormed(ops)
    requires FdId(ops, fd) % c.numWorkers == c.me
    ensures |ops| + 1 <= |c.lines| && Filter(Accepted(c, |ops| + 1), NamesFd(ops, fd)) == FdLines(ops, fd, |ops|)
  {
    forall i | 1 <= i <= |ops| && NamesFd(ops, fd)(i)
      ensures Mine(c, i)
    {
      OneIdPerFd(ops, fd, i);
      IdOnLine(c, ops, init, i);
    }
    AcceptsFdLines(c, ops, fd, |ops|);
  }

  /** What the responsible worker has dispatched of a descriptor's lines is a prefix of the journal's. */
  lemma DispatchedFdPrefix(c: Config, s: State, ops: seq<GenSpec.Op>, init: seq<Line>, fd: nat)
    requires ValidConfig(c) && Inv(c, s) && c.lines == File(ops, init) && GenProof.WellFormed(ops)
    requires FdId(ops, fd) % c.numWorkers == c.me
    ensures Map(Filter(s.dispatched, ExecFd(ops, fd)), LineOf()) <= FdLines(ops, fd, |ops|)
    ensures s.pos == |ops| + 1 ==> Map(Filter(s.dispatched, ExecFd(ops, fd)), LineOf()) == FdLines(ops, fd, |ops|)
  {
    OwnFdLines(c, ops, init, fd);
    BodyOfFile(c, ops, init, 0);
    FilterMap(s.dispatched, LineOf(), ExecFd(ops, fd), NamesFd(ops, fd));
    assert Dispatch(c, s.pos, s.wpc, s.dispatched);
    AcceptedPrefix(c, s.pos, |ops| + 1);
    FilterPrefix(Accepted(c, s.pos), Accepted(c, |ops| + 1), NamesFd(ops, fd));
  }

  // ---------------------------------------------------------------- the global log

  /** A logged operation was run by its worker, which is responsible for its line. */
  lemma LoggedIsMine(u: Setup, s: System, r: Ran)
    requires ValidSetup(u) && AllProject(u, s) && r in s.log
    ensures r.worker < u.numWorkers && Exec(r.thread, r.line) in s.workers[r.worker].executed
    ensures var c := ConfigOf(u, r.worker); r.line < |c.lines| && Mine(c, r.line)
  {
    hide Reachable;
    assert Projects(u, s, r.worker);
    var c, executed := ConfigOf(u, r.worker), s.workers[r.worker].executed;
    assert r in Filter(s.log, ByWorker(r.worker));
    var i :| 0 <= i < |executed| && Map(executed, Tag(r.worker))[i] == r;
    assert executed[i] == Exec(r.thread, r.line);
    AtMostOnce(c, s.workers[r.worker]);
  }

  lemma FdHasWorker(u: Setup, s: System, ops: seq<GenSpec.Op>, init: seq<Line>, fd: nat, r: Ran)
    requires ValidSetup(u) && AllProject(u, s) && u.lines == File(ops, init) && GenProof.WellFormed(ops)
    requires r in s.log && RanFd(ops, fd)(r)
    ensures r.worker == FdId(ops, fd) % u.numWorkers
  {
    hide AllProject;
    LoggedIsMine(u, s, r);
    OneIdPerFd(ops, fd, r.line);
    IdOnLine(ConfigOf(u, r.worker), ops, init, r.line);
  }

  /** All logged operations on a descriptor come from the one worker its id selects. */
  lemma FdHasOneWorker(u: Setup, s: System, ops: seq<GenSpec.Op>, init: seq<Line>, fd: nat, r: Ran)
    requires ValidSetup(u) && Replayed(u, s) && u.lines == File(ops, init) && GenProof.WellFormed(ops)
    requires r in s.log && RanFd(ops, fd)(r)
    ensures r.worker == FdId(ops, fd) % u.numWorkers
  {
    hide Replayed, AllProject;
    EachWorkerAlone(u, s);
    FdHasWorker(u, s, ops, init, fd, r);
  }

  /** The global log, restricted to a descriptor, is what that worker ran of it. */
  lemma FdLog(u: Setup, s: System, ops: seq<GenSpec.Op>, init: seq<Line>, fd: nat, w: nat)
    requires ValidSetup(u) && AllProject(u, s) && u.lines == File(ops, init) && GenProof.WellFormed(ops)
    requires w == FdId(ops, fd) % u.numWorkers
    ensures w < |s.workers|
            && Filter(s.log, RanFd(ops, fd)) == Map(Filter(s.workers[w].executed, ExecFd(ops, fd)), Tag(w))
  {
    hide Reachable, File, GenProof.WellFormed;
    forall r | r in s.log && RanFd(ops, fd)(r)
      ensures ByWorker(w)(r)
    {
      FdHasWorker(u, s, ops, init, fd, r);
    }
    FilterTwice(s.log, ByWorker(w), RanFd(ops, fd));
    assert Projects(u, s, w);
    FilterMap(s.workers[w].executed, Tag(w), ExecFd(ops, fd), RanFd(ops, fd));
  }

  lemma TaggedLines(es: seq<Exec>, w: nat)
    ensures Map(Map(es, Tag(w)), RanLine()) == Map(es, LineOf())
  {
  }

  /** In the global log the lines of one descriptor are a prefix of the journal's lines for it. */
  lemma FdLogPrefix(u: Setup, s: System, ops: seq<GenSpec.Op>, init: seq<Line>, fd: nat)
    requires ValidSetup(u) && AllProject(u, s) && u.lines == File(ops, init) && GenProof.WellFormed(ops)
    requires KeepsOrder(u, FdId(ops, fd))
    ensures Map(Filter(s.log, RanFd(ops, fd)), RanLine()) <= FdLines(ops, fd, |ops|)
  {
    hide Inv, Filter, File, Reachable, GenProof.WellFormed, FdId;
    var w := FdId(ops, fd) % u.numWorkers;
    var c := ConfigOf(u, w);
    FdLog(u, s, ops, init, fd, w);
    assert Projects(u, s, w);
    var sw := s.workers[w];
    ReachableInv(c, sw);
    TaggedLines(Filter(sw.executed, ExecFd(ops, fd)), w);
    RunFdPrefix(c, sw, ops, init, fd);
    MapPrefix(Filter(sw.executed, ExecFd(ops, fd)), Filter(sw.dispatched, ExecFd(ops, fd)), LineOf());
    DispatchedFdPrefix(c, sw, ops, init, fd);
  }

  /** One thread of one worker runs everything on a descriptor. */
  lemma FdHasOneThread(u: Setup, s: System, ops: seq<GenSpec.Op>, init: seq<Line>, fd: nat, a: Ran, b: Ran)
    requires ValidSetup(u) && AllProject(u, s) && u.lines == File(ops, init) && GenProof.WellFormed(ops)
    requires KeepsOrder(u, FdId(ops, fd))
    requires a in s.log && RanFd(ops, fd)(a) && b in s.log && RanFd(ops, fd)(b)
    ensures a.worker == b.worker && a.thread == b.thread
  {
    hide AllProject, File, GenProof.WellFormed;
    FdHasWorker(u, s, ops, init, fd, a);
    FdHasWorker(u, s, ops, init, fd, b);
    ThreadOfFd(u, s, ops, init, fd, a);
    ThreadOfFd(u, s, ops, init, fd, b);
  }

  lemma ThreadOfFd(u: Setup, s: System, ops: seq<GenSpec.Op>, init: seq<Line>, fd: nat, r: Ran)
    requires ValidSetup(u) && AllProject(u, s) && u.lines == File(ops, init) && GenProof.WellFormed(ops)
    requires KeepsOrder(u, FdId(ops, fd)) && r in s.log && RanFd(ops, fd)(r)
    ensures r.worker < |s.workers|
    ensures var bound := s.workers[r.worker].bound;
            r.thread == if u.numThreads == 1 || FdId(ops, fd) !in bound then 0 else bound[FdId(ops, fd)]
  {
    hide Inv, File, Reachable, GenProof.WellFormed;
    LoggedIsMine(u, s, r);
    var c := ConfigOf(u, r.worker);
    OneIdPerFd(ops, fd, r.line);
    IdOnLine(c, ops, init, r.line);
    assert Projects(u, s, r.worker);
    ReachableInv(c, s.workers[r.worker]);
    ThreadOfId(c, s.workers[r.worker], Exec(r.thread, r.line));
  }

  /** The thread that runs an operation is determined by its id. */
  lemma ThreadOfId(c: Config, s: State, e: Exec)
    requires ValidConfig(c) && Inv(c, s) && e in s.executed && Ordered(c, Id(c, e.line))
    ensures var id := Id(c, e.line); e.thread == if c.numThreads == 1 || id !in s.bound then 0 else s.bound[id]
  {
    if c.numThreads > 1 {
      OneThreadPerId(c, s, e);
    }
  }

  // ---------------------------------------------------------------- the shared map of open descriptors

  /** The journal lines of the log, in the order of running. */
  function Lines(log: seq<Ran>): seq<nat> { Map(log, RanLine()) }

  /**
   How running a line changes fds_map: a successful open of a positive descriptor stores its
   object, here the line that created it, if the map has the slot; close empties the slot.
   `opens` says which calls of open() return a positive descriptor.
   */
  function Effect(fds: map<nat, nat>, ops: seq<GenSpec.Op>, line: nat, numFds: int, opens: nat -> bool): map<nat, nat> {
    match OpOn(ops, line)
    case None => fds
    case Some(op) =>
      match op.kind
      case OpenOp(fd, _) => if fd > 0 && opens(line) && AMap.HasSlot(numFds, fd) then fds[fd := line] else fds
      case CloseOp(fd) => fds - {fd}
      case _ => fds
  }

  function FdsAfter(lines: seq<nat>, ops: seq<GenSpec.Op>, numFds: int, opens: nat -> bool): map<nat, nat> {
    if lines == [] then map[]
    else Effect(FdsAfter(lines[..|lines| - 1], ops, numFds, opens), ops, lines[|lines| - 1], numFds, opens)
  }

  function Slot(fds: map<nat, nat>, fd: nat): Option<nat> { if fd in fds then Some(fds[fd]) else None }

  lemma FdsSnoc(lines: seq<nat>, line: nat, ops: seq<GenSpec.Op>, numFds: int, opens: nat -> bool)
    ensures FdsAfter(lines + [line], ops, numFds, opens)
         == Effect(FdsAfter(lines, ops, numFds, opens), ops, line, numFds, opens)
  {
    assert (lines + [line])[..|lines|] == lines;
  }

  /** A line changes no slot but that of the descriptor it names, and that one without regard to the others. */
  lemma EffectIsLocal(fds: map<nat, nat>, fds': map<nat, nat>, ops: seq<GenSpec.Op>, line: nat, fd: nat, numFds: int,
                      opens: nat -> bool)
    ensures !NamesFd(ops, fd)(line) ==> Slot(Effect(fds, ops, line, numFds, opens), fd) == Slot(fds, fd)
    ensures Slot(fds, fd) == Slot(fds', fd) ==>
              Slot(Effect(fds, ops, line, numFds, opens), fd) == Slot(Effect(fds', ops, line, numFds, opens), fd)
  {
  }

  /** What a slot holds depends only on the operations that name its descriptor. */
  lemma {:induction false} SlotIsLocal(lines: seq<nat>, ops: seq<GenSpec.Op>, fd: nat, numFds: int, opens: nat -> bool)
    ensures Slot(FdsAfter(lines, ops, numFds, opens), fd)
         == Slot(FdsAfter(Filter(lines, NamesFd(ops, fd)), ops, numFds, opens), fd)
    decreases |lines|
  {
    if lines == [] {
    } else {
      var front, last := lines[..|lines| - 1], lines[|lines| - 1];
      assert lines == front + [last];
      SlotIsLocal(front, ops, fd, numFds, opens);
      EffectIsLocal(FdsAfter(front, ops, numFds, opens), FdsAfter(Filter(front, NamesFd(ops, fd)), ops, numFds, opens),
                    ops, last, fd, numFds, opens);
      if NamesFd(ops, fd)(last) {
        FilterSnoc(front, last, NamesFd(ops, fd));
        FdsSnoc(Filter(front, NamesFd(ops, fd)), last, ops, numFds, opens);
      } else {
        FilterDrops(front, last, NamesFd(ops, fd));
      }
    }
  }

  /** The operations of one descriptor run in journal order, each read off its line. */
  ghost predicate InJournalOrder(ops: seq<GenSpec.Op>, fd: nat, lines: seq<nat>) {
    lines <= FdLines(ops, fd, |ops|)
  }

  lemma OnFdLine(ops: seq<GenSpec.Op>, fd: nat, i: nat)
    requires GenProof.WellFormed(ops) && i < |FdLines(ops, fd, |ops|)|
    ensures var op := OpOn(ops, FdLines(ops, fd, |ops|)[i]);
            && op.Some? && GenProof.FdOf(op.value.kind) == Some(fd)
            && (op.value.kind.OpenOp? <==> i == 0)
            && (op.value.kind.CloseOp? ==> i == |FdLines(ops, fd, |ops|)| - 1)
  {
    FdLinesAreFdOps(ops, fd, |ops|);
    assert ops[..|ops|] == ops;
    var named := GenProof.FdOps(ops, fd);
    assert GenProof.Lifecycle(named);
    assert named[i] in named;
  }

  /** Between the open and the close the slot holds what the open put there. */
  lemma {:induction false} SlotDuring(ops: seq<GenSpec.Op>, fd: nat, k: nat, numFds: int, opens: nat -> bool)
    requires GenProof.WellFormed(ops) && 1 <= k < |FdLines(ops, fd, |ops|)| && fd > 0
    ensures var all := FdLines(ops, fd, |ops|);
            Slot(FdsAfter(all[..k], ops, numFds, opens), fd)
              == if opens(all[0]) && AMap.HasSlot(numFds, fd) then Some(all[0]) else None
    decreases k
  {
    var all := FdLines(ops, fd, |ops|);
    OnFdLine(ops, fd, k - 1);
    assert all[..k] == all[..k - 1] + [all[k - 1]];
    FdsSnoc(all[..k - 1], all[k - 1], ops, numFds, opens);
    if k > 1 {
      SlotDuring(ops, fd, k - 1, numFds, opens);
    }
  }

  /** Where a line of the log stands among the lines of its descriptor. */
  lemma PlaceInOrder(lines: seq<nat>, ops: seq<GenSpec.Op>, fd: nat, i: nat)
    requires i < |lines| && NamesFd(ops, fd)(lines[i])
    requires InJournalOrder(ops, fd, Filter(lines, NamesFd(ops, fd)))
    ensures var k, all := |Filter(lines[..i], NamesFd(ops, fd))|, FdLines(ops, fd, |ops|);
            k < |all| && all[k] == lines[i] && Filter(lines[..i], NamesFd(ops, fd)) == all[..k]
  {
    assert lines[..i + 1] == lines[..i] + [lines[i]];
    FilterSnoc(lines[..i], lines[i], NamesFd(ops, fd));
    FilterPrefix(lines[..i + 1], lines, NamesFd(ops, fd));
    NextInPrefix(Filter(lines[..i], NamesFd(ops, fd)), lines[i], Filter(lines, NamesFd(ops, fd)),
                 FdLines(ops, fd, |ops|));
  }

  lemma NextInPrefix(front: seq<nat>, x: nat, some: seq<nat>, all: seq<nat>)
    requires front + [x] <= some <= all
    ensures |front| < |all| && all[|front|] == x && front == all[..|front|]
  {
    assert (front + [x])[|front|] == x;
  }

  /**
   What an operation finds in its slot, whenever it is run: an open finds it empty; a use or
   a close finds exactly what the one open of its descriptor left there.
   */
  lemma SlotSeen(lines: seq<nat>, ops: seq<GenSpec.Op>, fd: nat, i: nat, numFds: int, opens: nat -> bool)
    requires GenProof.WellFormed(ops) && fd > 0 && i < |lines| && NamesFd(ops, fd)(lines[i])
    requires InJournalOrder(ops, fd, Filter(lines, NamesFd(ops, fd)))
    ensures var slot, first := Slot(FdsAfter(lines[..i], ops, numFds, opens), fd), FdLines(ops, fd, |ops|)[0];
            slot == if OpOn(ops, lines[i]).value.kind.OpenOp? then None
                    else if opens(first) && AMap.HasSlot(numFds, fd) then Some(first) else None
  {
    PlaceInOrder(lines, ops, fd, i);
    var k := |Filter(lines[..i], NamesFd(ops, fd))|;
    OnFdLine(ops, fd, k);
    SlotIsLocal(lines[..i], ops, fd, numFds, opens);
    if k > 0 {
      SlotDuring(ops, fd, k, numFds, opens);
    }
  }

  predicate Closes(ops: seq<GenSpec.Op>, line: nat) { OpOn(ops, line).Some? && OpOn(ops, line).value.kind.CloseOp? }

  /** Some of these lines is the open of the descriptor, or its close. */
  ghost predicate WasOpened(ops: seq<GenSpec.Op>, lines: seq<nat>, fd: nat) {
    exists line :: line in lines && NamesFd(ops, fd)(line) && OpOn(ops, line).value.kind.OpenOp?
  }

  ghost predicate WasClosed(ops: seq<GenSpec.Op>, lines: seq<nat>, fd: nat) {
    exists line :: line in lines && NamesFd(ops, fd)(line) && Closes(ops, line)
  }

  lemma OpenedAndClosed(lines: seq<nat>, ops: seq<GenSpec.Op>, fd: nat, k: nat)
    requires GenProof.WellFormed(ops) && k <= |FdLines(ops, fd, |ops|)|
    requires Filter(lines, NamesFd(ops, fd)) == FdLines(ops, fd, |ops|)[..k]
    ensures WasOpened(ops, lines, fd) <==> k > 0
    ensures var all := FdLines(ops, fd, |ops|);
            WasClosed(ops, lines, fd) <==> k > 0 && k == |all| && Closes(ops, all[k - 1])
  {
    hide GenProof.WellFormed, FdLines;
    var all, own := FdLines(ops, fd, |ops|), Filter(lines, NamesFd(ops, fd));
    if k > 0 {
      OnFdLine(ops, fd, 0);
      assert own[0] == all[0] && own[0] in own && own[k - 1] in own;
    }
    if WasClosed(ops, lines, fd) {
      var line :| line in lines && NamesFd(ops, fd)(line) && Closes(ops, line);
      assert line in own;
      var j :| 0 <= j < k && own[j] == line;
      OnFdLine(ops, fd, j);
    }
  }

  /** After the close the slot is empty. */
  lemma SlotAtTheEnd(ops: seq<GenSpec.Op>, fd: nat, numFds: int, opens: nat -> bool)
    requires GenProof.WellFormed(ops) && FdLines(ops, fd, |ops|) != [] && fd > 0
    ensures var all := FdLines(ops, fd, |ops|);
            Slot(FdsAfter(all, ops, numFds, opens), fd)
              == if Closes(ops, all[|all| - 1]) then None
                 else if opens(all[0]) && AMap.HasSlot(numFds, fd) then Some(all[0]) else None
  {
    var all := FdLines(ops, fd, |ops|);
    var k := |all| - 1;
    OnFdLine(ops, fd, k);
    assert all == all[..k] + [all[k]];
    FdsSnoc(all[..k], all[k], ops, numFds, opens);
    if k > 0 {
      SlotDuring(ops, fd, k, numFds, opens);
    }
  }

  /** The slot of a descriptor after these lines: full from a successful open to the close, and only then. */
  lemma SlotAfter(lines: seq<nat>, ops: seq<GenSpec.Op>, fd: nat, numFds: int, opens: nat -> bool)
    requires GenProof.WellFormed(ops) && (FdLines(ops, fd, |ops|) != [] ==> fd > 0)
    requires InJournalOrder(ops, fd, Filter(lines, NamesFd(ops, fd)))
    ensures var all := FdLines(ops, fd, |ops|);
            Slot(FdsAfter(lines, ops, numFds, opens), fd)
              == if WasOpened(ops, lines, fd) && !WasClosed(ops, lines, fd) && all != [] && opens(all[0])
                    && AMap.HasSlot(numFds, fd) then Some(all[0]) else None
  {
    hide GenProof.WellFormed, FdsAfter, FdLines, WasOpened, WasClosed;
    var all, own := FdLines(ops, fd, |ops|), Filter(lines, NamesFd(ops, fd));
    var k := |own|;
    assert own == all[..k];
    OpenedAndClosed(lines, ops, fd, k);
    SlotIsLocal(lines, ops, fd, numFds, opens);
    if k == 0 {
      assert FdsAfter([], ops, numFds, opens) == map[] by { NothingRun(ops, numFds, opens); }
    } else if k < |all| {
      SlotDuring(ops, fd, k, numFds, opens);
    } else {
      assert all[..k] == all;
      SlotAtTheEnd(ops, fd, numFds, opens);
    }
  }

  lemma NothingRun(ops: seq<GenSpec.Op>, numFds: int, opens: nat -> bool)
    ensures FdsAfter([], ops, numFds, opens) == map[]
  {
  }

  // ---------------------------------------------------------------- end to end

  /** The operations run on one virtual descriptor are a prefix of the journal's operations on it, in journal order. */
  lemma DescriptorOrder(tasks: seq<GenSpec.Task>, parent: GenSpec.Path -> GenSpec.Path, g: GenSpec.GState,
                        u: Setup, init: seq<Line>, s: System, fd: nat)
    requires Composed(tasks, parent, g, u, init) && Replayed(u, s) && KeepsOrder(u, FdId(g.journal, fd))
    ensures InJournalOrder(g.journal, fd, Filter(Lines(s.log), NamesFd(g.journal, fd)))
  {
    hide GenProof.Inv, GenProof.WellFormed, GenProof.Generated, Replayed, AllProject, KeepsOrder, File, Filter;
    WellFormedJournal(tasks, parent, g);
    EachWorkerAlone(u, s);
    FdLogPrefix(u, s, g.journal, init, fd);
    FilterMap(s.log, RanLine(), RanFd(g.journal, fd), NamesFd(g.journal, fd));
  }

  /** They are all run by one thread of one worker. */
  lemma DescriptorThread(tasks: seq<GenSpec.Task>, parent: GenSpec.Path -> GenSpec.Path, g: GenSpec.GState,
                         u: Setup, init: seq<Line>, s: System, fd: nat)
    requires Composed(tasks, parent, g, u, init) && Replayed(u, s) && KeepsOrder(u, FdId(g.journal, fd))
    ensures forall a, b :: a in s.log && b in s.log && RanFd(g.journal, fd)(a) && RanFd(g.journal, fd)(b) ==>
              a.worker == b.worker && a.thread == b.thread
  {
    hide GenProof.Inv, GenProof.WellFormed, GenProof.Generated, Replayed, AllProject, KeepsOrder, File, Filter;
    WellFormedJournal(tasks, parent, g);
    EachWorkerAlone(u, s);
    forall a, b | a in s.log && b in s.log && RanFd(g.journal, fd)(a) && RanFd(g.journal, fd)(b)
      ensures a.worker == b.worker && a.thread == b.thread
    {
      FdHasOneThread(u, s, g.journal, init, fd, a, b);
    }
  }

  /**
   The operations on a descriptor that were run are a prefix of the journal's, all run by one
   thread of one worker.
   */
  ghost predicate OwnedByOne(ops: seq<GenSpec.Op>, fd: nat, log: seq<Ran>) {
    && InJournalOrder(ops, fd, Filter(Lines(log), NamesFd(ops, fd)))
    && forall a, b :: a in log && b in log && RanFd(ops, fd)(a) && RanFd(ops, fd)(b) ==>
         a.worker == b.worker && a.thread == b.thread
  }

  /**
   Per-descriptor ownership: for any capture, any number of workers and threads and any
   interleaving, the operations on one virtual descriptor that have been run are a prefix of
   the journal's operations on it, all run by one thread of one worker; the journal's begin
   with the only open and end with the close, if there is one.
   */
  lemma DescriptorOwnership(tasks: seq<GenSpec.Task>, parent: GenSpec.Path -> GenSpec.Path, g: GenSpec.GState,
                            u: Setup, init: seq<Line>, s: System, fd: nat)
    requires Composed(tasks, parent, g, u, init) && Replayed(u, s) && KeepsOrder(u, FdId(g.journal, fd))
    ensures OwnedByOne(g.journal, fd, s.log)
    ensures GenProof.Lifecycle(GenProof.FdOps(g.journal, fd))
  {
    hide GenProof.Generated, Replayed, KeepsOrder, File, Filter, InJournalOrder;
    DescriptorOrder(tasks, parent, g, u, init, s, fd);
    DescriptorThread(tasks, parent, g, u, init, s, fd);
    GenProof.JournalWellFormed(tasks, parent, g, fd);
  }

  lemma WellFormedJournal(tasks: seq<GenSpec.Task>, parent: GenSpec.Path -> GenSpec.Path, g: GenSpec.GState)
    requires GenProof.Generated(tasks, parent, g)
    ensures GenProof.WellFormed(g.journal)
  {
    hide GenProof.Generated;
    GenProof.GeneratedGood(tasks, parent, g);
  }

  /**
   The slot of fds_map: when the i-th operation of the replay is on descriptor fd, an open
   finds its slot empty, and a use or a close finds the object of the one open of fd, unless
   that open failed or the map is too small for fd.
   */
  lemma DescriptorSlot(tasks: seq<GenSpec.Task>, parent: GenSpec.Path -> GenSpec.Path, g: GenSpec.GState,
                       u: Setup, init: seq<Line>, s: System, fd: nat, i: nat, opens: nat -> bool)
    requires Composed(tasks, parent, g, u, init) && Replayed(u, s) && KeepsOrder(u, FdId(g.journal, fd))
    requires i < |s.log| && NamesFd(g.journal, fd)(s.log[i].line)
    ensures FdLines(g.journal, fd, |g.journal|) != []
    ensures var lines, first := Lines(s.log), FdLines(g.journal, fd, |g.journal|)[0];
            Slot(FdsAfter(lines[..i], g.journal, g.numFds, opens), fd)
              == if OpOn(g.journal, lines[i]).value.kind.OpenOp? then None
                 else if opens(first) && AMap.HasSlot(g.numFds, fd) then Some(first) else None
  {
    hide GenProof.Inv, GenProof.Generated, Replayed, KeepsOrder, File, Filter, FdsAfter;
    DescriptorOrder(tasks, parent, g, u, init, s, fd);
    WellFormedJournal(tasks, parent, g);
    var lines := Lines(s.log);
    PlaceInOrder(lines, g.journal, fd, i);
    FdNumber(tasks, parent, g, fd, lines[i]);
    SlotSeen(lines, g.journal, fd, i, g.numFds, opens);
  }

  /**
   At every moment of the replay the slot of a descriptor is full exactly from its open, if that
   succeeded and the map has the slot, to its close; after the close it stays empty.
   */
  lemma SlotAlways(tasks: seq<GenSpec.Task>, parent: GenSpec.Path -> GenSpec.Path, g: GenSpec.GState,
                   u: Setup, init: seq<Line>, s: System, fd: nat, i: nat, opens: nat -> bool)
    requires Composed(tasks, parent, g, u, init) && Replayed(u, s) && KeepsOrder(u, FdId(g.journal, fd))
    requires i <= |s.log|
    ensures var lines, all := Lines(s.log)[..i], FdLines(g.journal, fd, |g.journal|);
            Slot(FdsAfter(lines, g.journal, g.numFds, opens), fd)
              == if WasOpened(g.journal, lines, fd) && !WasClosed(g.journal, lines, fd) && all != [] && opens(all[0])
                    && AMap.HasSlot(g.numFds, fd) then Some(all[0]) else None
  {
    hide GenProof.Inv, GenProof.Generated, Replayed, KeepsOrder, File, Filter, FdsAfter, FdLines, WasOpened, WasClosed;
    DescriptorOrder(tasks, parent, g, u, init, s, fd);
    WellFormedJournal(tasks, parent, g);
    var lines := Lines(s.log);
    FilterPrefix(lines[..i], lines, NamesFd(g.journal, fd));
    if FdLines(g.journal, fd, |g.journal|) != [] {
      UsedIsPositive(tasks, parent, g, fd);
    }
    SlotAfter(lines[..i], g.journal, fd, g.numFds, opens);
  }

  lemma UsedIsPositive(tasks: seq<GenSpec.Task>, parent: GenSpec.Path -> GenSpec.Path, g: GenSpec.GState, fd: nat)
    requires GenProof.Generated(tasks, parent, g) && FdLines(g.journal, fd, |g.journal|) != []
    ensures fd > 0
  {
    WellFormedJournal(tasks, parent, g);
    OnFdLine(g.journal, fd, 0);
    FdNumber(tasks, parent, g, fd, FdLines(g.journal, fd, |g.journal|)[0]);
  }

  lemma FdNumber(tasks: seq<GenSpec.Task>, parent: GenSpec.Path -> GenSpec.Path, g: GenSpec.GState, fd: nat, line: nat)
    requires GenProof.Generated(tasks, parent, g) && NamesFd(g.journal, fd)(line)
    ensures fd > GenSpec.FIRST_FD
  {
    GenProof.JournalWellFormed(tasks, parent, g, fd);
    assert g.journal[line - 1] in GenProof.FdOps(g.journal, fd);
  }

  /**
   With one thread per worker, or unless num_vsizes is a multiple of 1024, ownership needs no
   condition on the descriptor.
   */
  lemma EveryDescriptorOwned(tasks: seq<GenSpec.Task>, parent: GenSpec.Path -> GenSpec.Path, g: GenSpec.GState,
                             u: Setup, init: seq<Line>, fd: nat)
    requires Composed(tasks, parent, g, u, init) && (u.numThreads == 1 || g.numVsizes % 1024 != 0)
    ensures KeepsOrder(u, FdId(g.journal, fd))
  {
    GenProof.OnePathOneId(tasks, parent, g);
    var named := GenProof.FdOps(g.journal, fd);
    if named != [] {
      assert named[0] in g.journal;
    }
    if g.numVsizes % 1024 != 0 {
      AMap.EveryIdHasASlot(g.numVsizes);
    }
  }

  // ---------------------------------------------------------------- completion

  /** A prefix with the same multiplicities is the whole. */
  lemma PrefixIsWhole(a: seq<Exec>, b: seq<Exec>)
    requires a <= b && multiset(a) == multiset(b)
    ensures a == b
  {
    assert |multiset(a)| == |a| && |multiset(b)| == |b|;
  }

  lemma FilteredMultiset(a: seq<Exec>, b: seq<Exec>, keep: Exec -> bool)
    requires multiset(a) == multiset(b)
    ensures multiset(Filter(a, keep)) == multiset(Filter(b, keep))
  {
    forall e: Exec
      ensures multiset(Filter(a, keep))[e] == multiset(Filter(b, keep))[e]
    {
      if keep(e) {
        FilterMultiset(a, keep, e);
        FilterMultiset(b, keep, e);
      } else {
        assert e !in Filter(a, keep) && e !in Filter(b, keep);
      }
    }
  }

  /**
   When the responsible worker has finished, every journal operation on the descriptor has been
   run, in journal order.
   */
  lemma DescriptorComplete(tasks: seq<GenSpec.Task>, parent: GenSpec.Path -> GenSpec.Path, g: GenSpec.GState,
                           u: Setup, init: seq<Line>, s: System, fd: nat, w: nat)
    requires Composed(tasks, parent, g, u, init) && Replayed(u, s) && KeepsOrder(u, FdId(g.journal, fd))
    requires w == FdId(g.journal, fd) % u.numWorkers && w < |s.workers| && s.workers[w].wpc.Finished?
    ensures Filter(Lines(s.log), NamesFd(g.journal, fd)) == FdLines(g.journal, fd, |g.journal|)
  {
    hide GenProof.Inv, GenProof.WellFormed, GenProof.Generated, Replayed, Reachable, File, Filter, FdId;
    WellFormedJournal(tasks, parent, g);
    EachWorkerAlone(u, s);
    var ops := g.journal;
    assert Projects(u, s, w);
    FinishedFd(ConfigOf(u, w), s.workers[w], ops, init, fd);
    FdLog(u, s, ops, init, fd, w);
    FilterMap(s.log, RanLine(), RanFd(ops, fd), NamesFd(ops, fd));
    TaggedLines(Filter(s.workers[w].executed, ExecFd(ops, fd)), w);
  }

  lemma FinishedFd(c: Config, s: State, ops: seq<GenSpec.Op>, init: seq<Line>, fd: nat)
    requires ValidConfig(c) && Reachable(c, s) && s.wpc.Finished?
    requires c.lines == File(ops, init) && GenProof.WellFormed(ops)
    requires FdId(ops, fd) % c.numWorkers == c.me && Ordered(c, FdId(ops, fd))
    ensures Map(Filter(s.executed, ExecFd(ops, fd)), LineOf()) == FdLines(ops, fd, |ops|)
  {
    hide Reachable, File, Filter, Tasks, Live, Bound, HandBound, Shape, GenProof.WellFormed, FdId;
    ReachableInv(c, s);
    ExactlyOnce(c, s);
    assert s.pos == Body(c, 0);
    BodyOfFile(c, ops, init, 0);
    RunFdPrefix(c, s, ops, init, fd);
    DispatchedFdPrefix(c, s, ops, init, fd);
    FilteredMultiset(s.executed, s.dispatched, ExecFd(ops, fd));
    PrefixIsWhole(Filter(s.executed, ExecFd(ops, fd)), Filter(s.dispatched, ExecFd(ops, fd)));
  }
}
