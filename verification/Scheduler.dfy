/**
 One replay worker of replay/rworker.c with the threads of replay/rthread.c, as a transition
 system. Every move is one access to shared state; the rings appear as the bounded queues
 that module RingSpsc shows them to be, and the two mutexes as lock fields. An interleaving
 is a sequence of actors.
 */
module Scheduler {
  import opened Seqs
  import AMap

  const TASK_BUFFER_PER_THREAD: nat := 512

  /** What the worker sees of a journal line: a comment, the "#INIT" mark, or an operation on a vsize id. */
  datatype Line = Comment | InitMark | Entry(id: nat)

  datatype Config = Config(lines: seq<Line>, numWorkers: nat, me: nat, numThreads: nat, numVsizes: int)

  ghost predicate ValidConfig(c: Config) {
    c.me < c.numWorkers && c.numThreads >= 1 && AMap.Capacity(c.numVsizes) >= 1
  }

  /** Operation `line` was handed to, or run by, thread `thread`. */
  datatype Exec = Exec(thread: nat, line: nat)

  datatype ThreadPc =
    | WaitHas | WaitTerm                       // while (!has_next && !terminate)
    | Drain                                    // while ((task = get_next) != NULL)
    | Run(task: nat, last: bool)               // rioop_run
    | RecycleLock(task: nat, last: bool) | RecyclePut(task: nat, last: bool)
    | ParkTerm | ParkHas1 | ParkHas2 | ParkLock | ParkHas3 | ParkPut
    | OuterCheck                               // while (!terminate)
    | FinalDrain | Done

  datatype Thread = Thread(queue: seq<nat>, pc: ThreadPc, terminate: bool)

  datatype WorkerPc =
    | Read | Lookup | PopIdle | WaitIdle
    | Bind(t: nat) | TakeTask(t: nat) | Update(t: nat, task: nat) | Insert(t: nat, task: nat)
    | Terminate | Join(t: nat) | Destroy(t: nat)
    | Finished
    | TasksLeft                                // "Didn't expect to have any tasks left!"

  /** Where a task object is. */
  datatype Place = Hand | Queued(t: nat) | With(t: nat) | Reusable | Freed

  /**
   `store[k]` is the journal line written into task object k. `owner`, `dispatched` and
   `executed` are history: they record what happened and no step reads them.
   */
  datatype State = State(
    pos: nat, wpc: WorkerPc, threads: seq<Thread>, remaining: nat,
    bound: map<nat, nat>, idle: seq<nat>, reuse: seq<nat>, store: seq<nat>,
    parkLock: Option<nat>, taskLock: Option<nat>,
    owner: seq<Place>, dispatched: seq<Exec>, executed: seq<Exec>)

  datatype Actor = Worker | Pthread(t: nat)

  function Init(): State {
    State(0, Read, [], 0, map[], [], [], [], None, None, [], [], [])
  }

  // ---------------------------------------------------------------- journal

  predicate Mine(c: Config, i: nat)
    requires i < |c.lines| && c.numWorkers > 0
  {
    c.lines[i].Entry? && c.lines[i].id % c.numWorkers == c.me
  }

  function Id(c: Config, i: nat): nat {
    if i < |c.lines| && c.lines[i].Entry? then c.lines[i].id else 0
  }

  /** rthread_map can store this id. */
  predicate HasSlot(c: Config, id: nat) { AMap.HasSlot(c.numVsizes, id) }

  /** The lines before the first "#INIT" mark at or after `from`. */
  function Body(c: Config, from: nat): (n: nat)
    requires from <= |c.lines|
    ensures from <= n <= |c.lines|
    ensures n < |c.lines| ==> c.lines[n].InitMark?
    ensures forall i :: from <= i < n ==> !c.lines[i].InitMark?
    decreases |c.lines| - from
  {
    if from == |c.lines| || c.lines[from].InitMark? then from else Body(c, from + 1)
  }

  /** The lines among the first n that this worker is responsible for. */
  function Accepted(c: Config, n: nat): (r: seq<nat>)
    requires n <= |c.lines| && c.numWorkers > 0
    ensures forall i :: i in r ==> i < n && Mine(c, i)
    ensures forall i :: 0 <= i < n && Mine(c, i) ==> i in r
    ensures forall i, j :: 0 <= i < j < |r| ==> r[i] < r[j]
  {
    if n == 0 then []
    else
      var front := Accepted(c, n - 1);
      assert forall i :: 0 <= i < |front| ==> front[i] in front;
      front + if Mine(c, n - 1) then [n - 1] else []
  }

  // ---------------------------------------------------------------- steps

  function Reuse(c: Config, s: State, task: nat): State
    requires task < |s.owner|
  {
    if |s.reuse| < c.numThreads * TASK_BUFFER_PER_THREAD - 1
    then s.(reuse := s.reuse + [task], owner := s.owner[task := Reusable])
    else s.(owner := s.owner[task := Freed])
  }

  function Content(s: State, task: nat): nat {
    if task < |s.store| then s.store[task] else 0
  }

  predicate Choosing(w: WorkerPc) { w.Read? || w.Lookup? || w.PopIdle? || w.WaitIdle? || w.Bind? }

  predicate Handing(w: WorkerPc) { w.TakeTask? || w.Update? || w.Insert? }

  /** Reading a line and choosing the thread that will run it. */
  function ChooseStep(c: Config, s: State): State
    requires ValidConfig(c) && Shape(c, s) && Choosing(s.wpc)
  {
    match s.wpc
    case Read =>
      if s.pos == |c.lines| || c.lines[s.pos].InitMark? then s.(wpc := Terminate)
      else if !Mine(c, s.pos) then s.(pos := s.pos + 1)
      else s.(wpc := Lookup)
    case Lookup =>
      var id := Id(c, s.pos);
      if c.numThreads == 1 then s.(wpc := TakeTask(0))
      else if id in s.bound then s.(wpc := TakeTask(s.bound[id]))
      else s.(wpc := PopIdle)
    case PopIdle =>
      if s.idle != [] then s.(idle := s.idle[1..], wpc := Bind(s.idle[0]))
      else if c.numThreads <= s.remaining then s.(wpc := WaitIdle)
      else s.(threads := s.threads + [Thread([], WaitHas, false)],
              remaining := s.remaining + 1, wpc := Bind(|s.threads|))
    case WaitIdle =>
      if s.idle != [] then s.(idle := s.idle[1..], wpc := Bind(s.idle[0])) else s
    case Bind(t) =>
      var id := Id(c, s.pos);
      s.(bound := if HasSlot(c, id) then s.bound[id := t] else s.bound, wpc := TakeTask(t))
  }

  /** Filling a task object and inserting it into the thread's queue, or running it inline. */
  function HandStep(c: Config, s: State): State
    requires ValidConfig(c) && Shape(c, s) && Handing(s.wpc)
  {
    match s.wpc
    case TakeTask(t) =>
      if s.reuse != []
      then s.(reuse := s.reuse[1..], owner := s.owner[s.reuse[0] := Hand], wpc := Update(t, s.reuse[0]))
      else s.(store := s.store + [0], owner := s.owner + [Hand], wpc := Update(t, |s.owner|))
    case Update(t, task) =>
      s.(store := s.store[task := s.pos], wpc := Insert(t, task))
    case Insert(t, task) =>
      if c.numThreads == 1 then
        Reuse(c, s.(executed := s.executed + [Exec(0, Content(s, task))],
                    dispatched := s.dispatched + [Exec(0, s.pos)], pos := s.pos + 1, wpc := Read), task)
      else if |s.threads[t].queue| < TASK_BUFFER_PER_THREAD - 1 then
        s.(threads := s.threads[t := s.threads[t].(queue := s.threads[t].queue + [task])],
           owner := s.owner[task := Queued(t)], dispatched := s.dispatched + [Exec(t, s.pos)],
           pos := s.pos + 1, wpc := Read)
      else s
  }

  /** Popping all_threads, terminating, joining and destroying one thread after another. */
  function CloseStep(c: Config, s: State): State
    requires ValidConfig(c) && Shape(c, s) && Closing(s.wpc)
  {
    match s.wpc
    case Terminate =>
      if s.remaining == 0 then s.(wpc := Finished)
      else
        var t := s.remaining - 1;
        s.(remaining := t, threads := s.threads[t := s.threads[t].(terminate := true)], wpc := Join(t))
    case Join(t) => if s.threads[t].pc.Done? then s.(wpc := Destroy(t)) else s
    case Destroy(t) => if s.threads[t].queue != [] then s.(wpc := TasksLeft) else s.(wpc := Terminate)
    case Finished => s
    case TasksLeft => s
  }

  function WorkerStep(c: Config, s: State): State
    requires ValidConfig(c) && Shape(c, s)
  {
    if Choosing(s.wpc) then ChooseStep(c, s) else if Handing(s.wpc) then HandStep(c, s) else CloseStep(c, s)
  }

  function Goto(s: State, t: nat, pc: ThreadPc): State
    requires t < |s.threads|
  {
    s.(threads := s.threads[t := s.threads[t].(pc := pc)])
  }

  /** rbuffer_get_next on the thread's own queue, which holds something. */
  function Take(s: State, t: nat, last: bool): State
    requires t < |s.threads| && s.threads[t].queue != [] && s.threads[t].queue[0] < |s.owner|
  {
    var task := s.threads[t].queue[0];
    s.(threads := s.threads[t := s.threads[t].(queue := s.threads[t].queue[1..], pc := Run(task, last))],
       owner := s.owner[task := With(t)])
  }

  predicate Looping(pc: ThreadPc) { pc.WaitHas? || pc.WaitTerm? || pc.OuterCheck? || pc.Done? }

  predicate Working(pc: ThreadPc) {
    pc.Drain? || pc.FinalDrain? || pc.Run? || pc.RecycleLock? || pc.RecyclePut?
  }

  predicate Parking(pc: ThreadPc) {
    pc.ParkTerm? || pc.ParkHas1? || pc.ParkHas2? || pc.ParkLock? || pc.ParkHas3? || pc.ParkPut?
  }

  /** The waiting loop and the condition of the outer loop. */
  function LoopStep(c: Config, s: State, t: nat): State
    requires ValidConfig(c) && Shape(c, s) && t < |s.threads| && Looping(s.threads[t].pc)
  {
    var th := s.threads[t];
    match th.pc
    case WaitHas => Goto(s, t, if th.queue != [] then Drain else WaitTerm)
    case WaitTerm => Goto(s, t, if th.terminate then Drain else WaitHas)
    case OuterCheck => Goto(s, t, if th.terminate then FinalDrain else WaitHas)
    case Done => s
  }

  /** Draining the queue: run a task, then put its object into the reuse ring under the mutex. */
  function WorkStep(c: Config, s: State, t: nat): State
    requires ValidConfig(c) && Shape(c, s) && t < |s.threads| && Working(s.threads[t].pc)
  {
    var th := s.threads[t];
    assert ThreadRange(th, |s.owner|);
    match th.pc
    case Drain => if th.queue == [] then Goto(s, t, ParkTerm) else Take(s, t, false)
    case FinalDrain => if th.queue == [] then Goto(s, t, Done) else Take(s, t, true)
    case Run(task, last) =>
      Goto(s, t, RecycleLock(task, last)).(executed := s.executed + [Exec(t, Content(s, task))])
    case RecycleLock(task, last) =>
      if s.taskLock.None? then Goto(s, t, RecyclePut(task, last)).(taskLock := Some(t)) else s
    case RecyclePut(task, last) =>
      Reuse(c, Goto(s, t, if last then FinalDrain else Drain).(taskLock := None), task)
  }

  /** Telling the worker that the thread is idle, unless a task arrives first. */
  function ParkStep(c: Config, s: State, t: nat): State
    requires ValidConfig(c) && Shape(c, s) && t < |s.threads| && Parking(s.threads[t].pc)
  {
    var th := s.threads[t];
    match th.pc
    case ParkTerm => Goto(s, t, if th.terminate then OuterCheck else ParkHas1)
    case ParkHas1 => Goto(s, t, if th.queue != [] then OuterCheck else ParkHas2)
    case ParkHas2 => Goto(s, t, if th.queue != [] then OuterCheck else ParkLock)
    case ParkLock => if s.parkLock.None? then Goto(s, t, ParkHas3).(parkLock := Some(t)) else s
    case ParkHas3 =>
      if th.queue != [] then Goto(s, t, OuterCheck).(parkLock := None) else Goto(s, t, ParkPut)
    case ParkPut =>
      if |s.idle| < c.numThreads - 1
      then Goto(s, t, OuterCheck).(idle := s.idle + [t], parkLock := None)
      else Goto(s, t, ParkTerm).(parkLock := None)
  }

  function ThreadStep(c: Config, s: State, t: nat): State
    requires ValidConfig(c) && Shape(c, s) && t < |s.threads|
  {
    var pc := s.threads[t].pc;
    if Looping(pc) then LoopStep(c, s, t) else if Working(pc) then WorkStep(c, s, t) else ParkStep(c, s, t)
  }

  function Step(c: Config, s: State, a: Actor): State
    requires ValidConfig(c) && Shape(c, s)
  {
    match a
    case Worker => WorkerStep(c, s)
    case Pthread(t) => if t < |s.threads| then ThreadStep(c, s, t) else s
  }

  // ---------------------------------------------------------------- well-formed states

  /** The thread the worker currently serves, between choosing it and handing it a task. */
  function HandThread(w: WorkerPc): Option<nat> {
    match w
    case Bind(t) => Some(t)
    case TakeTask(t) => Some(t)
    case Update(t, _) => Some(t)
    case Insert(t, _) => Some(t)
    case _ => None
  }

  predicate HasTask(pc: ThreadPc) { pc.Run? || pc.RecycleLock? || pc.RecyclePut? }

  /** The worker has read a line it is responsible for and has not dispatched it yet. */
  predicate InLine(w: WorkerPc) { w.Lookup? || w.PopIdle? || w.WaitIdle? || HandThread(w).Some? }

  predicate Closing(w: WorkerPc) { w.Terminate? || w.Join? || w.Destroy? || w.Finished? || w.TasksLeft? }

  /** The worker's own position and the objects it holds are in range. */
  ghost predicate WorkerRange(c: Config, pos: nat, w: WorkerPc, numThreads: nat, numTasks: nat) {
    && c.numWorkers > 0 && pos <= |c.lines|
    && (InLine(w) ==> pos < |c.lines| && Mine(c, pos))
    && (HandThread(w).Some? ==>
          if c.numThreads == 1 then HandThread(w).value == 0 && !w.Bind? else HandThread(w).value < numThreads)
    && (w.Update? || w.Insert? ==> w.task < numTasks)
    && (w.Join? || w.Destroy? ==> w.t < numThreads)
    && (c.numThreads == 1 ==> numThreads == 0 && !w.PopIdle? && !w.WaitIdle?)
  }

  /** all_threads holds every created thread until the worker starts to close. */
  ghost predicate ThreadCount(c: Config, w: WorkerPc, numThreads: nat, remaining: nat) {
    && remaining <= numThreads <= c.numThreads && (!Closing(w) ==> remaining == numThreads)
    && (w.WaitIdle? ==> numThreads == c.numThreads)
  }

  ghost predicate InRange(xs: seq<nat>, bound: nat) { forall i :: 0 <= i < |xs| ==> xs[i] < bound }

  ghost predicate ThreadRange(th: Thread, numTasks: nat) {
    InRange(th.queue, numTasks) && (HasTask(th.pc) ==> th.pc.task < numTasks)
  }

  ghost predicate ThreadsRange(threads: seq<Thread>, numTasks: nat) {
    forall t :: 0 <= t < |threads| ==> ThreadRange(threads[t], numTasks)
  }

  ghost predicate BoundRange(bound: map<nat, nat>, numThreads: nat) {
    forall id :: id in bound ==> bound[id] < numThreads
  }

  /** Indices and positions are in range. */
  ghost predicate Shape(c: Config, s: State) {
    && WorkerRange(c, s.pos, s.wpc, |s.threads|, |s.owner|)
    && ThreadCount(c, s.wpc, |s.threads|, s.remaining)
    && |s.store| == |s.owner|
    && InRange(s.idle, |s.threads|) && InRange(s.reuse, |s.owner|)
    && BoundRange(s.bound, |s.threads|) && ThreadsRange(s.threads, |s.owner|)
  }

  lemma ChooseShape(c: Config, s: State)
    requires ValidConfig(c) && Shape(c, s) && Choosing(s.wpc)
    ensures Shape(c, ChooseStep(c, s))
  {
  }

  lemma HandShape(c: Config, s: State)
    requires ValidConfig(c) && Shape(c, s) && Handing(s.wpc)
    ensures Shape(c, HandStep(c, s))
  {
  }

  lemma CloseShape(c: Config, s: State)
    requires ValidConfig(c) && Shape(c, s) && Closing(s.wpc)
    ensures Shape(c, CloseStep(c, s))
  {
  }

  lemma LoopShape(c: Config, s: State, t: nat)
    requires ValidConfig(c) && Shape(c, s) && t < |s.threads| && Looping(s.threads[t].pc)
    ensures Shape(c, LoopStep(c, s, t))
  {
  }

  lemma WorkShape(c: Config, s: State, t: nat)
    requires ValidConfig(c) && Shape(c, s) && t < |s.threads| && Working(s.threads[t].pc)
    ensures Shape(c, WorkStep(c, s, t))
  {
  }

  lemma ParkShape(c: Config, s: State, t: nat)
    requires ValidConfig(c) && Shape(c, s) && t < |s.threads| && Parking(s.threads[t].pc)
    ensures Shape(c, ParkStep(c, s, t))
  {
  }

  lemma StepShape(c: Config, s: State, a: Actor)
    requires ValidConfig(c) && Shape(c, s)
    ensures Shape(c, Step(c, s, a))
  {
    match a
    case Worker =>
      if Choosing(s.wpc) {
        ChooseShape(c, s);
      } else if Handing(s.wpc) {
        HandShape(c, s);
      } else {
        CloseShape(c, s);
      }
    case Pthread(t) =>
      if t < |s.threads| {
        if Looping(s.threads[t].pc) {
          LoopShape(c, s, t);
        } else if Working(s.threads[t].pc) {
          WorkShape(c, s, t);
        } else {
          ParkShape(c, s, t);
        }
      }
  }
}
