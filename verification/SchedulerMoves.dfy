/** Parts of a run, for building interleavings that show what can happen. */
module SchedulerMoves {
  import opened Seqs
  import opened Scheduler
  import opened SchedulerInv

  lemma Move(c: Config, s: State, a: Actor) returns (s': State)
    requires ValidConfig(c) && Reachable(c, s)
    ensures Shape(c, s) && s' == Step(c, s, a) && Reachable(c, s')
  {
    hide Reachable, Step;
    ReachableInv(c, s);
    StepReachable(c, s, a);
    s' := Step(c, s, a);
  }

  // ---------------------------------------------------------------- the worker

  /** A thread that has not started on the only task it has. */
  function Waiting(task: nat): Thread { Thread([task], WaitHas, false) }

  /** A thread that has nothing to do. */
  const ASLEEP: Thread := Thread([], WaitHas, false)

  /** The worker has gone on by one line; nothing was run and no lock is held that was not held before. */
  predicate OneLineOn(s: State, s': State) {
    && s'.wpc == Read && s'.pos == s.pos + 1 && s'.executed == s.executed
    && s'.parkLock == s.parkLock && s'.taskLock == s.taskLock
  }

  lemma TaskInStore(c: Config, s: State)
    requires Shape(c, s) && s.wpc.Update?
    ensures s.wpc.task < |s.store|
  {
  }

  /** The worker fills a task object and queues it for a thread that is asleep. */
  lemma QueueLine(c: Config, s: State, t: nat) returns (s': State, task: nat)
    requires ValidConfig(c) && Reachable(c, s) && c.numThreads > 1 && s.wpc == TakeTask(t)
    requires t < |s.threads| && s.threads[t] == ASLEEP
    ensures Reachable(c, s') && OneLineOn(s, s') && s'.remaining == s.remaining && s'.bound == s.bound
            && s'.idle == s.idle
    ensures s'.threads == s.threads[t := Waiting(task)] && Content(s', task) == s.pos
  {
    hide Reachable, Shape;
    var s1 := Move(c, s, Worker);
    task := s1.wpc.task;
    s' := Move(c, s1, Worker);
    TaskInStore(c, s1);
    s' := Move(c, s', Worker);
    assert ASLEEP.queue + [task] == [task];
    assert s'.threads == s.threads[t := ASLEEP.(queue := ASLEEP.queue + [task])];
  }

  /** The map of threads after a line of a new id went to thread t. */
  function BoundTo(c: Config, s: State, t: nat): map<nat, nat> {
    if HasSlot(c, Id(c, s.pos)) then s.bound[Id(c, s.pos) := t] else s.bound
  }

  /** The worker reads a line of an id that is bound to no thread. */
  ghost predicate NewLine(c: Config, s: State) {
    && ValidConfig(c) && Reachable(c, s) && c.numThreads > 1 && s.wpc == Read && s.pos < |c.lines| && Mine(c, s.pos)
    && Id(c, s.pos) !in s.bound
  }

  /** No thread is idle and there is room for another one. */
  lemma NewThread(c: Config, s: State) returns (s': State, task: nat)
    requires NewLine(c, s) && s.idle == [] && s.remaining == |s.threads| < c.numThreads
    ensures Reachable(c, s') && OneLineOn(s, s') && s'.remaining == s.remaining + 1
    ensures s'.bound == BoundTo(c, s, |s.threads|) && s'.idle == []
    ensures s'.threads == s.threads + [Waiting(task)] && Content(s', task) == s.pos
  {
    hide Reachable, Shape;
    var t := |s.threads|;
    s' := Move(c, s, Worker);
    s' := Move(c, s', Worker);
    s' := Move(c, s', Worker);
    s' := Move(c, s', Worker);
    s', task := QueueLine(c, s', t);
    assert (s.threads + [ASLEEP])[t := Waiting(task)] == s.threads + [Waiting(task)];
  }

  /** The thread that is idle longest gets the line. */
  lemma RecycledThread(c: Config, s: State) returns (s': State, task: nat)
    requires NewLine(c, s) && s.idle != [] && s.idle[0] < |s.threads| && s.threads[s.idle[0]] == ASLEEP
    ensures Reachable(c, s') && OneLineOn(s, s') && s'.remaining == s.remaining
    ensures s'.bound == BoundTo(c, s, s.idle[0]) && s'.idle == s.idle[1..]
    ensures s'.threads == s.threads[s.idle[0] := Waiting(task)] && Content(s', task) == s.pos
  {
    hide Reachable, Shape;
    s' := Move(c, s, Worker);
    s' := Move(c, s', Worker);
    s' := Move(c, s', Worker);
    s' := Move(c, s', Worker);
    s', task := QueueLine(c, s', s.idle[0]);
  }

  /** A line of an id that is bound to thread t. */
  lemma BoundLine(c: Config, s: State, t: nat) returns (s': State, task: nat)
    requires ValidConfig(c) && Reachable(c, s) && c.numThreads > 1 && s.wpc == Read && s.pos < |c.lines|
             && Mine(c, s.pos)
    requires Id(c, s.pos) in s.bound && s.bound[Id(c, s.pos)] == t < |s.threads| && s.threads[t] == ASLEEP
    ensures Reachable(c, s') && OneLineOn(s, s') && s'.remaining == s.remaining
    ensures s'.bound == s.bound && s'.idle == s.idle && s'.threads == s.threads[t := Waiting(task)]
  {
    hide Reachable, Shape;
    s' := Move(c, s, Worker);
    s' := Move(c, s', Worker);
    s', task := QueueLine(c, s', t);
  }

  // ---------------------------------------------------------------- a thread

  /** Everything but the thread's own place, and what it runs or parks, stays. */
  predicate Around(s: State, t: nat, s': State) {
    && s'.wpc == s.wpc && s'.pos == s.pos && s'.remaining == s.remaining && s'.bound == s.bound
    && s'.parkLock == s.parkLock && s'.taskLock == s.taskLock && |s'.threads| == |s.threads| && t < |s.threads|
    && forall u :: 0 <= u < |s.threads| && u != t ==> s'.threads[u] == s.threads[u]
  }

  /** Thread t runs its only task. */
  lemma RunOnly(c: Config, s: State, t: nat, task: nat) returns (s': State)
    requires ValidConfig(c) && Reachable(c, s) && t < |s.threads| && s.taskLock == None
    requires s.threads[t] == Waiting(task)
    ensures Reachable(c, s') && Around(s, t, s') && s'.idle == s.idle && s'.threads[t] == Thread([], ParkTerm, false)
    ensures s'.executed == s.executed + [Exec(t, Content(s, task))]
  {
    hide Reachable, Shape;
    s' := Start(c, s, t, task);
    var p := Pthread(t);
    s' := Move(c, s', p);
    s' := Move(c, s', p);
    s' := Move(c, s', p);
    s' := Move(c, s', p);
  }

  /** Thread t takes its only task. */
  lemma Start(c: Config, s: State, t: nat, task: nat) returns (s': State)
    requires ValidConfig(c) && Reachable(c, s) && t < |s.threads| && s.threads[t] == Waiting(task)
    ensures Reachable(c, s') && task < |s.owner|
    ensures s' == s.(threads := s.threads[t := Thread([], Run(task, false), false)], owner := s.owner[task := With(t)])
  {
    hide Reachable, Shape;
    var p := Pthread(t);
    s' := Move(c, s, p);
    TaskInRange(c, s', t);
    s' := Move(c, s', p);
    assert [task][1..] == [];
    assert s'.threads == s.threads[t := Thread([], Run(task, false), false)];
  }

  lemma TaskInRange(c: Config, s: State, t: nat)
    requires ValidConfig(c) && Reachable(c, s) && t < |s.threads| && s.threads[t].queue != []
    ensures s.threads[t].queue[0] < |s.owner|
  {
    hide Reachable, Tasks, Order, Live;
    ReachableInv(c, s);
    assert ThreadRange(s.threads[t], |s.owner|);
  }

  /** Thread t comes to the point where it wants the mutex of the idle ring. */
  lemma ToMutex(c: Config, s: State, t: nat) returns (s': State)
    requires ValidConfig(c) && Reachable(c, s) && t < |s.threads| && s.threads[t] == Thread([], ParkTerm, false)
    ensures Reachable(c, s') && s' == Goto(s, t, ParkLock)
  {
    hide Reachable, Shape;
    var p := Pthread(t);
    s' := Move(c, s, p);
    s' := Move(c, s', p);
    s' := Move(c, s', p);
    assert s'.threads == s.threads[t := s.threads[t].(pc := ParkLock)];
  }

  /** Thread t enters itself into the idle ring and falls asleep. */
  lemma FallAsleep(c: Config, s: State, t: nat) returns (s': State)
    requires ValidConfig(c) && Reachable(c, s) && t < |s.threads| && s.threads[t] == Thread([], ParkTerm, false)
    requires s.parkLock == None && |s.idle| < c.numThreads - 1
    ensures Reachable(c, s') && Around(s, t, s') && s'.idle == s.idle + [t] && s'.threads[t] == ASLEEP
    ensures s'.executed == s.executed
  {
    hide Reachable, Shape;
    var p := Pthread(t);
    s' := ToMutex(c, s, t);
    s' := Move(c, s', p);
    s' := Move(c, s', p);
    s' := Move(c, s', p);
    s' := Move(c, s', p);
  }
}
