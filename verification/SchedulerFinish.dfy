/** From every reachable state the worker can still run to the end: no deadlock and no lost wake-up. */
module SchedulerFinish {
  import opened Seqs
  import opened Scheduler
  import opened SchedulerInv
  import opened SchedulerProgress

  // ---------------------------------------------------------------- the worker's own progress

  /** How many effective moves the worker has left at most. */
  function Ahead(c: Config, pos: nat, w: WorkerPc, remaining: nat): nat
    requires pos <= |c.lines|
  {
    match w
    case Terminate => 4 * remaining + 1
    case Join(_) => 4 * remaining + 3
    case Destroy(_) => 4 * remaining + 2
    case Finished => 0
    case TasksLeft => 0
    case _ =>
      20 * (|c.lines| - pos) + 4 * c.numThreads + 5 +
      match w
      case Read => 10
      case Lookup => 9
      case PopIdle => 8
      case WaitIdle => 7
      case Bind(_) => 6
      case TakeTask(_) => 5
      case Update(_, _) => 4
      case _ => 3
  }

  /** The worker has less ahead, or has not moved. */
  ghost predicate Onward(c: Config, s: State, s': State) {
    && s.pos <= |c.lines| && s'.pos <= |c.lines|
    && (s' == s || Ahead(c, s'.pos, s'.wpc, s'.remaining) < Ahead(c, s.pos, s.wpc, s.remaining))
  }

  lemma ChooseAdvances(c: Config, s: State)
    requires ValidConfig(c) && Shape(c, s) && Choosing(s.wpc)
    ensures Onward(c, s, ChooseStep(c, s))
  {
    hide ThreadsRange, BoundRange, InRange, ThreadRange, Mine, HasSlot, Content;
  }

  lemma HandAdvances(c: Config, s: State)
    requires ValidConfig(c) && Shape(c, s) && Handing(s.wpc)
    ensures Onward(c, s, HandStep(c, s))
  {
    hide ThreadsRange, BoundRange, InRange, ThreadRange, Mine, HasSlot, Content;
  }

  lemma CloseAdvances(c: Config, s: State)
    requires ValidConfig(c) && Shape(c, s) && Closing(s.wpc)
    ensures Onward(c, s, CloseStep(c, s))
  {
    hide ThreadsRange, BoundRange, InRange, ThreadRange, Mine, HasSlot, Content;
  }

  lemma WorkerAdvances(c: Config, s: State)
    requires ValidConfig(c) && Shape(c, s)
    ensures Onward(c, s, WorkerStep(c, s))
  {
    hide Shape, Onward, ChooseStep, HandStep, CloseStep;
    if Choosing(s.wpc) {
      ChooseAdvances(c, s);
    } else if Handing(s.wpc) {
      HandAdvances(c, s);
    } else {
      CloseAdvances(c, s);
    }
  }

  /** The worker retries a full queue, or waits in pthread_join, for thread t. */
  predicate WaitsFor(c: Config, s: State, t: nat) {
    t < |s.threads| && c.numThreads > 1 &&
    ((s.wpc.Insert? && s.wpc.t == t && |s.threads[t].queue| >= TASK_BUFFER_PER_THREAD - 1)
     || (s.wpc.Join? && s.wpc.t == t && !s.threads[t].pc.Done?))
  }

  /** A worker that cannot move has finished, is starved, or waits for one thread. */
  lemma WhyStuck(c: Config, s: State)
    requires ValidConfig(c) && Shape(c, s) && !s.wpc.TasksLeft? && WorkerStep(c, s) == s
    ensures s.wpc.Finished? || Starved(s) || exists t :: WaitsFor(c, s, t)
  {
    if s.wpc.Insert? || s.wpc.Join? {
      assert WaitsFor(c, s, s.wpc.t);
    }
  }

  // ---------------------------------------------------------------- waiting for one thread

  /** How far a thread with a full queue, or one told to end, is from relieving the worker. */
  function Duty(th: Thread): nat {
    6 * |th.queue| +
    if th.terminate then
      match th.pc
      case Done => 0
      case FinalDrain => 1
      case RecyclePut(_, last) => if last then 2 else 13
      case RecycleLock(_, last) => if last then 3 else 14
      case Run(_, last) => if last then 4 else 15
      case OuterCheck => 5
      case ParkTerm => 6
      case ParkPut => 7
      case ParkHas3 => 8
      case ParkLock => 9
      case ParkHas2 => 10
      case ParkHas1 => 11
      case Drain => 12
      case WaitTerm => 16
      case WaitHas => 17
    else
      match th.pc
      case Drain => 7
      case RecyclePut(_, _) => 8
      case RecycleLock(_, _) => 9
      case Run(_, _) => 10
      case WaitHas => 13
      case WaitTerm => 14
      case OuterCheck => 15
      case ParkHas2 => 16
      case ParkHas1 => 17
      case ParkTerm => 18
      case ParkPut => 19
      case ParkHas3 => 19
      case ParkLock => 20
      case _ => 0
  }

  /** The thread that holds the mutex t waits for. */
  function Blocker(s: State, t: nat): Option<nat>
    requires t < |s.threads|
  {
    if s.threads[t].pc.RecycleLock? then s.taskLock
    else if s.threads[t].pc.ParkLock? then s.parkLock
    else None
  }

  function Release(pc: ThreadPc): nat { if pc.ParkHas3? then 2 else 1 }

  function Burden(s: State, t: nat): nat
    requires t < |s.threads|
  {
    var u := Blocker(s, t);
    3 * Duty(s.threads[t]) +
    if u.Some? && u.value < |s.threads| then Release(s.threads[u.value].pc) else 0
  }

  /** The move of an unblocked thread brings it closer to relieving the worker. */
  ghost predicate Closer(th: Thread, th': Thread) {
    && th'.terminate == th.terminate && |th'.queue| <= |th.queue|
    && (Duty(th') < Duty(th) || (!th.terminate && |th'.queue| < |th.queue|))
  }

  /** A thread whose work still matters to the worker. */
  predicate OnDuty(th: Thread) {
    if th.terminate then !th.pc.Done? else th.queue != [] && !LastRound(th.pc)
  }

  lemma LoopCloser(c: Config, s: State, t: nat)
    requires ValidConfig(c) && Shape(c, s) && t < |s.threads| && OnDuty(s.threads[t]) && Looping(s.threads[t].pc)
    ensures Closer(s.threads[t], ThreadStep(c, s, t).threads[t])
  {
    hide Shape;
  }

  lemma WorkCloser(c: Config, s: State, t: nat)
    requires ValidConfig(c) && Shape(c, s) && t < |s.threads| && OnDuty(s.threads[t]) && Working(s.threads[t].pc)
    requires Blocker(s, t).None?
    ensures Closer(s.threads[t], ThreadStep(c, s, t).threads[t])
  {
    hide Shape, Content;
  }

  lemma ParkCloser(c: Config, s: State, t: nat)
    requires ValidConfig(c) && Shape(c, s) && t < |s.threads| && OnDuty(s.threads[t]) && Parking(s.threads[t].pc)
    requires Blocker(s, t).None?
    ensures Closer(s.threads[t], ThreadStep(c, s, t).threads[t])
  {
    hide Shape;
  }

  /** Taking the mutex or moving on leaves no blocker heavier than three units. */
  lemma OwnMoveHelps(c: Config, s: State, t: nat)
    requires ValidConfig(c) && Shape(c, s) && t < |s.threads| && OnDuty(s.threads[t]) && Blocker(s, t).None?
    ensures var s' := ThreadStep(c, s, t);
            && |s'.threads| == |s.threads| && s'.threads[t].terminate == s.threads[t].terminate
            && |s'.threads[t].queue| <= |s.threads[t].queue|
            && (Burden(s', t) < Burden(s, t)
                || (!s.threads[t].terminate && |s'.threads[t].queue| < |s.threads[t].queue|))
  {
    if Looping(s.threads[t].pc) {
      LoopCloser(c, s, t);
    } else if Working(s.threads[t].pc) {
      WorkCloser(c, s, t);
    } else {
      ParkCloser(c, s, t);
    }
    StepShape(c, s, Pthread(t));
  }

  /** The move of the holder of the mutex brings its release closer and leaves t alone. */
  lemma BlockerMoveHelps(c: Config, s: State, t: nat)
    requires ValidConfig(c) && Shape(c, s) && Live(c, s) && t < |s.threads| && Blocker(s, t).Some?
    ensures var u := Blocker(s, t).value;
            && u < |s.threads| && u != t
            && var s' := ThreadStep(c, s, u);
            && |s'.threads| == |s.threads| && s'.threads[t] == s.threads[t]
            && Burden(s', t) < Burden(s, t)
  {
  }

  // ---------------------------------------------------------------- running to the end

  lemma {:induction false} LaterConcat(c: Config, s: State, a: seq<Actor>, b: seq<Actor>)
    requires ValidConfig(c) && Shape(c, s) && Shape(c, Later(c, s, a))
    ensures Later(c, s, a + b) == Later(c, Later(c, s, a), b)
    decreases |a|
  {
    if a == [] {
      assert a + b == b;
    } else {
      StepShape(c, s, a[0]);
      assert (a + b)[0] == a[0] && (a + b)[1..] == a[1..] + b;
      LaterConcat(c, Step(c, s, a[0]), a[1..], b);
    }
  }

  /** The worker stands where it stood, and now it can move. */
  ghost predicate Relieved(c: Config, s: State, s': State)
    requires ValidConfig(c)
  {
    && s'.wpc == s.wpc && s'.pos == s.pos && s'.remaining == s.remaining
    && Shape(c, s') && WorkerStep(c, s') != s'
  }

  lemma DutyOf(c: Config, s: State, t: nat)
    requires ValidConfig(c) && Shape(c, s) && Live(c, s) && WaitsFor(c, s, t)
    ensures OnDuty(s.threads[t])
  {
    assert ClosingThread(s.threads[t], t, s.remaining);
  }

  /** The next move on the way to relieving the worker: thread t, or the holder of the mutex it waits for. */
  lemma HelpfulMove(c: Config, s: State, t: nat) returns (u: nat)
    requires ValidConfig(c) && Shape(c, s) && Live(c, s) && WaitsFor(c, s, t)
    ensures u < |s.threads|
    ensures var s' := ThreadStep(c, s, u);
            && |s'.threads| == |s.threads| && |s'.threads[t].queue| <= |s.threads[t].queue|
            && (Burden(s', t) < Burden(s, t) || |s'.threads[t].queue| < |s.threads[t].queue|)
    ensures WorkerUntouched(s, ThreadStep(c, s, u))
  {
    DutyOf(c, s, t);
    if Blocker(s, t).None? {
      u := t;
      OwnMoveHelps(c, s, t);
    } else {
      u := Blocker(s, t).value;
      BlockerMoveHelps(c, s, t);
    }
    ThreadFrame(c, s, u);
  }

  lemma {:induction false} Relieve(c: Config, s: State, t: nat) returns (moves: seq<Actor>)
    requires ValidConfig(c) && Inv(c, s) && WaitsFor(c, s, t)
    ensures Relieved(c, s, Later(c, s, moves))
    decreases |s.threads[t].queue|, Burden(s, t)
  {
    var u := HelpfulMove(c, s, t);
    StepInv(c, s, Pthread(u));
    var s1 := ThreadStep(c, s, u);
    var rest := [];
    if WaitsFor(c, s1, t) {
      rest := Relieve(c, s1, t);
    } else {
      NoLongerWaiting(c, s, s1, t);
    }
    moves := [Pthread(u)] + rest;
    assert moves[1..] == rest;
  }

  lemma NoLongerWaiting(c: Config, s: State, s1: State, t: nat)
    requires ValidConfig(c) && Shape(c, s) && Shape(c, s1) && WaitsFor(c, s, t) && !WaitsFor(c, s1, t)
    requires WorkerUntouched(s, s1) && |s1.threads| == |s.threads|
    ensures Relieved(c, s, s1) && Later(c, s1, []) == s1
  {
  }

  lemma FedIsRelieved(c: Config, s: State, s1: State)
    requires ValidConfig(c) && Shape(c, s1) && WorkerUntouched(s, s1) && s.wpc.WaitIdle? && s1.idle != []
    ensures Relieved(c, s, s1)
  {
    assert WorkerStep(c, s1).wpc.Bind?;
  }

  lemma FeedingMove(c: Config, s: State) returns (t: nat)
    requires ValidConfig(c) && Inv(c, s) && Starved(s)
    ensures t < |s.threads| && WorkerUntouched(s, ThreadStep(c, s, t))
    ensures var s1 := ThreadStep(c, s, t);
            if s1.idle == [] then Total(s1.threads) < Total(s.threads) else Relieved(c, s, s1)
  {
    t := SomeoneMoves(c, s);
    MoveLowers(c, s, t);
    ThreadFrame(c, s, t);
    StepShape(c, s, Pthread(t));
    if ThreadStep(c, s, t).idle != [] {
      FedIsRelieved(c, s, ThreadStep(c, s, t));
    }
  }

  lemma {:induction false} Feed(c: Config, s: State) returns (moves: seq<Actor>)
    requires ValidConfig(c) && Inv(c, s) && Starved(s)
    ensures Relieved(c, s, Later(c, s, moves))
    decreases Total(s.threads)
  {
    hide Tasks, Order, Live, WorkerStep, ThreadStep;
    var t := FeedingMove(c, s);
    StepInv(c, s, Pthread(t));
    var rest := [];
    if ThreadStep(c, s, t).idle == [] {
      rest := Feed(c, ThreadStep(c, s, t));
    }
    moves := [Pthread(t)] + rest;
    assert moves[1..] == rest;
  }

  /** Some moves after which the worker can move, if it has not finished. */
  lemma Unstick(c: Config, s: State) returns (moves: seq<Actor>)
    requires ValidConfig(c) && Inv(c, s) && !s.wpc.Finished?
    ensures Relieved(c, s, Later(c, s, moves))
  {
    if WorkerStep(c, s) != s {
      moves := [];
    } else {
      WhyStuck(c, s);
      if Starved(s) {
        moves := Feed(c, s);
      } else {
        var t :| WaitsFor(c, s, t);
        moves := Relieve(c, s, t);
      }
    }
  }

  lemma {:induction false} RunToEnd(c: Config, s: State) returns (moves: seq<Actor>)
    requires ValidConfig(c) && Inv(c, s)
    ensures Later(c, s, moves).wpc.Finished?
    decreases Ahead(c, s.pos, s.wpc, s.remaining)
  {
    hide Tasks, Order, Live, Shape, WorkerStep, Ahead;
    if s.wpc.Finished? {
      return [];
    }
    var pre := Unstick(c, s);
    var s1 := Later(c, s, pre);
    LaterInv(c, s, pre);
    StepInv(c, s1, Worker);
    WorkerAdvances(c, s1);
    var rest := RunToEnd(c, WorkerStep(c, s1));
    assert ([Worker] + rest)[1..] == rest;
    LaterConcat(c, s, pre, [Worker] + rest);
    moves := pre + ([Worker] + rest);
  }

  lemma {:induction false} LaterReachable(c: Config, s: State, moves: seq<Actor>)
    requires ValidConfig(c) && Shape(c, s) && Reachable(c, s)
    ensures Reachable(c, Later(c, s, moves))
    decreases |moves|
  {
    hide Step, Reachable;
    if moves == [] {
    } else {
      StepReachable(c, s, moves[0]);
      StepShape(c, s, moves[0]);
      LaterReachable(c, Step(c, s, moves[0]), moves[1..]);
    }
  }

  /** However far an interleaving has got, it can be continued until the worker has finished. */
  lemma CanFinish(c: Config, s: State) returns (moves: seq<Actor>)
    requires ValidConfig(c) && Reachable(c, s)
    ensures Shape(c, s) && Later(c, s, moves).wpc.Finished? && Reachable(c, Later(c, s, moves))
  {
    hide Tasks, Order, Live, Reachable;
    ReachableInv(c, s);
    moves := RunToEnd(c, s);
    LaterReachable(c, s, moves);
  }
}
