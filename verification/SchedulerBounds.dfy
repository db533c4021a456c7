/**
 How much one replay worker needs: the buffers never hold more than they were created for, a
 thread or a task object is only created when none can be reused, and the number of task
 objects is bounded whatever is replayed.
 */
module SchedulerBounds {
  import opened Seqs
  import opened Scheduler
  import opened SchedulerInv

  // ---------------------------------------------------------------- counting task objects

  /** The task objects that have not been freed. */
  function Alive(owner: seq<Place>): (n: nat)
    ensures n <= |owner|
  {
    if owner == [] then 0
    else Alive(owner[..|owner| - 1]) + if owner[|owner| - 1].Freed? then 0 else 1
  }

  /** The task objects that the threads have in their queues and in their hands. */
  function Load(threads: seq<Thread>): nat {
    if threads == [] then 0 else Load(threads[..|threads| - 1]) + Own(threads[|threads| - 1])
  }

  function Own(th: Thread): nat { |th.queue| + if HasTask(th.pc) then 1 else 0 }

  /** Every living object is reusable, with a thread or with the worker. */
  ghost predicate Balanced(s: State) {
    Alive(s.owner) == |s.reuse| + Load(s.threads) + if s.wpc.Update? || s.wpc.Insert? then 1 else 0
  }

  /** No ring holds more than its size minus one. */
  ghost predicate Fits(c: Config, s: State) {
    && (forall t :: 0 <= t < |s.threads| ==> |s.threads[t].queue| <= 511)
    && |s.idle| <= c.numThreads - 1 && |s.reuse| <= c.numThreads * 512 - 1
    && Alive(s.owner) <= c.numThreads * 512 + 1
  }

  lemma {:induction false} AliveUpdate(owner: seq<Place>, k: nat, p: Place)
    requires k < |owner|
    ensures Alive(owner[k := p]) + (if owner[k].Freed? then 0 else 1) == Alive(owner) + if p.Freed? then 0 else 1
    decreases |owner|
  {
    var n := |owner| - 1;
    if k == n {
      assert owner[k := p][..n] == owner[..n];
    } else {
      assert owner[k := p][..n] == owner[..n][k := p];
      AliveUpdate(owner[..n], k, p);
    }
  }

  lemma AliveSnoc(owner: seq<Place>, p: Place)
    ensures Alive(owner + [p]) == Alive(owner) + if p.Freed? then 0 else 1
  {
    assert (owner + [p])[..|owner|] == owner;
  }

  lemma {:induction false} LoadUpdate(threads: seq<Thread>, t: nat, th: Thread)
    requires t < |threads|
    ensures Load(threads[t := th]) + Own(threads[t]) == Load(threads) + Own(th)
    decreases |threads|
  {
    var n := |threads| - 1;
    if t == n {
      assert threads[t := th][..n] == threads[..n];
    } else {
      assert threads[t := th][..n] == threads[..n][t := th];
      LoadUpdate(threads[..n], t, th);
    }
  }

  lemma LoadSnoc(threads: seq<Thread>, th: Thread)
    ensures Load(threads + [th]) == Load(threads) + Own(th)
  {
    assert (threads + [th])[..|threads|] == threads;
  }

  lemma {:induction false} LoadBound(threads: seq<Thread>)
    requires forall t :: 0 <= t < |threads| ==> |threads[t].queue| <= 511
    ensures Load(threads) <= 512 * |threads|
    decreases |threads|
  {
    if threads == [] {
    } else {
      LoadBound(threads[..|threads| - 1]);
    }
  }

  // ---------------------------------------------------------------- steps

  lemma ChooseFits(c: Config, s: State)
    requires ValidConfig(c) && Shape(c, s) && Choosing(s.wpc) && Balanced(s) && Fits(c, s)
    ensures Balanced(ChooseStep(c, s)) && Fits(c, ChooseStep(c, s))
  {
    LoadSnoc(s.threads, Thread([], WaitHas, false));
  }

  lemma HandFits(c: Config, s: State)
    requires ValidConfig(c) && Inv(c, s) && Handing(s.wpc) && Balanced(s) && Fits(c, s)
    ensures Balanced(HandStep(c, s)) && Fits(c, HandStep(c, s))
  {
    hide Load, Alive, History, Order, Live;
    if s.wpc.TakeTask? {
      LoadBound(s.threads);
      AliveSnoc(s.owner, Hand);
      if s.reuse != [] { AliveUpdate(s.owner, s.reuse[0], Hand); }
    } else if s.wpc.Insert? {
      InsertFits(c, s);
    }
  }

  lemma InsertFits(c: Config, s: State)
    requires ValidConfig(c) && Inv(c, s) && s.wpc.Insert? && Balanced(s) && Fits(c, s)
    ensures Balanced(HandStep(c, s)) && Fits(c, HandStep(c, s))
  {
    hide Load, Alive, History, Order, Live;
    var t, task := s.wpc.t, s.wpc.task;
    AliveUpdate(s.owner, task, Reusable);
    AliveUpdate(s.owner, task, Freed);
    AliveUpdate(s.owner, task, Queued(t));
    if c.numThreads > 1 { LoadUpdate(s.threads, t, s.threads[t].(queue := s.threads[t].queue + [task])); }
  }

  lemma CloseFits(c: Config, s: State)
    requires ValidConfig(c) && Shape(c, s) && Closing(s.wpc) && Balanced(s) && Fits(c, s)
    ensures Balanced(CloseStep(c, s)) && Fits(c, CloseStep(c, s))
  {
    hide Load, Alive;
    if s.wpc.Terminate? && s.remaining > 0 {
      var t := s.remaining - 1;
      LoadUpdate(s.threads, t, s.threads[t].(terminate := true));
    }
  }

  lemma LoopFits(c: Config, s: State, t: nat)
    requires ValidConfig(c) && Shape(c, s) && t < |s.threads| && Looping(s.threads[t].pc) && Balanced(s) && Fits(c, s)
    ensures Balanced(LoopStep(c, s, t)) && Fits(c, LoopStep(c, s, t))
  {
    hide Load, Alive;
    LoadUpdate(s.threads, t, LoopStep(c, s, t).threads[t]);
    assert LoopStep(c, s, t).threads == s.threads[t := LoopStep(c, s, t).threads[t]];
  }

  lemma WorkFits(c: Config, s: State, t: nat)
    requires ValidConfig(c) && Inv(c, s) && t < |s.threads| && Working(s.threads[t].pc) && Balanced(s) && Fits(c, s)
    ensures Balanced(WorkStep(c, s, t)) && Fits(c, WorkStep(c, s, t))
  {
    hide Load, Alive, History, Order, Live;
    var th, s' := s.threads[t], WorkStep(c, s, t);
    assert ThreadRange(th, |s.owner|) && ThreadOwns(th, t, s.owner);
    LoadUpdate(s.threads, t, s'.threads[t]);
    assert s'.threads == s.threads[t := s'.threads[t]];
    if th.pc.RecyclePut? {
      AliveUpdate(s.owner, th.pc.task, Reusable);
      AliveUpdate(s.owner, th.pc.task, Freed);
    } else if th.queue != [] {
      AliveUpdate(s.owner, th.queue[0], With(t));
    }
  }

  lemma ParkFits(c: Config, s: State, t: nat)
    requires ValidConfig(c) && Shape(c, s) && t < |s.threads| && Parking(s.threads[t].pc) && Balanced(s) && Fits(c, s)
    ensures Balanced(ParkStep(c, s, t)) && Fits(c, ParkStep(c, s, t))
  {
    hide Load, Alive;
    LoadUpdate(s.threads, t, ParkStep(c, s, t).threads[t]);
    assert ParkStep(c, s, t).threads == s.threads[t := ParkStep(c, s, t).threads[t]];
  }

  lemma StepFits(c: Config, s: State, a: Actor)
    requires ValidConfig(c) && Inv(c, s) && Balanced(s) && Fits(c, s)
    ensures Balanced(Step(c, s, a)) && Fits(c, Step(c, s, a))
  {
    hide Balanced, Fits, Tasks, Order, Live;
    match a
    case Worker =>
      if Choosing(s.wpc) {
        ChooseFits(c, s);
      } else if Handing(s.wpc) {
        HandFits(c, s);
      } else {
        CloseFits(c, s);
      }
    case Pthread(t) =>
      if t < |s.threads| {
        if Looping(s.threads[t].pc) {
          LoopFits(c, s, t);
        } else if Working(s.threads[t].pc) {
          WorkFits(c, s, t);
        } else {
          ParkFits(c, s, t);
        }
      }
  }

  lemma {:induction false} TraceFits(c: Config, schedule: seq<Actor>, states: seq<State>, i: nat)
    requires ValidConfig(c) && Trace(c, schedule, states) && i <= |schedule|
    ensures Balanced(states[i]) && Fits(c, states[i])
  {
    hide Inv, Step, Shape;
    if i == 0 {
    } else {
      TraceFits(c, schedule, states, i - 1);
      TraceInv(c, schedule, states, i - 1);
      assert Takes(c, states[i - 1], schedule[i - 1], states[i]);
      StepFits(c, states[i - 1], schedule[i - 1]);
    }
  }

  // ---------------------------------------------------------------- every run

  /**
   In every interleaving no ring overflows, and there are never more than 512 task objects per
   thread and one more, however long the journal.
   */
  lemma BuffersFit(c: Config, s: State)
    requires ValidConfig(c) && Reachable(c, s)
    ensures forall t :: 0 <= t < |s.threads| ==> |s.threads[t].queue| <= 511
    ensures |s.idle| <= c.numThreads - 1 && |s.reuse| <= c.numThreads * 512 - 1
    ensures Alive(s.owner) <= c.numThreads * 512 + 1 && |s.threads| <= c.numThreads
  {
    hide Alive, Takes;
    var schedule, states :| Trace(c, schedule, states) && s == states[|schedule|];
    TraceFits(c, schedule, states, |schedule|);
    TraceInv(c, schedule, states, |schedule|);
  }

  /** No move of a thread creates anything; it frees an object only when the reuse ring is full. */
  ghost predicate OnlyFrees(c: Config, s: State, s': State) {
    && |s'.threads| == |s.threads| && |s'.owner| == |s.owner|
    && forall k :: 0 <= k < |s.owner| && s'.owner[k].Freed? && !s.owner[k].Freed? ==>
         |s.reuse| >= c.numThreads * 512 - 1
  }

  lemma ThreadOnlyFrees(c: Config, s: State, t: nat)
    requires ValidConfig(c) && Shape(c, s) && t < |s.threads|
    ensures OnlyFrees(c, s, ThreadStep(c, s, t))
  {
    hide Alive, Load;
    if Working(s.threads[t].pc) {
      WorkOnlyFrees(c, s, t);
    }
  }

  lemma WorkOnlyFrees(c: Config, s: State, t: nat)
    requires ValidConfig(c) && Shape(c, s) && t < |s.threads| && Working(s.threads[t].pc)
    ensures OnlyFrees(c, s, WorkStep(c, s, t))
  {
    assert ThreadRange(s.threads[t], |s.owner|);
  }

  lemma ChooseObjects(c: Config, s: State)
    requires ValidConfig(c) && Shape(c, s) && Choosing(s.wpc)
    ensures ChooseStep(c, s).owner == s.owner
  {
  }

  lemma HandObjects(c: Config, s: State)
    requires ValidConfig(c) && Shape(c, s) && Handing(s.wpc)
    ensures var s' := HandStep(c, s);
            && |s'.owner| == |s.owner| + (if s.wpc.TakeTask? && s.reuse == [] then 1 else 0)
            && (forall k :: 0 <= k < |s.owner| && s'.owner[k].Freed? && !s.owner[k].Freed? ==>
                  |s.reuse| >= c.numThreads * 512 - 1)
  {
  }

  lemma WorkerObjects(c: Config, s: State)
    requires ValidConfig(c) && Shape(c, s)
    ensures var s' := WorkerStep(c, s);
            && |s'.owner| == |s.owner| + (if s.wpc.TakeTask? && s.reuse == [] then 1 else 0)
            && (forall k :: 0 <= k < |s.owner| && s'.owner[k].Freed? && !s.owner[k].Freed? ==>
                  |s.reuse| >= c.numThreads * 512 - 1)
  {
    hide ChooseStep, HandStep;
    if Choosing(s.wpc) {
      ChooseObjects(c, s);
    } else if Handing(s.wpc) {
      HandObjects(c, s);
    }
  }

  lemma WorkerThreads(c: Config, s: State)
    requires ValidConfig(c) && Shape(c, s)
    ensures |WorkerStep(c, s).threads| == |s.threads| + if Expands(c, s) then 1 else 0
  {
    hide HandStep;
    if Handing(s.wpc) {
      HandThreads(c, s);
    }
  }

  lemma HandThreads(c: Config, s: State)
    requires ValidConfig(c) && Shape(c, s) && Handing(s.wpc)
    ensures |HandStep(c, s).threads| == |s.threads|
  {
  }

  /** The worker has a new id, finds no idle thread and may still create one. */
  predicate Expands(c: Config, s: State) { s.wpc.PopIdle? && s.idle == [] && |s.threads| < c.numThreads }

  lemma ExpandsWhenBusy(c: Config, s: State)
    requires Inv(c, s) && Expands(c, s)
    ensures Id(c, s.pos) !in s.bound && forall t :: 0 <= t < |s.threads| ==> !Sleeping(s.threads[t])
  {
    hide Tasks, Dispatch, Bound, Locks, Closed;
  }

  /**
   A thread is created exactly for an id that has none, when one more is allowed and no thread
   is idle; then all of them are awake or have work.
   */
  lemma ThreadsOnDemand(c: Config, s: State, a: Actor)
    requires ValidConfig(c) && Reachable(c, s)
    ensures Shape(c, s) && |Step(c, s, a).threads| == |s.threads| + if a.Worker? && Expands(c, s) then 1 else 0
    ensures Expands(c, s) ==> Id(c, s.pos) !in s.bound && forall t :: 0 <= t < |s.threads| ==> !Sleeping(s.threads[t])
  {
    hide WorkerStep, ThreadStep, Shape, Tasks, Order, Live;
    ReachableInv(c, s);
    if Expands(c, s) {
      ExpandsWhenBusy(c, s);
    }
    match a
    case Worker => WorkerThreads(c, s);
    case Pthread(t) =>
      if t < |s.threads| {
        ThreadOnlyFrees(c, s, t);
      }
  }

  /** A task object is created exactly when none can be reused, and freed only when no more can be kept for reuse. */
  lemma ObjectsOnDemand(c: Config, s: State, a: Actor)
    requires ValidConfig(c) && Reachable(c, s)
    ensures Shape(c, s)
    ensures var s' := Step(c, s, a);
            && |s'.owner| == |s.owner| + (if a.Worker? && s.wpc.TakeTask? && s.reuse == [] then 1 else 0)
            && (forall k :: 0 <= k < |s.owner| && s'.owner[k].Freed? && !s.owner[k].Freed? ==>
                  |s.reuse| == c.numThreads * 512 - 1)
  {
    hide WorkerStep, ThreadStep, Shape, Tasks, Order, Live;
    ReachableInv(c, s);
    BuffersFit(c, s);
    match a
    case Worker => WorkerObjects(c, s);
    case Pthread(t) =>
      if t < |s.threads| {
        ThreadOnlyFrees(c, s, t);
      }
  }

  // ---------------------------------------------------------------- what the threads put into the shared rings

  /** Whether the thread looks into its queue on its way into the idle ring. */
  predicate Looks(pc: ThreadPc) { pc.ParkHas1? || pc.ParkHas2? || pc.ParkHas3? }

  lemma ParkOrTurnBack(c: Config, s: State, t: nat)
    requires ValidConfig(c) && Shape(c, s) && Locks(s.threads, s.parkLock, s.taskLock)
    requires t < |s.threads| && Parking(s.threads[t].pc)
    ensures var th, s' := s.threads[t], ParkStep(c, s, t);
            && (Looks(th.pc) ==> (s'.threads[t].pc.OuterCheck? <==> th.queue != []))
            && (s'.threads[t].pc.ParkPut? ==> th.pc.ParkHas3? && th.queue == [])
            && (if th.pc.ParkPut? && |s.idle| < c.numThreads - 1 then s'.idle == s.idle + [t] else s'.idle == s.idle)
            && (th.pc.ParkPut? ==> s.parkLock == Some(t)) && s'.reuse == s.reuse
  {
  }

  lemma WorkKeepsIdle(c: Config, s: State, t: nat)
    requires ValidConfig(c) && Shape(c, s) && Locks(s.threads, s.parkLock, s.taskLock)
    requires t < |s.threads| && Working(s.threads[t].pc)
    ensures var th, s' := s.threads[t], WorkStep(c, s, t);
            && s'.idle == s.idle && !s'.threads[t].pc.ParkPut?
            && (s'.threads[t].pc.ParkTerm? ==> th.queue == [])
            && (s'.reuse != s.reuse ==>
                  th.pc.RecyclePut? && s.taskLock == Some(t) && s'.reuse == s.reuse + [th.pc.task])
  {
    assert ThreadRange(s.threads[t], |s.owner|);
  }

  /**
   A thread goes into the idle ring only after its queue was found empty under the mutex, and
   turns back wherever it sees a task; both rings are only filled by the holder of their mutex.
   */
  lemma ParksWhenEmpty(c: Config, s: State, t: nat)
    requires ValidConfig(c) && Reachable(c, s) && t < |s.threads|
    ensures Shape(c, s)
    ensures var th, s' := s.threads[t], Step(c, s, Pthread(t));
            && (Looks(th.pc) ==> (s'.threads[t].pc.OuterCheck? <==> th.queue != []))
            && (s'.threads[t].pc.ParkPut? ==> th.pc.ParkHas3? && th.queue == [])
            && (s'.idle != s.idle ==> th.pc.ParkPut? && s.parkLock == Some(t) && s'.idle == s.idle + [t])
            && (s'.reuse != s.reuse ==>
                  th.pc.RecyclePut? && s.taskLock == Some(t) && s'.reuse == s.reuse + [th.pc.task])
  {
    hide Tasks, Order, IdleKnown, Locks, Closed, WorkStep, ParkStep, Shape;
    ReachableInv(c, s);
    if Working(s.threads[t].pc) {
      WorkKeepsIdle(c, s, t);
    } else if Parking(s.threads[t].pc) {
      ParkOrTurnBack(c, s, t);
    }
  }
}
