/** The invariants of one replay worker, kept by every move of the worker and of its threads. */
module SchedulerInv {
  import opened Seqs
  import opened Scheduler

  // ---------------------------------------------------------------- task objects

  ghost predicate NoDup(xs: seq<nat>) { forall i, j :: 0 <= i < j < |xs| ==> xs[i] != xs[j] }

  ghost predicate AllAt(xs: seq<nat>, owner: seq<Place>, p: Place) {
    NoDup(xs) && forall i :: 0 <= i < |xs| ==> xs[i] < |owner| && owner[xs[i]] == p
  }

  ghost predicate ThreadOwns(th: Thread, t: nat, owner: seq<Place>) {
    && AllAt(th.queue, owner, Queued(t))
    && (HasTask(th.pc) ==> th.pc.task < |owner| && owner[th.pc.task] == With(t))
  }

  /** Every task object is in the one place `owner` names. */
  ghost predicate Owned(threads: seq<Thread>, reuse: seq<nat>, w: WorkerPc, owner: seq<Place>) {
    && (forall t :: 0 <= t < |threads| ==> ThreadOwns(threads[t], t, owner))
    && AllAt(reuse, owner, Reusable)
    && (w.Update? || w.Insert? ==> w.task < |owner| && owner[w.task] == Hand)
  }

  // ---------------------------------------------------------------- history

  function ByThread(t: nat): Exec -> bool { (e: Exec) => e.thread == t }

  function Written(store: seq<nat>, task: nat): nat { if task < |store| then store[task] else 0 }

  function QueuedOps(queue: seq<nat>, t: nat, store: seq<nat>): (r: seq<Exec>)
    ensures |r| == |queue|
    ensures forall i :: 0 <= i < |r| ==> r[i] == Exec(t, Written(store, queue[i]))
  {
    seq(|queue|, i requires 0 <= i < |queue| => Exec(t, Written(store, queue[i])))
  }

  /** The operations thread t has been handed and has not run yet, in the order it will run them. */
  function Pending(th: Thread, t: nat, store: seq<nat>): seq<Exec> {
    if th.pc.Run? then [Exec(t, Written(store, th.pc.task))] + QueuedOps(th.queue, t, store)
    else QueuedOps(th.queue, t, store)
  }

  /** What a thread has run, followed by what is pending, is what it was handed. */
  ghost predicate ThreadHistory(th: Thread, t: nat, store: seq<nat>, dispatched: seq<Exec>, executed: seq<Exec>) {
    Filter(executed, ByThread(t)) + Pending(th, t, store) == Filter(dispatched, ByThread(t))
  }

  ghost predicate Below(es: seq<Exec>, numThreads: nat) {
    forall i :: 0 <= i < |es| ==> es[i].thread < numThreads
  }

  ghost predicate History(c: Config, threads: seq<Thread>, store: seq<nat>, dispatched: seq<Exec>,
                          executed: seq<Exec>) {
    if c.numThreads == 1 then executed == dispatched && Below(executed, 1)
    else
      && Below(dispatched, |threads|) && Below(executed, |threads|)
      && forall t :: 0 <= t < |threads| ==> ThreadHistory(threads[t], t, store, dispatched, executed)
  }

  ghost predicate HandWritten(w: WorkerPc, store: seq<nat>, pos: nat) {
    w.Insert? ==> w.task < |store| && store[w.task] == pos
  }

  // ---------------------------------------------------------------- journal order

  function LineOf(): Exec -> nat { (e: Exec) => e.line }

  ghost predicate Dispatch(c: Config, pos: nat, w: WorkerPc, dispatched: seq<Exec>) {
    && c.numWorkers > 0 && pos <= Body(c, 0)
    && (InLine(w) ==> pos < Body(c, 0))
    && Map(dispatched, LineOf()) == Accepted(c, pos)
    && (Closing(w) ==> pos == Body(c, 0))
  }

  /** Every dispatched operation with a storable id went to the thread the map names. */
  ghost predicate Bound(c: Config, bound: map<nat, nat>, dispatched: seq<Exec>) {
    && (forall id :: id in bound ==> HasSlot(c, id))
    && (c.numThreads > 1 ==>
          forall i :: 0 <= i < |dispatched| && HasSlot(c, Id(c, dispatched[i].line)) ==>
            var id := Id(c, dispatched[i].line); id in bound && bound[id] == dispatched[i].thread)
  }

  ghost predicate HandBound(c: Config, w: WorkerPc, pos: nat, bound: map<nat, nat>) {
    c.numThreads > 1 ==>
      && (w.PopIdle? || w.WaitIdle? || w.Bind? ==> Id(c, pos) !in bound)
      && (Handing(w) && HasSlot(c, Id(c, pos)) ==> Id(c, pos) in bound && bound[Id(c, pos)] == HandThread(w).value)
  }

  // ---------------------------------------------------------------- idle threads

  /** The thread has nothing to do and will not look for work again by itself. */
  predicate Sleeping(th: Thread) {
    th.queue == [] && (th.pc.WaitHas? || th.pc.WaitTerm? || (th.pc.OuterCheck? && !th.terminate))
  }

  ghost predicate IdleKnown(threads: seq<Thread>, idle: seq<nat>, w: WorkerPc) {
    forall t :: 0 <= t < |threads| && Sleeping(threads[t]) ==> t in idle || HandThread(w) == Some(t)
  }

  // ---------------------------------------------------------------- locks

  predicate HoldsPark(pc: ThreadPc) { pc.ParkHas3? || pc.ParkPut? }

  ghost predicate Locks(threads: seq<Thread>, parkLock: Option<nat>, taskLock: Option<nat>) {
    && (forall t :: 0 <= t < |threads| ==> (HoldsPark(threads[t].pc) <==> parkLock == Some(t)))
    && (forall t :: 0 <= t < |threads| ==> (threads[t].pc.RecyclePut? <==> taskLock == Some(t)))
    && (parkLock.Some? ==> parkLock.value < |threads|)
    && (taskLock.Some? ==> taskLock.value < |threads|)
  }

  // ---------------------------------------------------------------- closing

  predicate LastRound(pc: ThreadPc) { pc.FinalDrain? || pc.Done? || (HasTask(pc) && pc.last) }

  ghost predicate ClosingThread(th: Thread, t: nat, remaining: nat) {
    && (th.terminate <==> t >= remaining)
    && (LastRound(th.pc) ==> th.terminate)
    && (th.pc.Done? ==> th.queue == [])
  }

  ghost predicate Closed(threads: seq<Thread>, remaining: nat, w: WorkerPc) {
    && (forall t :: 0 <= t < |threads| ==> ClosingThread(threads[t], t, remaining))
    && (w.Join? || w.Destroy? ==> w.t == remaining)
    && (w.Destroy? ==> remaining < |threads| && threads[remaining].pc.Done?)
    && (Closing(w) ==>
          forall t :: 0 <= t < |threads| && (t > remaining || (t == remaining && !w.Join?)) ==> threads[t].pc.Done?)
    && (w.Finished? ==> remaining == 0)
    && !w.TasksLeft?
  }

  ghost predicate Tasks(c: Config, s: State) {
    && Owned(s.threads, s.reuse, s.wpc, s.owner)
    && HandWritten(s.wpc, s.store, s.pos)
    && History(c, s.threads, s.store, s.dispatched, s.executed)
  }

  ghost predicate Order(c: Config, s: State) {
    && Dispatch(c, s.pos, s.wpc, s.dispatched)
    && Bound(c, s.bound, s.dispatched)
    && HandBound(c, s.wpc, s.pos, s.bound)
  }

  ghost predicate Live(c: Config, s: State) {
    && IdleKnown(s.threads, s.idle, s.wpc)
    && Locks(s.threads, s.parkLock, s.taskLock)
    && Closed(s.threads, s.remaining, s.wpc)
  }

  ghost predicate Inv(c: Config, s: State) {
    Shape(c, s) && Tasks(c, s) && Order(c, s) && Live(c, s)
  }

  lemma InitInv(c: Config)
    requires ValidConfig(c)
    ensures Inv(c, Init())
  {
  }

  // ---------------------------------------------------------------- replacing one thread

  /** Moving a thread that runs nothing to a place where it runs nothing. */
  lemma HistoryGoto(c: Config, threads: seq<Thread>, t: nat, pc: ThreadPc, store: seq<nat>, dispatched: seq<Exec>,
                    executed: seq<Exec>)
    requires History(c, threads, store, dispatched, executed)
    requires t < |threads| && !threads[t].pc.Run? && !pc.Run?
    ensures History(c, threads[t := threads[t].(pc := pc)], store, dispatched, executed)
  {
    assert Pending(threads[t].(pc := pc), t, store) == Pending(threads[t], t, store);
  }

  lemma OwnedThread(threads: seq<Thread>, reuse: seq<nat>, w: WorkerPc, owner: seq<Place>, t: nat, th: Thread)
    requires Owned(threads, reuse, w, owner) && t < |threads| && ThreadOwns(th, t, owner)
    ensures Owned(threads[t := th], reuse, w, owner)
  {
  }

  /** Taking the oldest task out of the thread's own queue. */
  lemma OwnedTake(threads: seq<Thread>, reuse: seq<nat>, w: WorkerPc, owner: seq<Place>, t: nat, last: bool)
    requires Owned(threads, reuse, w, owner) && t < |threads|
    requires threads[t].queue != [] && !HasTask(threads[t].pc) && threads[t].queue[0] < |owner|
    ensures var th := threads[t];
            Owned(threads[t := th.(queue := th.queue[1..], pc := Run(th.queue[0], last))], reuse, w,
                  owner[th.queue[0] := With(t)])
  {
    assert ThreadOwns(threads[t], t, owner);
  }

  /** Giving the task object back, to the reuse ring or to free. */
  lemma OwnedGiveBack(threads: seq<Thread>, reuse: seq<nat>, w: WorkerPc, owner: seq<Place>, t: nat, pc: ThreadPc,
                      kept: bool)
    requires Owned(threads, reuse, w, owner) && t < |threads|
    requires HasTask(threads[t].pc) && !HasTask(pc) && threads[t].pc.task < |owner|
    ensures var task := threads[t].pc.task;
            Owned(threads[t := threads[t].(pc := pc)], if kept then reuse + [task] else reuse, w,
                  owner[task := if kept then Reusable else Freed])
  {
    assert ThreadOwns(threads[t], t, owner);
  }

  lemma IdleThread(threads: seq<Thread>, idle: seq<nat>, idle': seq<nat>, w: WorkerPc, t: nat, th: Thread)
    requires IdleKnown(threads, idle, w) && t < |threads|
    requires forall u :: u in idle ==> u in idle'
    requires Sleeping(th) ==> Sleeping(threads[t]) || t in idle'
    ensures IdleKnown(threads[t := th], idle', w)
  {
  }

  lemma LocksThread(threads: seq<Thread>, park: Option<nat>, park': Option<nat>, task: Option<nat>, task': Option<nat>,
                    t: nat, th: Thread)
    requires Locks(threads, park, task) && t < |threads|
    requires if HoldsPark(th.pc) then park' == Some(t) && (park == None || park == Some(t))
             else park' == if park == Some(t) then None else park
    requires if th.pc.RecyclePut? then task' == Some(t) && (task == None || task == Some(t))
             else task' == if task == Some(t) then None else task
    ensures Locks(threads[t := th], park', task')
  {
  }

  lemma ClosedThread(threads: seq<Thread>, remaining: nat, w: WorkerPc, t: nat, th: Thread)
    requires Closed(threads, remaining, w) && t < |threads|
    requires ClosingThread(th, t, remaining) && (threads[t].pc.Done? ==> th.pc.Done?)
    ensures Closed(threads[t := th], remaining, w)
  {
  }

  // ---------------------------------------------------------------- choosing a thread

  lemma ChooseOwned(c: Config, s: State)
    requires ValidConfig(c) && Shape(c, s) && Choosing(s.wpc)
    requires Owned(s.threads, s.reuse, s.wpc, s.owner)
    ensures var s' := ChooseStep(c, s); Owned(s'.threads, s'.reuse, s'.wpc, s'.owner)
  {
  }

  lemma NewThreadHistory(c: Config, threads: seq<Thread>, store: seq<nat>, dispatched: seq<Exec>, executed: seq<Exec>)
    requires c.numThreads > 1 && History(c, threads, store, dispatched, executed)
    ensures History(c, threads + [Thread([], WaitHas, false)], store, dispatched, executed)
  {
    hide ThreadHistory;
    NewThreadEmpty(|threads|, store, dispatched, executed);
  }

  lemma NewThreadEmpty(t: nat, store: seq<nat>, dispatched: seq<Exec>, executed: seq<Exec>)
    requires Below(dispatched, t) && Below(executed, t)
    ensures ThreadHistory(Thread([], WaitHas, false), t, store, dispatched, executed)
  {
    FilterNone(executed, ByThread(t));
    FilterNone(dispatched, ByThread(t));
  }

  lemma ChooseHistory(c: Config, s: State)
    requires ValidConfig(c) && Shape(c, s) && Choosing(s.wpc)
    requires History(c, s.threads, s.store, s.dispatched, s.executed)
    ensures var s' := ChooseStep(c, s); History(c, s'.threads, s'.store, s'.dispatched, s'.executed)
  {
    if s.wpc.PopIdle? {
      NewThreadHistory(c, s.threads, s.store, s.dispatched, s.executed);
    }
  }

  lemma SkipLine(c: Config, pos: nat, dispatched: seq<Exec>)
    requires Dispatch(c, pos, Read, dispatched) && pos < |c.lines| && !c.lines[pos].InitMark? && !Mine(c, pos)
    ensures Dispatch(c, pos + 1, Read, dispatched)
  {
  }

  lemma ChooseOrder(c: Config, s: State)
    requires ValidConfig(c) && Shape(c, s) && Choosing(s.wpc)
    requires Dispatch(c, s.pos, s.wpc, s.dispatched)
    ensures var s' := ChooseStep(c, s); Dispatch(c, s'.pos, s'.wpc, s'.dispatched)
  {
    if s.wpc.Read? && s.pos < |c.lines| && !c.lines[s.pos].InitMark? && !Mine(c, s.pos) {
      SkipLine(c, s.pos, s.dispatched);
    }
  }

  lemma ChooseBound(c: Config, s: State)
    requires ValidConfig(c) && Shape(c, s) && Choosing(s.wpc)
    requires Bound(c, s.bound, s.dispatched) && HandBound(c, s.wpc, s.pos, s.bound)
    ensures var s' := ChooseStep(c, s);
            Bound(c, s'.bound, s'.dispatched) && HandBound(c, s'.wpc, s'.pos, s'.bound)
  {
  }

  lemma ChooseIdle(c: Config, s: State)
    requires ValidConfig(c) && Shape(c, s) && Choosing(s.wpc)
    requires IdleKnown(s.threads, s.idle, s.wpc)
    ensures var s' := ChooseStep(c, s); IdleKnown(s'.threads, s'.idle, s'.wpc)
  {
    assert s.idle != [] ==> forall t :: t in s.idle ==> t == s.idle[0] || t in s.idle[1..];
  }

  lemma ChooseLocks(c: Config, s: State)
    requires ValidConfig(c) && Shape(c, s) && Choosing(s.wpc)
    requires Locks(s.threads, s.parkLock, s.taskLock)
    ensures var s' := ChooseStep(c, s); Locks(s'.threads, s'.parkLock, s'.taskLock)
  {
    hide WorkerRange, ThreadCount, InRange, ThreadRange, Mine, HasSlot;
  }

  lemma ChooseClosed(c: Config, s: State)
    requires ValidConfig(c) && Shape(c, s) && Choosing(s.wpc)
    requires Closed(s.threads, s.remaining, s.wpc)
    ensures var s' := ChooseStep(c, s); Closed(s'.threads, s'.remaining, s'.wpc)
  {
  }

  lemma ChooseInv(c: Config, s: State)
    requires ValidConfig(c) && Inv(c, s) && Choosing(s.wpc)
    ensures Inv(c, ChooseStep(c, s))
  {
    hide Owned, History, Dispatch, Bound, HandBound, IdleKnown, Locks, Closed, Shape, Mine, HasSlot;
    ChooseShape(c, s);
    ChooseOwned(c, s);
    ChooseHistory(c, s);
    ChooseOrder(c, s);
    ChooseBound(c, s);
    ChooseIdle(c, s);
    ChooseLocks(c, s);
    ChooseClosed(c, s);
  }

  // ---------------------------------------------------------------- handing over a task

  lemma HandOwned(c: Config, s: State)
    requires ValidConfig(c) && Shape(c, s) && Handing(s.wpc)
    requires Owned(s.threads, s.reuse, s.wpc, s.owner)
    ensures var s' := HandStep(c, s); Owned(s'.threads, s'.reuse, s'.wpc, s'.owner)
  {
    hide ThreadsRange, BoundRange, InRange, ThreadCount;
    if s.wpc.TakeTask? && s.reuse != [] {
      assert s.reuse[0] < |s.owner|;
    }
  }

  /** The two stores give every task object of the thread the same line. */
  ghost predicate SameLines(th: Thread, store: seq<nat>, store': seq<nat>) {
    && (forall i :: 0 <= i < |th.queue| ==> Written(store, th.queue[i]) == Written(store', th.queue[i]))
    && (HasTask(th.pc) ==> Written(store, th.pc.task) == Written(store', th.pc.task))
  }

  lemma HistoryStore(c: Config, threads: seq<Thread>, store: seq<nat>, store': seq<nat>, dispatched: seq<Exec>,
                     executed: seq<Exec>)
    requires History(c, threads, store, dispatched, executed)
    requires forall t :: 0 <= t < |threads| ==> SameLines(threads[t], store, store')
    ensures History(c, threads, store', dispatched, executed)
  {
    forall t | 0 <= t < |threads|
      ensures Pending(threads[t], t, store) == Pending(threads[t], t, store')
    {
      assert SameLines(threads[t], store, store');
    }
  }

  lemma OtherInsert(th: Thread, u: nat, e: Exec, store: seq<nat>, dispatched: seq<Exec>, executed: seq<Exec>)
    requires e.thread != u && ThreadHistory(th, u, store, dispatched, executed)
    ensures ThreadHistory(th, u, store, dispatched + [e], executed)
  {
    FilterDrops(dispatched, e, ByThread(u));
  }

  lemma ThreadInsert(th: Thread, t: nat, task: nat, store: seq<nat>, dispatched: seq<Exec>, executed: seq<Exec>)
    requires ThreadHistory(th, t, store, dispatched, executed)
    ensures ThreadHistory(th.(queue := th.queue + [task]), t, store,
                          dispatched + [Exec(t, Written(store, task))], executed)
  {
    hide Filter;
    var e := Exec(t, Written(store, task));
    FilterSnoc(dispatched, e, ByThread(t));
    assert Pending(th.(queue := th.queue + [task]), t, store) == Pending(th, t, store) + [e];
  }

  lemma HistoryInsert(c: Config, threads: seq<Thread>, t: nat, task: nat, line: nat, store: seq<nat>,
                      dispatched: seq<Exec>, executed: seq<Exec>)
    requires c.numThreads > 1 && History(c, threads, store, dispatched, executed)
    requires t < |threads| && Written(store, task) == line
    ensures History(c, threads[t := threads[t].(queue := threads[t].queue + [task])], store,
                    dispatched + [Exec(t, line)], executed)
  {
    hide ThreadHistory, Written;
    ThreadInsert(threads[t], t, task, store, dispatched, executed);
    forall u | 0 <= u < |threads| && u != t
      ensures ThreadHistory(threads[u], u, store, dispatched + [Exec(t, line)], executed)
    {
      OtherInsert(threads[u], u, Exec(t, line), store, dispatched, executed);
    }
  }

  lemma HandHistory(c: Config, s: State)
    requires ValidConfig(c) && Shape(c, s) && Handing(s.wpc)
    requires Owned(s.threads, s.reuse, s.wpc, s.owner) && HandWritten(s.wpc, s.store, s.pos)
    requires History(c, s.threads, s.store, s.dispatched, s.executed)
    ensures var s' := HandStep(c, s); History(c, s'.threads, s'.store, s'.dispatched, s'.executed)
  {
    if s.wpc.Insert? {
      if c.numThreads > 1 {
        HistoryInsert(c, s.threads, s.wpc.t, s.wpc.task, s.pos, s.store, s.dispatched, s.executed);
      }
    } else {
      HandKeepsLines(c, s);
      HistoryStore(c, s.threads, s.store, HandStep(c, s).store, s.dispatched, s.executed);
    }
  }

  /** Writing into the task object in the worker's hand changes no line a thread still has to run. */
  lemma HandKeepsLines(c: Config, s: State)
    requires ValidConfig(c) && Shape(c, s) && Handing(s.wpc) && Owned(s.threads, s.reuse, s.wpc, s.owner)
    ensures forall t :: 0 <= t < |s.threads| ==> SameLines(s.threads[t], s.store, HandStep(c, s).store)
  {
    forall t | 0 <= t < |s.threads|
      ensures SameLines(s.threads[t], s.store, HandStep(c, s).store)
    {
      assert ThreadOwns(s.threads[t], t, s.owner) && ThreadRange(s.threads[t], |s.owner|);
    }
  }

  lemma HandWrites(c: Config, s: State)
    requires ValidConfig(c) && Shape(c, s) && Handing(s.wpc) && HandWritten(s.wpc, s.store, s.pos)
    ensures var s' := HandStep(c, s); HandWritten(s'.wpc, s'.store, s'.pos)
  {
  }

  lemma HandOrder(c: Config, s: State)
    requires ValidConfig(c) && Shape(c, s) && Handing(s.wpc)
    requires Dispatch(c, s.pos, s.wpc, s.dispatched)
    ensures var s' := HandStep(c, s); Dispatch(c, s'.pos, s'.wpc, s'.dispatched)
  {
    hide ThreadsRange, InRange, BoundRange, Dispatch;
    if s.wpc.Insert? {
      DispatchOne(c, s.pos, s.wpc, s.dispatched, 0);
      DispatchOne(c, s.pos, s.wpc, s.dispatched, s.wpc.t);
    }
    SameDispatch(c, s.pos, s.wpc, HandStep(c, s).wpc, s.dispatched);
  }

  /** Handing the line over makes it the next dispatched one. */
  lemma DispatchOne(c: Config, pos: nat, w: WorkerPc, dispatched: seq<Exec>, t: nat)
    requires Dispatch(c, pos, w, dispatched) && w.Insert? && pos < |c.lines| && Mine(c, pos)
    ensures Dispatch(c, pos + 1, Read, dispatched + [Exec(t, pos)])
  {
    MapSnoc(dispatched, Exec(t, pos), LineOf());
  }

  lemma SameDispatch(c: Config, pos: nat, w: WorkerPc, w': WorkerPc, dispatched: seq<Exec>)
    requires Dispatch(c, pos, w, dispatched) && InLine(w)
    ensures InLine(w') ==> Dispatch(c, pos, w', dispatched)
  {
  }

  lemma HandBinding(c: Config, s: State)
    requires ValidConfig(c) && Shape(c, s) && Handing(s.wpc)
    requires Bound(c, s.bound, s.dispatched) && HandBound(c, s.wpc, s.pos, s.bound)
    ensures var s' := HandStep(c, s);
            Bound(c, s'.bound, s'.dispatched) && HandBound(c, s'.wpc, s'.pos, s'.bound)
  {
  }

  lemma HandIdle(c: Config, s: State)
    requires ValidConfig(c) && Shape(c, s) && Handing(s.wpc)
    requires IdleKnown(s.threads, s.idle, s.wpc)
    ensures var s' := HandStep(c, s); IdleKnown(s'.threads, s'.idle, s'.wpc)
  {
  }

  lemma HandLocks(c: Config, s: State)
    requires ValidConfig(c) && Shape(c, s) && Handing(s.wpc)
    requires Locks(s.threads, s.parkLock, s.taskLock)
    ensures var s' := HandStep(c, s); Locks(s'.threads, s'.parkLock, s'.taskLock)
  {
  }

  lemma HandClosed(c: Config, s: State)
    requires ValidConfig(c) && Shape(c, s) && Handing(s.wpc)
    requires Closed(s.threads, s.remaining, s.wpc)
    ensures var s' := HandStep(c, s); Closed(s'.threads, s'.remaining, s'.wpc)
  {
  }

  lemma HandInv(c: Config, s: State)
    requires ValidConfig(c) && Inv(c, s) && Handing(s.wpc)
    ensures Inv(c, HandStep(c, s))
  {
    HandShape(c, s);
    HandOwned(c, s);
    HandHistory(c, s);
    HandWrites(c, s);
    HandOrder(c, s);
    HandBinding(c, s);
    HandIdle(c, s);
    HandLocks(c, s);
    HandClosed(c, s);
  }

  // ---------------------------------------------------------------- closing down

  lemma HistoryTerminate(c: Config, threads: seq<Thread>, t: nat, store: seq<nat>, dispatched: seq<Exec>,
                         executed: seq<Exec>)
    requires History(c, threads, store, dispatched, executed) && t < |threads|
    ensures History(c, threads[t := threads[t].(terminate := true)], store, dispatched, executed)
  {
    assert Pending(threads[t].(terminate := true), t, store) == Pending(threads[t], t, store);
  }

  lemma OwnedTerminate(threads: seq<Thread>, reuse: seq<nat>, w: WorkerPc, owner: seq<Place>, t: nat)
    requires Owned(threads, reuse, w, owner) && t < |threads|
    ensures Owned(threads[t := threads[t].(terminate := true)], reuse, w, owner)
  {
    assert ThreadOwns(threads[t], t, owner);
    OwnedThread(threads, reuse, w, owner, t, threads[t].(terminate := true));
  }

  lemma OwnedElsewhere(threads: seq<Thread>, reuse: seq<nat>, w: WorkerPc, w': WorkerPc, owner: seq<Place>)
    requires Owned(threads, reuse, w, owner) && !w'.Update? && !w'.Insert?
    ensures Owned(threads, reuse, w', owner)
  {
  }

  lemma CloseTasks(c: Config, s: State)
    requires ValidConfig(c) && Shape(c, s) && Closing(s.wpc) && Tasks(c, s)
    ensures Tasks(c, CloseStep(c, s))
  {
    hide History, Owned, ThreadsRange, BoundRange;
    OwnedElsewhere(s.threads, s.reuse, s.wpc, CloseStep(c, s).wpc, s.owner);
    if s.wpc.Terminate? && s.remaining > 0 {
      var t := s.remaining - 1;
      OwnedTerminate(s.threads, s.reuse, CloseStep(c, s).wpc, s.owner, t);
      HistoryTerminate(c, s.threads, t, s.store, s.dispatched, s.executed);
    }
  }

  lemma CloseIdle(c: Config, s: State)
    requires ValidConfig(c) && Shape(c, s) && Closing(s.wpc)
    requires IdleKnown(s.threads, s.idle, s.wpc)
    ensures var s' := CloseStep(c, s); IdleKnown(s'.threads, s'.idle, s'.wpc)
  {
  }

  lemma CloseLocks(c: Config, s: State)
    requires ValidConfig(c) && Shape(c, s) && Closing(s.wpc)
    requires Locks(s.threads, s.parkLock, s.taskLock)
    ensures var s' := CloseStep(c, s); Locks(s'.threads, s'.parkLock, s'.taskLock)
  {
    hide ThreadsRange, BoundRange, InRange, ThreadRange;
  }

  lemma CloseClosed(c: Config, s: State)
    requires ValidConfig(c) && Shape(c, s) && Closing(s.wpc)
    requires Closed(s.threads, s.remaining, s.wpc)
    ensures var s' := CloseStep(c, s); Closed(s'.threads, s'.remaining, s'.wpc)
  {
  }

  lemma CloseInv(c: Config, s: State)
    requires ValidConfig(c) && Inv(c, s) && Closing(s.wpc)
    ensures Inv(c, CloseStep(c, s))
  {
    CloseShape(c, s);
    CloseTasks(c, s);
    CloseIdle(c, s);
    CloseLocks(c, s);
    CloseClosed(c, s);
  }

  // ---------------------------------------------------------------- thread loops

  lemma LoopTasks(c: Config, s: State, t: nat)
    requires ValidConfig(c) && Shape(c, s) && t < |s.threads| && Looping(s.threads[t].pc) && Tasks(c, s)
    ensures Tasks(c, LoopStep(c, s, t))
  {
    var s' := LoopStep(c, s, t);
    assert ThreadOwns(s.threads[t], t, s.owner);
    OwnedThread(s.threads, s.reuse, s.wpc, s.owner, t, s'.threads[t]);
    HistoryGoto(c, s.threads, t, s'.threads[t].pc, s.store, s.dispatched, s.executed);
  }

  lemma LoopLive(c: Config, s: State, t: nat)
    requires ValidConfig(c) && Shape(c, s) && t < |s.threads| && Looping(s.threads[t].pc) && Live(c, s)
    ensures Live(c, LoopStep(c, s, t))
  {
    var s' := LoopStep(c, s, t);
    assert ClosingThread(s.threads[t], t, s.remaining);
    IdleThread(s.threads, s.idle, s.idle, s.wpc, t, s'.threads[t]);
    LocksThread(s.threads, s.parkLock, s.parkLock, s.taskLock, s.taskLock, t, s'.threads[t]);
    ClosedThread(s.threads, s.remaining, s.wpc, t, s'.threads[t]);
  }

  // ---------------------------------------------------------------- thread work

  lemma HistoryTake(c: Config, threads: seq<Thread>, t: nat, last: bool, store: seq<nat>, dispatched: seq<Exec>,
                    executed: seq<Exec>)
    requires History(c, threads, store, dispatched, executed) && c.numThreads > 1
    requires t < |threads| && !threads[t].pc.Run? && threads[t].queue != []
    ensures var th := threads[t];
            History(c, threads[t := th.(queue := th.queue[1..], pc := Run(th.queue[0], last))],
                    store, dispatched, executed)
  {
    var th := threads[t];
    assert Pending(th.(queue := th.queue[1..], pc := Run(th.queue[0], last)), t, store) == Pending(th, t, store);
  }

  lemma OtherRuns(th: Thread, u: nat, e: Exec, store: seq<nat>, dispatched: seq<Exec>, executed: seq<Exec>)
    requires e.thread != u && ThreadHistory(th, u, store, dispatched, executed)
    ensures ThreadHistory(th, u, store, dispatched, executed + [e])
  {
    FilterDrops(executed, e, ByThread(u));
  }

  lemma MoveOver(front: seq<Exec>, e: Exec, rest: seq<Exec>)
    ensures front + ([e] + rest) == (front + [e]) + rest
  {
  }

  lemma ThreadRuns(th: Thread, t: nat, pc: ThreadPc, store: seq<nat>, dispatched: seq<Exec>, executed: seq<Exec>)
    requires th.pc.Run? && !pc.Run? && ThreadHistory(th, t, store, dispatched, executed)
    ensures ThreadHistory(th.(pc := pc), t, store, dispatched, executed + [Exec(t, Written(store, th.pc.task))])
  {
    hide Filter, QueuedOps;
    var e := Exec(t, Written(store, th.pc.task));
    FilterSnoc(executed, e, ByThread(t));
    MoveOver(Filter(executed, ByThread(t)), e, QueuedOps(th.queue, t, store));
  }

  lemma HistoryRun(c: Config, threads: seq<Thread>, t: nat, pc: ThreadPc, store: seq<nat>, dispatched: seq<Exec>,
                   executed: seq<Exec>)
    requires History(c, threads, store, dispatched, executed) && c.numThreads > 1
    requires t < |threads| && threads[t].pc.Run? && !pc.Run?
    ensures History(c, threads[t := threads[t].(pc := pc)], store, dispatched,
                    executed + [Exec(t, Written(store, threads[t].pc.task))])
  {
    var e := Exec(t, Written(store, threads[t].pc.task));
    ThreadRuns(threads[t], t, pc, store, dispatched, executed);
    forall u | 0 <= u < |threads| && u != t
      ensures ThreadHistory(threads[u], u, store, dispatched, executed + [e])
    {
      OtherRuns(threads[u], u, e, store, dispatched, executed);
    }
  }

  predicate Fetching(pc: ThreadPc) { pc.Drain? || pc.FinalDrain? }

  lemma FetchOwned(c: Config, s: State, t: nat)
    requires ValidConfig(c) && Shape(c, s) && t < |s.threads| && Fetching(s.threads[t].pc)
    requires Owned(s.threads, s.reuse, s.wpc, s.owner)
    ensures var s' := WorkStep(c, s, t); Owned(s'.threads, s'.reuse, s'.wpc, s'.owner)
  {
    var th := s.threads[t];
    assert ThreadRange(th, |s.owner|) && ThreadOwns(th, t, s.owner);
    if th.queue != [] {
      OwnedTake(s.threads, s.reuse, s.wpc, s.owner, t, th.pc.FinalDrain?);
    } else {
      OwnedThread(s.threads, s.reuse, s.wpc, s.owner, t, th.(pc := if th.pc.Drain? then ParkTerm else Done));
    }
  }

  lemma FetchHistory(c: Config, s: State, t: nat)
    requires ValidConfig(c) && Shape(c, s) && t < |s.threads| && Fetching(s.threads[t].pc)
    requires History(c, s.threads, s.store, s.dispatched, s.executed)
    ensures var s' := WorkStep(c, s, t); History(c, s'.threads, s'.store, s'.dispatched, s'.executed)
  {
    var th := s.threads[t];
    if th.queue != [] {
      HistoryTake(c, s.threads, t, th.pc.FinalDrain?, s.store, s.dispatched, s.executed);
    } else {
      HistoryGoto(c, s.threads, t, if th.pc.Drain? then ParkTerm else Done, s.store, s.dispatched, s.executed);
    }
  }

  lemma RunTasks(c: Config, s: State, t: nat)
    requires ValidConfig(c) && Shape(c, s) && t < |s.threads| && HasTask(s.threads[t].pc) && Tasks(c, s)
    ensures Tasks(c, WorkStep(c, s, t))
  {
    var th := s.threads[t];
    var pc := WorkStep(c, s, t).threads[t].pc;
    assert ThreadRange(th, |s.owner|) && ThreadOwns(th, t, s.owner);
    if th.pc.Run? {
      OwnedThread(s.threads, s.reuse, s.wpc, s.owner, t, th.(pc := pc));
      HistoryRun(c, s.threads, t, pc, s.store, s.dispatched, s.executed);
    } else {
      HistoryGoto(c, s.threads, t, pc, s.store, s.dispatched, s.executed);
      if th.pc.RecyclePut? {
        OwnedGiveBack(s.threads, s.reuse, s.wpc, s.owner, t, pc, |s.reuse| < c.numThreads * TASK_BUFFER_PER_THREAD - 1);
      } else {
        OwnedThread(s.threads, s.reuse, s.wpc, s.owner, t, th.(pc := pc));
      }
    }
  }

  lemma WorkIdle(c: Config, s: State, t: nat)
    requires ValidConfig(c) && Shape(c, s) && t < |s.threads| && Working(s.threads[t].pc)
    requires IdleKnown(s.threads, s.idle, s.wpc)
    ensures var s' := WorkStep(c, s, t); IdleKnown(s'.threads, s'.idle, s'.wpc)
  {
    IdleThread(s.threads, s.idle, s.idle, s.wpc, t, WorkStep(c, s, t).threads[t]);
  }

  lemma WorkLocks(c: Config, s: State, t: nat)
    requires ValidConfig(c) && Shape(c, s) && t < |s.threads| && Working(s.threads[t].pc)
    requires Locks(s.threads, s.parkLock, s.taskLock)
    ensures var s' := WorkStep(c, s, t); Locks(s'.threads, s'.parkLock, s'.taskLock)
  {
    var s' := WorkStep(c, s, t);
    LocksThread(s.threads, s.parkLock, s.parkLock, s.taskLock, s'.taskLock, t, s'.threads[t]);
  }

  lemma WorkClosed(c: Config, s: State, t: nat)
    requires ValidConfig(c) && Shape(c, s) && t < |s.threads| && Working(s.threads[t].pc)
    requires Closed(s.threads, s.remaining, s.wpc)
    ensures var s' := WorkStep(c, s, t); Closed(s'.threads, s'.remaining, s'.wpc)
  {
    assert ClosingThread(s.threads[t], t, s.remaining);
    ClosedThread(s.threads, s.remaining, s.wpc, t, WorkStep(c, s, t).threads[t]);
  }

  // ---------------------------------------------------------------- parking

  lemma ParkOwned(c: Config, s: State, t: nat)
    requires ValidConfig(c) && Shape(c, s) && t < |s.threads| && Parking(s.threads[t].pc)
    requires Owned(s.threads, s.reuse, s.wpc, s.owner)
    ensures var s' := ParkStep(c, s, t); Owned(s'.threads, s'.reuse, s'.wpc, s'.owner)
  {
    assert ThreadOwns(s.threads[t], t, s.owner);
    OwnedThread(s.threads, s.reuse, s.wpc, s.owner, t, ParkStep(c, s, t).threads[t]);
  }

  lemma ParkHistory(c: Config, s: State, t: nat)
    requires ValidConfig(c) && Shape(c, s) && t < |s.threads| && Parking(s.threads[t].pc)
    requires History(c, s.threads, s.store, s.dispatched, s.executed)
    ensures var s' := ParkStep(c, s, t); History(c, s'.threads, s'.store, s'.dispatched, s'.executed)
  {
    hide History, Shape;
    HistoryGoto(c, s.threads, t, ParkStep(c, s, t).threads[t].pc, s.store, s.dispatched, s.executed);
  }

  lemma ParkIdle(c: Config, s: State, t: nat)
    requires ValidConfig(c) && Shape(c, s) && t < |s.threads| && Parking(s.threads[t].pc)
    requires IdleKnown(s.threads, s.idle, s.wpc)
    ensures var s' := ParkStep(c, s, t); IdleKnown(s'.threads, s'.idle, s'.wpc)
  {
    var s' := ParkStep(c, s, t);
    IdleThread(s.threads, s.idle, s'.idle, s.wpc, t, s'.threads[t]);
  }

  lemma ParkLocks(c: Config, s: State, t: nat)
    requires ValidConfig(c) && Shape(c, s) && t < |s.threads| && Parking(s.threads[t].pc)
    requires Locks(s.threads, s.parkLock, s.taskLock)
    ensures var s' := ParkStep(c, s, t); Locks(s'.threads, s'.parkLock, s'.taskLock)
  {
    var s' := ParkStep(c, s, t);
    LocksThread(s.threads, s.parkLock, s'.parkLock, s.taskLock, s.taskLock, t, s'.threads[t]);
  }

  lemma ParkClosed(c: Config, s: State, t: nat)
    requires ValidConfig(c) && Shape(c, s) && t < |s.threads| && Parking(s.threads[t].pc)
    requires Closed(s.threads, s.remaining, s.wpc)
    ensures var s' := ParkStep(c, s, t); Closed(s'.threads, s'.remaining, s'.wpc)
  {
    assert ClosingThread(s.threads[t], t, s.remaining);
    ClosedThread(s.threads, s.remaining, s.wpc, t, ParkStep(c, s, t).threads[t]);
  }

  // ---------------------------------------------------------------- any thread move

  /** A thread move leaves the worker's own variables alone. */
  ghost predicate WorkerUntouched(s: State, s': State) {
    && s'.pos == s.pos && s'.wpc == s.wpc && s'.bound == s.bound && s'.store == s.store
    && s'.dispatched == s.dispatched && s'.remaining == s.remaining
  }

  lemma WorkFrame(c: Config, s: State, t: nat)
    requires ValidConfig(c) && Shape(c, s) && t < |s.threads| && Working(s.threads[t].pc)
    ensures WorkerUntouched(s, WorkStep(c, s, t))
  {
  }

  lemma ParkFrame(c: Config, s: State, t: nat)
    requires ValidConfig(c) && Shape(c, s) && t < |s.threads| && Parking(s.threads[t].pc)
    ensures WorkerUntouched(s, ParkStep(c, s, t))
  {
  }

  lemma ThreadFrame(c: Config, s: State, t: nat)
    requires ValidConfig(c) && Shape(c, s) && t < |s.threads|
    ensures WorkerUntouched(s, ThreadStep(c, s, t))
  {
    if Working(s.threads[t].pc) {
      WorkFrame(c, s, t);
    } else if Parking(s.threads[t].pc) {
      ParkFrame(c, s, t);
    }
  }

  lemma ThreadTasks(c: Config, s: State, t: nat)
    requires ValidConfig(c) && Shape(c, s) && t < |s.threads| && Tasks(c, s)
    ensures Tasks(c, ThreadStep(c, s, t))
  {
    ThreadFrame(c, s, t);
    if Looping(s.threads[t].pc) {
      LoopTasks(c, s, t);
    } else if Parking(s.threads[t].pc) {
      ParkOwned(c, s, t);
      ParkHistory(c, s, t);
    } else if Fetching(s.threads[t].pc) {
      FetchOwned(c, s, t);
      FetchHistory(c, s, t);
    } else {
      RunTasks(c, s, t);
    }
  }

  lemma ThreadLive(c: Config, s: State, t: nat)
    requires ValidConfig(c) && Shape(c, s) && t < |s.threads| && Live(c, s)
    ensures Live(c, ThreadStep(c, s, t))
  {
    if Looping(s.threads[t].pc) {
      LoopLive(c, s, t);
    } else if Parking(s.threads[t].pc) {
      ParkIdle(c, s, t);
      ParkLocks(c, s, t);
      ParkClosed(c, s, t);
    } else {
      WorkIdle(c, s, t);
      WorkLocks(c, s, t);
      WorkClosed(c, s, t);
    }
  }

  lemma ThreadInv(c: Config, s: State, t: nat)
    requires ValidConfig(c) && Inv(c, s) && t < |s.threads|
    ensures Inv(c, ThreadStep(c, s, t))
  {
    StepShape(c, s, Pthread(t));
    ThreadFrame(c, s, t);
    ThreadTasks(c, s, t);
    ThreadLive(c, s, t);
  }

  // ---------------------------------------------------------------- every run

  lemma StepInv(c: Config, s: State, a: Actor)
    requires ValidConfig(c) && Inv(c, s)
    ensures Inv(c, Step(c, s, a))
  {
    match a
    case Worker =>
      if Choosing(s.wpc) {
        ChooseInv(c, s);
      } else if Handing(s.wpc) {
        HandInv(c, s);
      } else {
        CloseInv(c, s);
      }
    case Pthread(t) =>
      if t < |s.threads| {
        ThreadInv(c, s, t);
      }
  }

  /** Actor `a` takes the worker and its threads from s to s'. */
  ghost predicate Takes(c: Config, s: State, a: Actor, s': State) {
    ValidConfig(c) && Shape(c, s) && s' == Step(c, s, a)
  }

  /** The states that one interleaving goes through. */
  ghost predicate Trace(c: Config, schedule: seq<Actor>, states: seq<State>) {
    && |states| == |schedule| + 1 && states[0] == Init()
    && forall i {:trigger schedule[i]} :: 0 <= i < |schedule| ==> Takes(c, states[i], schedule[i], states[i + 1])
  }

  /** Some interleaving of worker and thread moves leads to this state. */
  ghost predicate Reachable(c: Config, s: State) {
    exists schedule, states :: Trace(c, schedule, states) && s == states[|schedule|]
  }

  lemma {:induction false} TraceInv(c: Config, schedule: seq<Actor>, states: seq<State>, i: nat)
    requires ValidConfig(c) && Trace(c, schedule, states) && i <= |schedule|
    ensures Inv(c, states[i])
  {
    hide Inv, Step, Shape;
    if i == 0 {
      InitInv(c);
    } else {
      TraceInv(c, schedule, states, i - 1);
      assert Takes(c, states[i - 1], schedule[i - 1], states[i]);
      StepInv(c, states[i - 1], schedule[i - 1]);
    }
  }

  /** Every reachable state satisfies the invariants. */
  lemma ReachableInv(c: Config, s: State)
    requires ValidConfig(c) && Reachable(c, s)
    ensures Inv(c, s)
  {
    hide Inv, Takes;
    var schedule, states :| Trace(c, schedule, states) && s == states[|schedule|];
    TraceInv(c, schedule, states, |schedule|);
  }

  lemma InitReachable(c: Config)
    ensures Reachable(c, Init())
  {
    var schedule: seq<Actor> := [];
    assert Trace(c, schedule, [Init()]);
  }

  /** Every interleaving can go on with any actor. */
  lemma StepReachable(c: Config, s: State, a: Actor)
    requires ValidConfig(c) && Reachable(c, s)
    ensures Shape(c, s) && Reachable(c, Step(c, s, a))
  {
    hide Step;
    ReachableInv(c, s);
    var schedule, states :| Trace(c, schedule, states) && s == states[|schedule|];
    TraceSnoc(c, schedule, states, a, Step(c, s, a));
  }

  lemma TraceSnoc(c: Config, schedule: seq<Actor>, states: seq<State>, a: Actor, s': State)
    requires Trace(c, schedule, states) && Takes(c, states[|schedule|], a, s')
    ensures Reachable(c, s')
  {
    hide Takes;
    var schedule', states' := schedule + [a], states + [s'];
    forall i {:trigger schedule'[i]} | 0 <= i < |schedule'|
      ensures Takes(c, states'[i], schedule'[i], states'[i + 1])
    {
      if i < |schedule| {
        assert schedule'[i] == schedule[i];
      }
    }
    assert Trace(c, schedule', states');
  }
}
