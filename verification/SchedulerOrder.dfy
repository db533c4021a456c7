/** What holds in every run of one replay worker: order, binding, ownership, completion. */
module SchedulerOrder {
  import opened Seqs
  import opened Scheduler
  import opened SchedulerInv

  // ---------------------------------------------------------------- journal order per id

  /** The journal lines of one vsize id that this worker is responsible for, before the "#INIT" mark. */
  function LinesOf(c: Config, n: nat, id: nat): seq<nat>
    requires n <= |c.lines| && c.numWorkers > 0
  {
    Filter(Accepted(c, n), HasId(c, id))
  }

  function HasId(c: Config, id: nat): nat -> bool { (i: nat) => Id(c, i) == id }

  function OpHasId(c: Config, id: nat): Exec -> bool { (e: Exec) => Id(c, e.line) == id }

  lemma {:induction false} AcceptedPrefix(c: Config, m: nat, n: nat)
    requires m <= n <= |c.lines| && c.numWorkers > 0
    ensures Accepted(c, m) <= Accepted(c, n)
    decreases n
  {
    if m == n {
    } else {
      AcceptedPrefix(c, m, n - 1);
    }
  }

  /** All operations of a storable id go to one thread, the one rthread_map names. */
  lemma OneThreadPerId(c: Config, s: State, e: Exec)
    requires ValidConfig(c) && Inv(c, s) && c.numThreads > 1
    requires e in s.executed && HasSlot(c, Id(c, e.line))
    ensures Id(c, e.line) in s.bound && s.bound[Id(c, e.line)] == e.thread
  {
    ExecutedWasDispatched(c, s, e);
  }

  lemma ExecutedWasDispatched(c: Config, s: State, e: Exec)
    requires ValidConfig(c) && Inv(c, s) && e in s.executed
    ensures e in s.dispatched
  {
    if c.numThreads > 1 {
      assert e in Filter(s.executed, ByThread(e.thread));
      assert ThreadHistory(s.threads[e.thread], e.thread, s.store, s.dispatched, s.executed);
      assert e in Filter(s.dispatched, ByThread(e.thread));
    }
  }

  /** What one thread has run is a prefix of what it was handed. */
  lemma RunPrefix(c: Config, s: State, t: nat)
    requires ValidConfig(c) && Inv(c, s)
    ensures Filter(s.executed, ByThread(t)) <= Filter(s.dispatched, ByThread(t))
  {
    if c.numThreads > 1 {
      if t < |s.threads| {
        assert ThreadHistory(s.threads[t], t, s.store, s.dispatched, s.executed);
      } else {
        FilterNone(s.executed, ByThread(t));
      }
    }
  }

  lemma SameThreadPrefix(c: Config, s: State, id: nat, t: nat)
    requires ValidConfig(c) && Inv(c, s)
    requires forall e :: e in s.dispatched && Id(c, e.line) == id ==> e.thread == t
    ensures Filter(s.executed, OpHasId(c, id)) <= Filter(s.dispatched, OpHasId(c, id))
  {
    var p, q := ByThread(t), OpHasId(c, id);
    forall e | e in s.executed && q(e)
      ensures p(e)
    {
      ExecutedWasDispatched(c, s, e);
    }
    FilterTwice(s.executed, p, q);
    FilterTwice(s.dispatched, p, q);
    RunPrefix(c, s, t);
    FilterPrefix(Filter(s.executed, p), Filter(s.dispatched, p), q);
  }

  /** The ids this worker orders: every id in single-threaded mode, otherwise those rthread_map can store. */
  predicate Ordered(c: Config, id: nat) { c.numThreads == 1 || HasSlot(c, id) }

  lemma ExecutedPrefixOfDispatched(c: Config, s: State, id: nat)
    requires ValidConfig(c) && Inv(c, s) && Ordered(c, id)
    ensures Filter(s.executed, OpHasId(c, id)) <= Filter(s.dispatched, OpHasId(c, id))
  {
    if c.numThreads > 1 {
      var t := if id in s.bound then s.bound[id] else 0;
      SameThreadPrefix(c, s, id, t);
    }
  }

  lemma DispatchedPrefixOfJournal(c: Config, s: State, id: nat)
    requires ValidConfig(c) && Inv(c, s)
    ensures Map(Filter(s.dispatched, OpHasId(c, id)), LineOf()) <= LinesOf(c, Body(c, 0), id)
  {
    FilterMap(s.dispatched, LineOf(), OpHasId(c, id), HasId(c, id));
    AcceptedPrefix(c, s.pos, Body(c, 0));
    FilterPrefix(Accepted(c, s.pos), Accepted(c, Body(c, 0)), HasId(c, id));
  }

  /**
   Replay order: after any interleaving, the operations of an id that have been run are, in
   order, a prefix of the journal's lines for that id.
   */
  lemma ReplayOrder(c: Config, s: State, id: nat)
    requires ValidConfig(c) && Reachable(c, s) && Ordered(c, id)
    ensures Map(Filter(s.executed, OpHasId(c, id)), LineOf()) <= LinesOf(c, Body(c, 0), id)
  {
    hide Inv, Reachable, Filter;
    ReachableInv(c, s);
    ExecutedPrefixOfDispatched(c, s, id);
    MapPrefix(Filter(s.executed, OpHasId(c, id)), Filter(s.dispatched, OpHasId(c, id)), LineOf());
    DispatchedPrefixOfJournal(c, s, id);
  }

  /** An entry of rthread_map, once set, is kept for ever, although its thread may be recycled for other ids. */
  lemma {:induction false} BindingNeverChanges(c: Config, schedule: seq<Actor>, states: seq<State>, i: nat, j: nat,
                                               id: nat)
    requires ValidConfig(c) && Trace(c, schedule, states) && i <= j <= |schedule| && id in states[i].bound
    ensures id in states[j].bound && states[j].bound[id] == states[i].bound[id]
    decreases j
  {
    hide Inv, Step, Shape;
    if i == j {
    } else {
      BindingNeverChanges(c, schedule, states, i, j - 1, id);
      assert Takes(c, states[j - 1], schedule[j - 1], states[j]);
      TraceInv(c, schedule, states, j - 1);
      MoveKeepsBinding(c, states[j - 1], schedule[j - 1], id);
    }
  }

  lemma WorkerKeepsBinding(c: Config, s: State, id: nat)
    requires ValidConfig(c) && Shape(c, s) && HandBound(c, s.wpc, s.pos, s.bound) && id in s.bound
    ensures var s' := WorkerStep(c, s); id in s'.bound && s'.bound[id] == s.bound[id]
  {
    hide Mine, HasSlot, Content, ThreadsRange, InRange, ThreadCount;
    if s.wpc.Bind? {
      assert Id(c, s.pos) !in s.bound;
    }
  }

  lemma MoveKeepsBinding(c: Config, s: State, a: Actor, id: nat)
    requires ValidConfig(c) && Inv(c, s) && id in s.bound
    ensures var s' := Step(c, s, a); id in s'.bound && s'.bound[id] == s.bound[id]
  {
    hide Shape, WorkerStep, ThreadStep, HandBound;
    match a
    case Worker => WorkerKeepsBinding(c, s, id);
    case Pthread(t) =>
      if t < |s.threads| {
        ThreadFrame(c, s, t);
      }
  }

  // ---------------------------------------------------------------- task objects

  /**
   When rtask_update is about to write into a task object, that object is in no queue, no
   thread holds it and the reuse ring does not contain it.
   */
  lemma UpdateOverwritesNothingPending(c: Config, s: State, t: nat)
    requires ValidConfig(c) && Reachable(c, s) && s.wpc.Update?
    ensures s.wpc.task !in s.reuse
    ensures t < |s.threads| ==>
              s.wpc.task !in s.threads[t].queue && (HasTask(s.threads[t].pc) ==> s.threads[t].pc.task != s.wpc.task)
  {
    ReachableInv(c, s);
    if t < |s.threads| {
      assert ThreadOwns(s.threads[t], t, s.owner);
    }
  }

  /**
   A task object queued for one thread is in that queue once and nowhere else: in no other queue,
   in no thread's hand, not in the worker's hand and not in the reuse ring.
   */
  lemma QueuesAreDisjoint(c: Config, s: State, t: nat, i: nat)
    requires ValidConfig(c) && Reachable(c, s) && t < |s.threads| && i < |s.threads[t].queue|
    ensures var k := s.threads[t].queue[i];
            && k !in s.reuse && (s.wpc.Update? || s.wpc.Insert? ==> s.wpc.task != k)
            && (forall j :: 0 <= j < |s.threads[t].queue| && j != i ==> s.threads[t].queue[j] != k)
            && (forall u :: 0 <= u < |s.threads| ==>
                  (u != t ==> k !in s.threads[u].queue) && (HasTask(s.threads[u].pc) ==> s.threads[u].pc.task != k))
  {
    hide Order, Live, Shape, Reachable;
    ReachableInv(c, s);
    assert ThreadOwns(s.threads[t], t, s.owner);
    forall u | 0 <= u < |s.threads|
      ensures ThreadOwns(s.threads[u], u, s.owner)
    {
    }
  }

  // ---------------------------------------------------------------- completion

  lemma {:induction false} DispatchedOnce(es: seq<Exec>, e: Exec)
    requires forall i, j :: 0 <= i < j < |es| ==> es[i].line < es[j].line
    ensures multiset(es)[e] <= 1
    decreases |es|
  {
    if es == [] {
    } else {
      var front := es[..|es| - 1];
      assert es == front + [es[|es| - 1]];
      DispatchedOnce(front, e);
      if e == es[|es| - 1] {
        assert e !in front;
      }
    }
  }

  lemma DispatchedIncreases(c: Config, s: State)
    requires ValidConfig(c) && Inv(c, s)
    ensures forall i, j :: 0 <= i < j < |s.dispatched| ==> s.dispatched[i].line < s.dispatched[j].line
  {
    var lines := Map(s.dispatched, LineOf());
    assert lines == Accepted(c, s.pos);
    assert forall i :: 0 <= i < |s.dispatched| ==> lines[i] == s.dispatched[i].line;
  }

  lemma ExecutedCount(c: Config, s: State, e: Exec)
    requires ValidConfig(c) && Inv(c, s)
    ensures multiset(s.executed)[e] <= multiset(s.dispatched)[e]
  {
    RunPrefix(c, s, e.thread);
    var done, all := Filter(s.executed, ByThread(e.thread)), Filter(s.dispatched, ByThread(e.thread));
    assert all == done + all[|done|..];
    FilterMultiset(s.executed, ByThread(e.thread), e);
    FilterMultiset(s.dispatched, ByThread(e.thread), e);
  }

  /**
   At every moment no journal line has been run more than once, by whichever thread, and only
   accepted lines are run.
   */
  lemma AtMostOnce(c: Config, s: State)
    requires ValidConfig(c) && Reachable(c, s)
    ensures forall i, j :: 0 <= i < j < |s.executed| ==> s.executed[i].line != s.executed[j].line
    ensures forall e :: e in s.executed ==> multiset(s.executed)[e] == 1 && e.line in Accepted(c, Body(c, 0))
  {
    hide Inv, Reachable, Accepted, Body;
    ReachableInv(c, s);
    forall i, j | 0 <= i < j < |s.executed|
      ensures s.executed[i].line != s.executed[j].line
    {
      RunOnce(c, s, i, j);
    }
    forall e | e in s.executed
      ensures multiset(s.executed)[e] == 1 && e.line in Accepted(c, Body(c, 0))
    {
      CountedOnce(c, s, e);
      RunIsAccepted(c, s, e);
    }
  }

  lemma CountedOnce(c: Config, s: State, e: Exec)
    requires ValidConfig(c) && Inv(c, s)
    ensures multiset(s.executed)[e] <= 1
  {
    hide Inv;
    ExecutedCount(c, s, e);
    DispatchedIncreases(c, s);
    DispatchedOnce(s.dispatched, e);
  }

  /** Two operations that were run come from different lines, whichever threads ran them. */
  lemma RunOnce(c: Config, s: State, i: nat, j: nat)
    requires ValidConfig(c) && Inv(c, s) && i < j < |s.executed|
    ensures s.executed[i].line != s.executed[j].line
  {
    hide Inv;
    var a, b := s.executed[i], s.executed[j];
    ExecutedWasDispatched(c, s, a);
    ExecutedWasDispatched(c, s, b);
    DispatchedIncreases(c, s);
    CountedOnce(c, s, b);
    if a == b {
      CountedTwice(s.executed, i, j);
    }
  }

  lemma CountedTwice(es: seq<Exec>, i: nat, j: nat)
    requires i < j < |es| && es[i] == es[j]
    ensures multiset(es)[es[j]] >= 2
  {
    assert es == es[..j] + [es[j]] + es[j + 1..];
    assert es[..j][i] == es[j];
  }

  lemma RunIsAccepted(c: Config, s: State, e: Exec)
    requires ValidConfig(c) && Inv(c, s) && e in s.executed
    ensures e.line in Accepted(c, Body(c, 0))
  {
    ExecutedWasDispatched(c, s, e);
    var i :| 0 <= i < |s.dispatched| && s.dispatched[i] == e;
    assert Map(s.dispatched, LineOf())[i] == e.line;
    AcceptedPrefix(c, s.pos, Body(c, 0));
  }

  /** The error "Didn't expect to have any tasks left!" cannot be reached. */
  lemma NoTasksLeft(c: Config, s: State)
    requires ValidConfig(c) && Reachable(c, s)
    ensures !s.wpc.TasksLeft?
    ensures s.wpc.Destroy? ==> s.wpc.t < |s.threads| && s.threads[s.wpc.t].queue == []
  {
    ReachableInv(c, s);
    if s.wpc.Destroy? {
      assert ClosingThread(s.threads[s.wpc.t], s.wpc.t, s.remaining);
    }
  }

  lemma FinishedThread(c: Config, s: State, t: nat)
    requires ValidConfig(c) && Inv(c, s) && s.wpc.Finished?
    ensures Filter(s.executed, ByThread(t)) == Filter(s.dispatched, ByThread(t))
  {
    if c.numThreads > 1 {
      if t < |s.threads| {
        assert ClosingThread(s.threads[t], t, s.remaining);
        assert ThreadHistory(s.threads[t], t, s.store, s.dispatched, s.executed);
      } else {
        FilterNone(s.executed, ByThread(t));
        FilterNone(s.dispatched, ByThread(t));
      }
    }
  }

  /**
   Exactly once: when the worker has joined and destroyed all threads, every thread has ended
   with an empty queue, and what was run is what was dispatched, operation for operation;
   the dispatched lines are all accepted lines of the journal body in order.
   */
  lemma ExactlyOnce(c: Config, s: State)
    requires ValidConfig(c) && Reachable(c, s) && s.wpc.Finished?
    ensures multiset(s.executed) == multiset(s.dispatched)
    ensures Map(s.dispatched, LineOf()) == Accepted(c, Body(c, 0))
    ensures forall t :: 0 <= t < |s.threads| ==> s.threads[t].pc.Done? && s.threads[t].queue == []
  {
    ReachableInv(c, s);
    forall e: Exec
      ensures multiset(s.executed)[e] == multiset(s.dispatched)[e]
    {
      FinishedThread(c, s, e.thread);
      FilterMultiset(s.executed, ByThread(e.thread), e);
      FilterMultiset(s.dispatched, ByThread(e.thread), e);
    }
    forall t | 0 <= t < |s.threads|
      ensures s.threads[t].pc.Done? && s.threads[t].queue == []
    {
      assert ClosingThread(s.threads[t], t, s.remaining);
    }
  }
}
