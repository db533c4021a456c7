/**
 The writer drops a task when the reuse ring is full (gwriter.c:39), and with it the chance to
 count a failed line. Exactly when the filtered count can be wrong because of that.
 */
module PipelineLoss {
  import opened Pipeline
  import opened PipelineRuns
  import PipelineFinish

  // ---------------------------------------------------------------- only late lines are lost

  /** A failing line whose task can find the reuse ring full. */
  ghost predicate LateFailure(c: Capture, n: nat, upTo: nat) { CAPACITY < n <= upTo && c.Fails(n) }

  /**
   Objects that wait to be counted were run before, and a task about to be returned carries the
   verdict on the last line run.
   */
  ghost predicate Returned(c: Capture, s: State) {
    && |Processed(s)| <= |s.emitted|
    && (s.wpc.WPut? ==> Failed(s.store)(s.wpc.task) == c.Fails(|s.emitted|))
  }

  ghost predicate LostLate(c: Capture, s: State) {
    s.lost > 0 ==> exists n :: LateFailure(c, n, |s.emitted|)
  }

  lemma EmittedCounts(c: Capture, s: State)
    requires InOrder(s)
    ensures s.emitted == UpTo(|s.emitted|)
    ensures ToRun(s) != [] ==> LineOf(s.store)(ToRun(s)[0]) == |s.emitted| + 1
  {
    var all := UpTo(Issued(s));
    assert s.parsed <= all && s.emitted <= s.parsed;
    assert forall i :: 0 <= i < |s.emitted| ==> s.emitted[i] == s.parsed[i] == all[i];
    if ToRun(s) != [] {
      assert s.parsed[|s.emitted|] == all[|s.emitted|];
    }
  }

  lemma MainReturned(c: Capture, s: State)
    requires Owned(s) && s.pos <= |c.comments| && Returned(c, s)
    ensures Returned(c, MainStep(c, s))
  {
    hide NoDup, InStore, Objects;
    HandsInStore(s);
    if s.mpc.Fill? {
      MainApart(s);
    }
  }

  lemma ParserReturned(c: Capture, s: State)
    requires Owned(s) && Returned(c, s)
    ensures Returned(c, ParserStep(c, s))
  {
    hide NoDup, InStore, Objects;
    HandsInStore(s);
    if s.ppc.PExtract? {
      ParserApart(s);
    }
  }

  lemma WriterReturned(c: Capture, s: State)
    requires Owned(s) && InOrder(s) && Verdicts(c, s) && Returned(c, s)
    ensures Returned(c, WriterStep(c, s))
  {
    hide NoDup, InStore, Objects, InOrder;
    HandsInStore(s);
    EmittedCounts(c, s);
    if s.wpc.WRun? {
      assert ToRun(s)[0] == s.wpc.task;
    }
  }

  lemma StepLostLate(c: Capture, s: State, a: Actor)
    requires InStore(Objects(s), |s.store|) && s.pos <= |c.comments| && Returned(c, s) && LostLate(c, s)
    ensures LostLate(c, Step(c, s, a))
  {
    hide InStore, Objects, MainStep, ParserStep;
    match a
    case Main => MainLosesNothing(c, s);
    case Parser => ParserLosesNothing(c, s);
    case Writer =>
      var s' := WriterStep(c, s);
      if s'.lost > s.lost {
        HandsInStore(s);
        assert Failed(s.store)(s.wpc.task);
        assert |Processed(s)| == |s.rq| + 1;
        assert LateFailure(c, |s.emitted|, |s'.emitted|);
      } else if s.lost > 0 {
        var n :| LateFailure(c, n, |s.emitted|);
        assert LateFailure(c, n, |s'.emitted|);
      }
  }

  lemma MainLosesNothing(c: Capture, s: State)
    requires InStore(Objects(s), |s.store|) && s.pos <= |c.comments|
    ensures MainStep(c, s).lost == s.lost && MainStep(c, s).emitted == s.emitted
  {
    hide InStore, Objects;
  }

  lemma ParserLosesNothing(c: Capture, s: State)
    requires InStore(Objects(s), |s.store|)
    ensures ParserStep(c, s).lost == s.lost && ParserStep(c, s).emitted == s.emitted
  {
    hide InStore, Objects;
  }

  lemma {:induction false} TraceLoss(c: Capture, schedule: seq<Actor>, states: seq<State>, i: nat)
    requires Trace(c, Init(), schedule, states) && i <= |schedule|
    ensures Returned(c, states[i]) && LostLate(c, states[i])
  {
    hide Owned, InOrder, Verdicts, Counted, Shutdown, Reading, Returned, LostLate, InStore, Objects, MainStep,
      ParserStep, WriterStep;
    if i == 0 {
      InitReturned(c);
    } else {
      TraceLoss(c, schedule, states, i - 1);
      TraceInv(c, schedule, states, i - 1);
      var s, a := states[i - 1], schedule[i - 1];
      assert Takes(c, s, a, states[i]);
      StepLostLate(c, s, a);
      match a
      case Main => MainReturned(c, s);
      case Parser => ParserReturned(c, s);
      case Writer => WriterReturned(c, s);
    }
  }

  lemma InitReturned(c: Capture)
    ensures Returned(c, Init()) && LostLate(c, Init())
  {
  }

  /** A failed task is only ever dropped for a line with number 1024 or more. */
  lemma LossIsLate(c: Capture, s: State)
    requires Reachable(c, s)
    ensures Returned(c, s) && LostLate(c, s)
  {
    hide Takes, Returned, LostLate;
    var schedule, states :| Trace(c, Init(), schedule, states) && s == states[|schedule|];
    TraceLoss(c, schedule, states, |schedule|);
  }

  // ---------------------------------------------------------------- a run that loses a line

  /** How many lines were read and run, how full the queues are, and how far the writer is with the task in its hand. */
  datatype Gauge = Gauge(read: nat, run: nat, pq: nat, wq: nat, rq: nat, hand: WriterHolds)

  datatype WriterHolds = Nothing | Fresh | Run

  predicate Holds(pc: WriterPc, hand: WriterHolds) {
    match hand
    case Nothing => pc == WNext(false)
    case Fresh => pc.WRun? && !pc.last
    case Run => pc.WPut? && !pc.last
  }

  /** A reachable state with this gauge in which the main thread reads and the parser has nothing in hand. */
  ghost predicate At(c: Capture, s: State, g: Gauge) {
    && Reachable(c, s) && s.mpc.Read? && s.ppc == PNext(false) && Holds(s.wpc, g.hand)
    && s.lineno == g.read && |s.emitted| == g.run && |s.pq| == g.pq && |s.wq| == g.wq && |s.rq| == g.rq
  }

  function Data(c: Capture): nat { DataLines(c, |c.comments|) }

  /** The main thread, in the middle of passing on a line. */
  ghost predicate Passing(c: Capture, s: State, s0: State) {
    && Reachable(c, s) && s.ppc == s0.ppc && s.wpc == s0.wpc && s.emitted == s0.emitted && s.wq == s0.wq
  }

  lemma ReadLine(c: Capture, s: State) returns (s': State)
    requires Reachable(c, s) && s.mpc.Read? && s.lineno < Data(c)
    ensures Passing(c, s', s) && s'.mpc.Reuse? && s'.lineno == s.lineno + 1 && s'.pq == s.pq && s'.rq == s.rq
    decreases if s.pos <= |c.comments| then |c.comments| - s.pos else 0
  {
    hide InStore, Objects, Owned, InOrder, Verdicts, Counted, Shutdown, Reachable;
    ReachableInv(c, s);
    StepReachable(c, s, Main);
    s' := Step(c, s, Main);
    if s'.mpc.Read? {
      s' := ReadLine(c, s');
    }
  }

  /** The main thread reads a line and hands it to the parser. */
  lemma Issue(c: Capture, s: State, g: Gauge) returns (s': State)
    requires At(c, s, g) && g.read < Data(c) && g.pq < CAPACITY
    ensures At(c, s', g.(read := g.read + 1, pq := g.pq + 1, rq := if g.rq == 0 then 0 else g.rq - 1))
  {
    hide InStore, Objects, Reachable, Data, Holds;
    var s1 := ReadLine(c, s);
    StepReachable(c, s1, Main);
    var s2 := Step(c, s1, Main);
    StepReachable(c, s2, Main);
    var s3 := Step(c, s2, Main);
    StepReachable(c, s3, Main);
    s' := Step(c, s3, Main);
  }

  lemma Parse(c: Capture, s: State, g: Gauge) returns (s': State)
    requires At(c, s, g) && g.pq > 0 && g.wq < CAPACITY
    ensures At(c, s', g.(pq := g.pq - 1, wq := g.wq + 1))
  {
    hide InStore, Objects, Reachable, Holds;
    StepReachable(c, s, Parser);
    var s1 := Step(c, s, Parser);
    StepReachable(c, s1, Parser);
    var s2 := Step(c, s1, Parser);
    StepReachable(c, s2, Parser);
    s' := Step(c, s2, Parser);
  }

  lemma TakeTask(c: Capture, s: State, g: Gauge) returns (s': State)
    requires At(c, s, g) && g.hand == Nothing && g.wq > 0
    ensures At(c, s', g.(wq := g.wq - 1, hand := Fresh))
  {
    hide InStore, Objects, Reachable;
    StepReachable(c, s, Writer);
    s' := Step(c, s, Writer);
  }

  lemma RunTask(c: Capture, s: State, g: Gauge) returns (s': State)
    requires At(c, s, g) && g.hand == Fresh
    ensures At(c, s', g.(run := g.run + 1, hand := Run))
  {
    hide InStore, Objects, Reachable;
    StepReachable(c, s, Writer);
    s' := Step(c, s, Writer);
  }

  lemma PutTask(c: Capture, s: State, g: Gauge) returns (s': State)
    requires At(c, s, g) && g.hand == Run && g.rq < CAPACITY
    ensures At(c, s', g.(rq := g.rq + 1, hand := Nothing))
  {
    hide InStore, Objects, Reachable;
    StepReachable(c, s, Writer);
    s' := Step(c, s, Writer);
  }

  /** The first n lines, one after another through all stages. */
  lemma {:induction false} OneByOne(c: Capture, n: nat) returns (s: State)
    requires n <= Data(c)
    ensures At(c, s, Gauge(n, n, 0, 0, if n == 0 then 0 else 1, Nothing))
    decreases n
  {
    hide At, Data;
    if n == 0 {
      s := Init();
      Start(c);
    } else {
      s := OneByOne(c, n - 1);
      var g := Gauge(n - 1, n - 1, 0, 0, if n == 1 then 0 else 1, Nothing);
      s := Issue(c, s, g);
      s := Parse(c, s, Gauge(n, n - 1, 1, 0, 0, Nothing));
      s := TakeTask(c, s, Gauge(n, n - 1, 0, 1, 0, Nothing));
      s := RunTask(c, s, Gauge(n, n - 1, 0, 0, 0, Fresh));
      s := PutTask(c, s, Gauge(n, n, 0, 0, 0, Run));
    }
  }

  lemma Start(c: Capture)
    ensures At(c, Init(), Gauge(0, 0, 0, 0, 0, Nothing))
  {
    PipelineFinish.LeadsHere(c, Init());
  }

  /** Then one line waits in the writer's hand and k more in its queue. */
  lemma {:induction false} Backlog(c: Capture, n: nat, k: nat) returns (s: State)
    requires n + 1 + k <= Data(c) && k <= CAPACITY
    ensures At(c, s, Gauge(n + 1 + k, n, 0, k, 0, Fresh))
    decreases k
  {
    hide At, Data;
    if k == 0 {
      s := OneByOne(c, n);
      s := Issue(c, s, Gauge(n, n, 0, 0, if n == 0 then 0 else 1, Nothing));
      s := Parse(c, s, Gauge(n + 1, n, 1, 0, 0, Nothing));
      s := TakeTask(c, s, Gauge(n + 1, n, 0, 1, 0, Nothing));
    } else {
      s := Backlog(c, n, k - 1);
      s := Issue(c, s, Gauge(n + k, n, 0, k - 1, 0, Fresh));
      s := Parse(c, s, Gauge(n + 1 + k, n, 1, k - 1, 0, Fresh));
    }
  }

  /** Then the writer runs and returns r of them while nobody fetches any. */
  lemma {:induction false} GiveBack(c: Capture, n: nat, r: nat) returns (s: State)
    requires n + 1 + CAPACITY <= Data(c) && r <= CAPACITY
    ensures At(c, s, Gauge(n + 1 + CAPACITY, n + r, 0, CAPACITY - r, r, Fresh))
    decreases r
  {
    hide At, Data;
    if r == 0 {
      s := Backlog(c, n, CAPACITY);
    } else {
      s := GiveBack(c, n, r - 1);
      var read, wq := n + 1 + CAPACITY, CAPACITY - r + 1;
      s := RunTask(c, s, Gauge(read, n + r - 1, 0, wq, r - 1, Fresh));
      s := PutTask(c, s, Gauge(read, n + r, 0, wq, r - 1, Run));
      s := TakeTask(c, s, Gauge(read, n + r, 0, wq, r, Nothing));
    }
  }

  /** A run that drops the task of a given late failure. */
  lemma LosesLine(c: Capture, n: nat) returns (s: State)
    requires LateFailure(c, n, Data(c))
    ensures Reachable(c, s) && s.lost > 0
  {
    hide InStore, Objects, Reachable;
    s := GiveBack(c, n - 1 - CAPACITY, CAPACITY);
    s := RunTask(c, s, Gauge(n, n - 1, 0, 0, CAPACITY, Fresh));
    LossIsLate(c, s);
    assert Failed(s.store)(s.wpc.task);
    StepReachable(c, s, Writer);
    s := Step(c, s, Writer);
  }

  // ---------------------------------------------------------------- the count

  lemma {:induction false} LostStays(c: Capture, s: State, schedule: seq<Actor>, states: seq<State>, i: nat)
    requires Trace(c, s, schedule, states) && i <= |schedule|
    ensures states[i].lost >= s.lost
    decreases i
  {
    hide InStore, Objects, Step;
    if i == 0 {
    } else {
      LostStays(c, s, schedule, states, i - 1);
      assert Takes(c, states[i - 1], schedule[i - 1], states[i]);
      StepKeepsLost(c, states[i - 1], schedule[i - 1]);
    }
  }

  lemma StepKeepsLost(c: Capture, s: State, a: Actor)
    requires InStore(Objects(s), |s.store|) && s.pos <= |c.comments|
    ensures Step(c, s, a).lost >= s.lost
  {
    hide InStore, Objects, MainStep, ParserStep;
    MainLosesNothing(c, s);
    ParserLosesNothing(c, s);
  }

  /** What a reachable state leads to is reachable. */
  lemma {:induction false} LeadsReachable(c: Capture, s: State, schedule: seq<Actor>, states: seq<State>, i: nat)
    requires Reachable(c, s) && Trace(c, s, schedule, states) && i <= |schedule|
    ensures Reachable(c, states[i])
    decreases i
  {
    hide Reachable, InStore, Objects, Step;
    if i == 0 {
    } else {
      LeadsReachable(c, s, schedule, states, i - 1);
      assert Takes(c, states[i - 1], schedule[i - 1], states[i]);
      StepReachable(c, states[i - 1], schedule[i - 1]);
    }
  }

  /** The filtered count is the number of failing data lines in every finished run. */
  ghost predicate AlwaysExact(c: Capture) {
    forall s :: Reachable(c, s) && s.mpc.Finished? ==> s.filtered == Count(UpTo(Data(c)), FailsOf(c))
  }

  lemma LossMiscounts(c: Capture, n: nat)
    requires LateFailure(c, n, Data(c))
    ensures !AlwaysExact(c)
  {
    hide Takes, Reachable, LateFailure, Count, FailsOf;
    var s := LosesLine(c, n);
    var end := PipelineFinish.CanFinish(c, s);
    var schedule, states :| Trace(c, s, schedule, states) && end == states[|schedule|];
    LostStays(c, s, schedule, states, |schedule|);
    LeadsReachable(c, s, schedule, states, |schedule|);
    FilteredCount(c, end);
  }

  /** The filtered count is exact in every interleaving if and only if no line with number 1024 or more fails. */
  lemma FilteredExactly(c: Capture)
    ensures AlwaysExact(c) <==> forall n :: 1024 <= n <= Data(c) ==> !c.Fails(n)
  {
    hide Reachable, Count, FailsOf;
    forall n | 1024 <= n <= Data(c) && c.Fails(n)
      ensures !AlwaysExact(c)
    {
      LossMiscounts(c, n);
    }
    if forall n :: 1024 <= n <= Data(c) ==> !c.Fails(n) {
      forall s | Reachable(c, s) && s.mpc.Finished?
        ensures s.filtered == Count(UpTo(Data(c)), FailsOf(c))
      {
        LossIsLate(c, s);
        Conservation(c, s);
      }
    }
  }
}
