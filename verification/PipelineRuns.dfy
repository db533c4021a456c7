/** What holds in every interleaving of the generator's three threads. */
module PipelineRuns {
  import opened Pipeline

  // ---------------------------------------------------------------- traces

  /** Actor `a` takes the pipeline from s to s'. */
  ghost predicate Takes(c: Capture, s: State, a: Actor, s': State) {
    InStore(Objects(s), |s.store|) && s.pos <= |c.comments| && s' == Step(c, s, a)
  }

  /** The states that one interleaving of the three threads goes through, beginning with s. */
  ghost predicate Trace(c: Capture, s: State, schedule: seq<Actor>, states: seq<State>) {
    && |states| == |schedule| + 1 && states[0] == s
    && forall i {:trigger schedule[i]} :: 0 <= i < |schedule| ==> Takes(c, states[i], schedule[i], states[i + 1])
  }

  /** Some interleaving leads from s to s'. */
  ghost predicate Leads(c: Capture, s: State, s': State) {
    exists schedule, states :: Trace(c, s, schedule, states) && s' == states[|schedule|]
  }

  ghost predicate Reachable(c: Capture, s: State) { Leads(c, Init(), s) }

  lemma OwnedInStore(s: State)
    requires Owned(s)
    ensures InStore(Objects(s), |s.store|)
  {
  }

  /** Every step of a trace keeps the invariants. */
  lemma {:induction false} TraceInv(c: Capture, schedule: seq<Actor>, states: seq<State>, i: nat)
    requires Trace(c, Init(), schedule, states) && i <= |schedule|
    ensures Inv(c, states[i])
  {
    hide Owned, InOrder, Verdicts, Counted, MainStep, ParserStep, WriterStep, Shutdown, InStore, Objects;
    if i == 0 {
      InitInv(c);
    } else {
      TraceInv(c, schedule, states, i - 1);
      var s, a := states[i - 1], schedule[i - 1];
      assert Takes(c, s, a, states[i]);
      StepOwned(c, s, a);
      StepReading(c, s, a);
      OwnedInStore(s);
      match a
      case Main =>
        MainInOrder(c, s);
        MainCounted(c, s);
        MainVerdicts(c, s);
        MainShutdown(c, s);
      case Parser =>
        ParserInOrder(c, s);
        ParserCounted(c, s);
        ParserVerdicts(c, s);
        ParserShutdown(c, s);
      case Writer =>
        WriterInOrder(c, s);
        WriterCounted(c, s);
        WriterVerdicts(c, s);
        WriterShutdown(c, s);
    }
  }

  /** Every reachable state satisfies the invariants. */
  lemma ReachableInv(c: Capture, s: State)
    requires Reachable(c, s)
    ensures Inv(c, s)
  {
    hide Inv, Takes;
    var schedule, states :| Trace(c, Init(), schedule, states) && s == states[|schedule|];
    TraceInv(c, schedule, states, |schedule|);
  }

  /** Every interleaving can go on with any thread. */
  lemma StepReachable(c: Capture, s: State, a: Actor)
    requires Reachable(c, s)
    ensures InStore(Objects(s), |s.store|) && s.pos <= |c.comments| && Reachable(c, Step(c, s, a))
  {
    hide Step, Inv, InStore, Objects;
    ReachableInv(c, s);
    InvShape(c, s);
    var schedule, states :| Trace(c, Init(), schedule, states) && s == states[|schedule|];
    TraceSnoc(c, Init(), schedule, states, a, Step(c, s, a));
  }

  lemma TraceSnoc(c: Capture, s: State, schedule: seq<Actor>, states: seq<State>, a: Actor, s': State)
    requires Trace(c, s, schedule, states) && Takes(c, states[|schedule|], a, s')
    ensures Leads(c, s, s')
  {
    hide Takes;
    var schedule', states' := schedule + [a], states + [s'];
    forall i {:trigger schedule'[i]} | 0 <= i < |schedule'|
      ensures Takes(c, states'[i], schedule'[i], states'[i + 1])
    {
      if i < |schedule| {
        assert schedule'[i] == schedule[i];
      }
    }
    assert Trace(c, s, schedule', states');
  }

  // ---------------------------------------------------------------- every run

  lemma {:induction false} DataLinesGrow(c: Capture, m: nat, n: nat)
    requires m <= n <= |c.comments|
    ensures DataLines(c, m) <= DataLines(c, n)
    decreases n
  {
    if m == n {
    } else {
      DataLinesGrow(c, m, n - 1);
    }
  }

  /** At every moment the lines written so far are the first data lines of the capture, each once, in file order. */
  lemma FileOrder(c: Capture, s: State)
    requires Reachable(c, s)
    ensures s.emitted <= s.parsed <= UpTo(DataLines(c, |c.comments|))
  {
    ReachableInv(c, s);
    DataLinesGrow(c, s.pos, |c.comments|);
    assert UpTo(Issued(s)) <= UpTo(DataLines(c, |c.comments|));
  }

  /** gtask_init only writes into a task object that no queue and no other thread holds. */
  lemma InitOverwritesNothing(c: Capture, s: State)
    requires Reachable(c, s) && s.mpc.Fill?
    ensures var t := s.mpc.task;
            t !in s.rq && t !in s.wq && t !in s.pq && t !in ParserHand(s.ppc) && t !in WriterHand(s.wpc)
  {
    ReachableInv(c, s);
    MainApart(s);
  }

  /**
   Conservation: when the main thread has finished, every data line has been parsed and run
   exactly once in file order, all three queues are empty, and the filtered count together
   with the failed tasks the reuse ring refused is the number of failed lines.
   */
  lemma Conservation(c: Capture, s: State)
    requires Reachable(c, s) && s.mpc.Finished?
    ensures var all := UpTo(DataLines(c, |c.comments|));
            && s.parsed == all && s.emitted == all && s.lineno == |all|
            && s.pq == [] && s.wq == [] && s.rq == []
            && s.filtered + s.lost == Count(all, FailsOf(c))
  {
    ReachableInv(c, s);
    assert ToParse(s) == [] && ToRun(s) == [];
  }

  /**
   The filtered count never exceeds the failed lines, and at the end it is exact precisely when
   no failed task was dropped.
   */
  lemma FilteredCount(c: Capture, s: State)
    requires Reachable(c, s)
    ensures s.filtered <= Count(s.emitted, FailsOf(c))
    ensures s.mpc.Finished? ==>
              (s.filtered == Count(UpTo(DataLines(c, |c.comments|)), FailsOf(c)) <==> s.lost == 0)
  {
    ReachableInv(c, s);
    if s.mpc.Finished? {
      Conservation(c, s);
    }
  }

  /** Two-stage shutdown: each thread ends with its own queue empty, after everything that could fill it has ended. */
  lemma StagesDrain(c: Capture, s: State)
    requires Reachable(c, s)
    ensures s.ppc.PDone? ==> s.pq == [] && ParserHand(s.ppc) == [] && Stopping(s.mpc)
    ensures s.wpc.WDone? ==> s.wq == [] && s.ppc.PDone?
  {
    ReachableInv(c, s);
  }
}
