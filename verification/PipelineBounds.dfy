/** How much the generator's pipeline holds: queue lengths and task objects, in every interleaving. */
module PipelineBounds {
  import opened Pipeline
  import opened PipelineRuns

  // ---------------------------------------------------------------- objects in use

  function InHand(s: State): nat { |MainHand(s.mpc)| + |ParserHand(s.ppc)| + |WriterHand(s.wpc)| }

  lemma InUse(s: State)
    ensures |Objects(s)| == |s.rq| + |s.wq| + |s.pq| + InHand(s)
  {
  }

  /** The rings of 1024 hold at most 1023, and the objects in use fit into two of them and three hands. */
  predicate Fits(s: State) {
    |s.pq| <= 1023 && |s.wq| <= 1023 && |s.rq| <= 1023 && |s.rq| + |s.wq| + |s.pq| + InHand(s) <= 2 * 1023 + 3
  }

  /** The main thread needs a task object and none came back. */
  predicate Creates(s: State, a: Actor) { a.Main? && s.mpc.Reuse? && s.rq == [] }

  /** A writer finds the reuse ring full, or the main thread collects the objects at the end. */
  predicate Drops(s: State, a: Actor) {
    (a.Writer? && s.wpc.WPut? && |s.rq| >= 1023) || (a.Main? && s.mpc.Collect? && s.rq != [])
  }

  /** One more object for a creation, one less for a drop; a ring only grows while it has room. */
  ghost predicate Demand(s: State, a: Actor, s': State) {
    && |s'.store| == |s.store| + (if Creates(s, a) then 1 else 0)
    && |s'.rq| + |s'.wq| + |s'.pq| + InHand(s') + (if Drops(s, a) then 1 else 0)
         == |s.rq| + |s.wq| + |s.pq| + InHand(s) + (if Creates(s, a) then 1 else 0)
    && (|s'.pq| <= |s.pq| || |s'.pq| <= 1023)
    && (|s'.wq| <= |s.wq| || |s'.wq| <= 1023)
    && (|s'.rq| <= |s.rq| || |s'.rq| <= 1023)
  }

  // ---------------------------------------------------------------- steps

  lemma HandsInStore(s: State)
    requires InStore(Objects(s), |s.store|)
    ensures s.mpc.Fill? || s.mpc.Give? ==> s.mpc.task < |s.store|
    ensures s.ppc.PExtract? || s.ppc.PGive? ==> s.ppc.task < |s.store|
    ensures s.wpc.WRun? || s.wpc.WPut? ==> s.wpc.task < |s.store|
  {
    assert s.mpc.Fill? || s.mpc.Give? ==> s.mpc.task in Objects(s);
    assert s.ppc.PExtract? || s.ppc.PGive? ==> s.ppc.task in Objects(s);
    assert s.wpc.WRun? || s.wpc.WPut? ==> s.wpc.task in Objects(s);
  }

  lemma ReadDemand(c: Capture, s: State)
    requires InStore(Objects(s), |s.store|) && s.pos <= |c.comments|
    requires s.mpc.Read? || s.mpc.Reuse? || s.mpc.Fill? || s.mpc.Give?
    ensures Demand(s, Main, MainStep(c, s))
  {
    hide InStore, Objects;
    HandsInStore(s);
  }

  lemma StopDemand(c: Capture, s: State)
    requires InStore(Objects(s), |s.store|) && s.pos <= |c.comments|
    requires !s.mpc.Read? && !s.mpc.Reuse? && !s.mpc.Fill? && !s.mpc.Give?
    ensures Demand(s, Main, MainStep(c, s))
  {
    hide InStore, Objects;
  }

  lemma ParserDemand(c: Capture, s: State)
    requires InStore(Objects(s), |s.store|)
    ensures Demand(s, Parser, ParserStep(c, s))
  {
    hide InStore, Objects;
    HandsInStore(s);
  }

  lemma WriterDemand(c: Capture, s: State)
    requires InStore(Objects(s), |s.store|)
    ensures Demand(s, Writer, WriterStep(c, s))
  {
    hide InStore, Objects;
    HandsInStore(s);
  }

  lemma StepDemand(c: Capture, s: State, a: Actor)
    requires InStore(Objects(s), |s.store|) && s.pos <= |c.comments|
    ensures Demand(s, a, Step(c, s, a))
  {
    hide InStore, Objects, MainStep, ParserStep, WriterStep, Demand;
    match a
    case Main =>
      if s.mpc.Read? || s.mpc.Reuse? || s.mpc.Fill? || s.mpc.Give? {
        ReadDemand(c, s);
      } else {
        StopDemand(c, s);
      }
    case Parser => ParserDemand(c, s);
    case Writer => WriterDemand(c, s);
  }

  // ---------------------------------------------------------------- every run

  lemma {:induction false} TraceFits(c: Capture, schedule: seq<Actor>, states: seq<State>, i: nat)
    requires Trace(c, Init(), schedule, states) && i <= |schedule|
    ensures Fits(states[i])
  {
    hide InStore, Objects, Step;
    if i == 0 {
    } else {
      TraceFits(c, schedule, states, i - 1);
      assert Takes(c, states[i - 1], schedule[i - 1], states[i]);
      StepDemand(c, states[i - 1], schedule[i - 1]);
    }
  }

  /** No ring overflows, and however long the capture, never more than 2049 task objects are in use. */
  lemma ObjectsAreBounded(c: Capture, s: State)
    requires Reachable(c, s)
    ensures |s.pq| <= 1023 && |s.wq| <= 1023 && |s.rq| <= 1023 && |Objects(s)| <= 2049
  {
    hide Objects, Takes;
    var schedule, states :| Trace(c, Init(), schedule, states) && s == states[|schedule|];
    TraceFits(c, schedule, states, |schedule|);
    InUse(s);
  }

  /**
   A task object is created exactly when the main thread needs one and none came back, and goes
   out of use exactly when the writer finds the reuse ring full or the main thread collects it
   at the end.
   */
  lemma ObjectsOnDemand(c: Capture, s: State, a: Actor)
    requires Reachable(c, s)
    ensures InStore(Objects(s), |s.store|) && s.pos <= |c.comments|
    ensures var s' := Step(c, s, a);
            && |s'.store| == |s.store| + (if Creates(s, a) then 1 else 0)
            && |Objects(s')| + (if Drops(s, a) then 1 else 0) == |Objects(s)| + if Creates(s, a) then 1 else 0
  {
    hide Inv, InStore, Objects, Step;
    ReachableInv(c, s);
    InvShape(c, s);
    InUse(s);
    InUse(Step(c, s, a));
    StepDemand(c, s, a);
  }
}
