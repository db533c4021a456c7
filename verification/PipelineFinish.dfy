/** From every reachable state the generator's three threads can run to the end. */
module PipelineFinish {
  import opened Pipeline
  import opened PipelineRuns

  // ---------------------------------------------------------------- remaining work

  function MainWork(pc: MainPc): nat {
    match pc
    case Read => 60
    case Reuse => 73
    case Fill(_) => 72
    case Give(_) => 71
    case StopParser => 50
    case JoinParser => 40
    case StopWriter => 30
    case JoinWriter => 20
    case Collect => 10
    case Finished => 0
  }

  /** How far a thread is from its end, or from looking at its queue again. */
  function Phase(last: bool, stopping: bool): nat { if last then 2 else if stopping then 6 else 4 }

  function ParserWork(pc: ParserPc, stopping: bool): nat {
    match pc
    case PNext(last) => Phase(last, stopping)
    case PExtract(_, last) => Phase(last, stopping) + 8
    case PGive(_, last) => Phase(last, stopping) + 7
    case PCheck => 5
    case PDone => 0
  }

  function WriterWork(pc: WriterPc, stopping: bool): nat {
    match pc
    case WNext(last) => Phase(last, stopping)
    case WRun(_, last) => Phase(last, stopping) + 5
    case WPut(_, last) => Phase(last, stopping) + 4
    case WCheck => 5
    case WDone => 0
  }

  function Work(c: Capture, s: State): nat
    requires s.pos <= |c.comments|
  {
    20 * (|c.comments| - s.pos) + MainWork(s.mpc) + 9 * |s.pq| + ParserWork(s.ppc, s.pterm)
    + 6 * |s.wq| + WriterWork(s.wpc, s.wterm) + |s.rq|
  }

  // ---------------------------------------------------------------- the next helpful step

  predicate WriterBusy(s: State) { s.wq != [] || WriterHand(s.wpc) != [] }

  predicate ParserBusy(s: State) { s.pq != [] || ParserHand(s.ppc) != [] }

  ghost predicate Advances(c: Capture, s: State, a: Actor)
    requires InStore(Objects(s), |s.store|) && s.pos <= |c.comments|
  {
    Step(c, s, a).pos <= |c.comments| && Work(c, Step(c, s, a)) < Work(c, s)
  }

  lemma WriterAdvances(c: Capture, s: State)
    requires InStore(Objects(s), |s.store|) && s.pos <= |c.comments| && Shutdown(s)
    requires WriterBusy(s) || (s.wterm && !s.wpc.WDone?)
    ensures Advances(c, s, Writer)
  {
    hide InStore, Objects;
  }

  lemma ParserAdvances(c: Capture, s: State)
    requires InStore(Objects(s), |s.store|) && s.pos <= |c.comments| && Shutdown(s) && !WriterBusy(s)
    requires ParserBusy(s) || (s.pterm && !s.ppc.PDone?)
    ensures Advances(c, s, Parser)
  {
    hide InStore, Objects;
  }

  lemma MainAdvances(c: Capture, s: State)
    requires InStore(Objects(s), |s.store|) && s.pos <= |c.comments| && Shutdown(s)
    requires !WriterBusy(s) && !ParserBusy(s) && !s.mpc.Finished?
    requires (s.pterm ==> s.ppc.PDone?) && (s.wterm ==> s.wpc.WDone?)
    ensures Advances(c, s, Main)
  {
    hide InStore, Objects;
  }

  /** No deadlock: some thread has a step that brings the end closer. */
  lemma SomeoneAdvances(c: Capture, s: State) returns (a: Actor)
    requires Inv(c, s) && !s.mpc.Finished?
    ensures InStore(Objects(s), |s.store|) && Advances(c, s, a)
  {
    hide InStore, Objects, Advances, InOrder, Counted, Verdicts, Shutdown;
    InvShape(c, s);
    if WriterBusy(s) || (s.wterm && !s.wpc.WDone?) {
      a := Writer;
      WriterAdvances(c, s);
    } else if ParserBusy(s) || (s.pterm && !s.ppc.PDone?) {
      a := Parser;
      ParserAdvances(c, s);
    } else {
      a := Main;
      MainAdvances(c, s);
    }
  }

  lemma LeadsHere(c: Capture, s: State)
    ensures Leads(c, s, s)
  {
    var schedule: seq<Actor> := [];
    assert Trace(c, s, schedule, [s]);
  }

  lemma LeadsOn(c: Capture, s: State, a: Actor, s1: State, end: State)
    requires Takes(c, s, a, s1) && Leads(c, s1, end)
    ensures Leads(c, s, end)
  {
    hide Takes;
    var schedule, states :| Trace(c, s1, schedule, states) && end == states[|schedule|];
    var schedule', states' := [a] + schedule, [s] + states;
    forall i {:trigger schedule'[i]} | 0 <= i < |schedule'|
      ensures Takes(c, states'[i], schedule'[i], states'[i + 1])
    {
      if i > 0 {
        assert schedule'[i] == schedule[i - 1];
      }
    }
    assert Trace(c, s, schedule', states');
  }

  /** However far an interleaving has got, it can be continued until the generator has finished. */
  lemma {:induction false} CanFinish(c: Capture, s: State) returns (end: State)
    requires Reachable(c, s)
    ensures Leads(c, s, end) && end.mpc.Finished?
    decreases if s.pos <= |c.comments| then Work(c, s) else 0
  {
    hide Inv, InStore, Objects, Reachable;
    ReachableInv(c, s);
    InvShape(c, s);
    if s.mpc.Finished? {
      end := s;
      LeadsHere(c, s);
    } else {
      var a := SomeoneAdvances(c, s);
      StepReachable(c, s, a);
      end := CanFinish(c, Step(c, s, a));
      LeadsOn(c, s, a, Step(c, s, a), end);
    }
  }
}
