/** Every fair run of the generator's three threads finishes. */
module PipelineFair {
  import opened Pipeline
  import opened PipelineRuns
  import opened PipelineFinish

  // ---------------------------------------------------------------- effort

  /** The work left for the parser; looking at an empty queue and at the flag count the same. */
  function ParserEffort(pc: ParserPc, stopping: bool, waiting: bool): nat {
    if pc.PCheck? && !stopping then if waiting then 13 else 12 else 3 * ParserWork(pc, stopping)
  }

  function WriterEffort(pc: WriterPc, stopping: bool, waiting: bool): nat {
    if pc.WCheck? && !stopping then if waiting then 13 else 12 else 3 * WriterWork(pc, stopping)
  }

  function Effort(c: Capture, s: State): nat {
    60 * (if s.pos <= |c.comments| then |c.comments| - s.pos else 0) + 3 * MainWork(s.mpc)
    + 27 * |s.pq| + ParserEffort(s.ppc, s.pterm, s.pq != [])
    + 18 * |s.wq| + WriterEffort(s.wpc, s.wterm, s.wq != []) + 3 * |s.rq|
  }

  predicate ParserPolls(pc: ParserPc) { pc == PNext(false) || pc == PCheck }

  predicate WriterPolls(pc: WriterPc) { pc == WNext(false) || pc == WCheck }

  /** Nothing happened, except that a thread without work went on polling. */
  predicate Polled(s: State, s': State) {
    && s' == s.(ppc := s'.ppc, wpc := s'.wpc)
    && (s'.ppc == s.ppc || (s.pq == [] && !s.pterm && ParserPolls(s.ppc) && ParserPolls(s'.ppc)))
    && (s'.wpc == s.wpc || (s.wq == [] && !s.wterm && WriterPolls(s.wpc) && WriterPolls(s'.wpc)))
  }

  /** A move lowers the effort, or is idle. */
  ghost predicate Settles(c: Capture, s: State, s': State) {
    Effort(c, s') < Effort(c, s) || (Effort(c, s') == Effort(c, s) && Polled(s, s'))
  }

  lemma MainSettles(c: Capture, s: State)
    requires InStore(Objects(s), |s.store|) && s.pos <= |c.comments| && Shutdown(s)
    ensures Settles(c, s, MainStep(c, s))
  {
    hide InStore, Objects, Settles, MainStep, Shutdown;
    if s.mpc.Give? || s.mpc.StopParser? || s.mpc.StopWriter? {
      SignalSettles(c, s);
    } else if s.mpc.Reuse? || s.mpc.Collect? {
      FetchSettles(c, s);
    } else if s.mpc.Read? {
      ReadSettles(c, s);
    } else {
      QuietSettles(c, s);
    }
  }

  /** Moves of the main thread that the other threads see. */
  lemma SignalSettles(c: Capture, s: State)
    requires InStore(Objects(s), |s.store|) && s.pos <= |c.comments|
    requires s.mpc.Give? || s.mpc.StopParser? || s.mpc.StopWriter?
    ensures Settles(c, s, MainStep(c, s))
  {
    hide InStore, Objects;
  }

  lemma FetchSettles(c: Capture, s: State)
    requires InStore(Objects(s), |s.store|) && s.pos <= |c.comments| && (s.mpc.Reuse? || s.mpc.Collect?)
    ensures Settles(c, s, MainStep(c, s))
  {
    hide InStore, Objects, ParserEffort, WriterEffort;
  }

  lemma ReadSettles(c: Capture, s: State)
    requires InStore(Objects(s), |s.store|) && s.pos <= |c.comments| && s.mpc.Read?
    ensures Settles(c, s, MainStep(c, s))
  {
    hide InStore, Objects, ParserEffort, WriterEffort, Polled;
  }

  lemma QuietSettles(c: Capture, s: State)
    requires InStore(Objects(s), |s.store|) && s.pos <= |c.comments|
    requires !s.mpc.Give? && !s.mpc.StopParser? && !s.mpc.StopWriter? && !s.mpc.Reuse? && !s.mpc.Collect?
             && !s.mpc.Read?
    ensures Settles(c, s, MainStep(c, s))
  {
    hide InStore, Objects, ParserEffort, WriterEffort;
  }

  lemma ParserSettles(c: Capture, s: State)
    requires InStore(Objects(s), |s.store|) && Shutdown(s)
    ensures Settles(c, s, ParserStep(c, s))
  {
    hide InStore, Objects, Shutdown, Settles, ParserStep;
    if s.ppc.PGive? {
      PassOnSettles(c, s);
    } else if s.ppc.PExtract? {
      ExtractSettles(c, s);
    } else {
      ParserPollSettles(c, s);
    }
  }

  lemma PassOnSettles(c: Capture, s: State)
    requires InStore(Objects(s), |s.store|) && s.ppc.PGive?
    ensures Settles(c, s, ParserStep(c, s))
  {
    hide InStore, Objects;
  }

  lemma ExtractSettles(c: Capture, s: State)
    requires InStore(Objects(s), |s.store|) && s.ppc.PExtract?
    ensures Settles(c, s, ParserStep(c, s))
  {
    hide InStore, Objects, WriterEffort, MainWork;
  }

  lemma ParserPollSettles(c: Capture, s: State)
    requires InStore(Objects(s), |s.store|) && Shutdown(s) && !s.ppc.PGive? && !s.ppc.PExtract?
    ensures Settles(c, s, ParserStep(c, s))
  {
    hide InStore, Objects, WriterEffort, MainWork;
  }

  lemma WriterSettles(c: Capture, s: State)
    requires InStore(Objects(s), |s.store|) && Shutdown(s)
    ensures Settles(c, s, WriterStep(c, s))
  {
    hide InStore, Objects, Shutdown, Settles, WriterStep;
    if s.wpc.WRun? {
      RunSettles(c, s);
    } else if s.wpc.WPut? {
      PutSettles(c, s);
    } else {
      WriterPollSettles(c, s);
    }
  }

  lemma RunSettles(c: Capture, s: State)
    requires InStore(Objects(s), |s.store|) && s.wpc.WRun?
    ensures Settles(c, s, WriterStep(c, s))
  {
    hide InStore, Objects, ParserEffort, MainWork;
  }

  lemma PutSettles(c: Capture, s: State)
    requires InStore(Objects(s), |s.store|) && s.wpc.WPut?
    ensures Settles(c, s, WriterStep(c, s))
  {
    hide InStore, Objects, ParserEffort, MainWork, Polled;
    var s' := WriterStep(c, s);
    assert s'.wpc == WNext(s.wpc.last) && s'.wq == s.wq;
    assert |s'.rq| <= |s.rq| + 1;
    assert WriterEffort(s'.wpc, s'.wterm, s'.wq != []) + 12 == WriterEffort(s.wpc, s.wterm, s.wq != []);
  }

  lemma WriterPollSettles(c: Capture, s: State)
    requires InStore(Objects(s), |s.store|) && Shutdown(s) && !s.wpc.WRun? && !s.wpc.WPut?
    ensures Settles(c, s, WriterStep(c, s))
  {
    hide InStore, Objects, ParserEffort, MainWork;
  }

  /** The next state when this thread has its turn. */
  ghost function Next(c: Capture, s: State, a: Actor): (s': State)
    requires Reachable(c, s)
    ensures Reachable(c, s')
  {
    StepReachable(c, s, a);
    Step(c, s, a)
  }

  lemma StepSettles(c: Capture, s: State, a: Actor)
    requires Reachable(c, s)
    ensures Settles(c, s, Next(c, s, a))
  {
    hide InStore, Objects, Owned, InOrder, Verdicts, Counted, Shutdown, Settles, Reachable, MainStep, ParserStep,
      WriterStep;
    ReachableInv(c, s);
    StepReachable(c, s, a);
    OwnedInStore(s);
    match a
    case Main => MainSettles(c, s);
    case Parser => ParserSettles(c, s);
    case Writer => WriterSettles(c, s);
  }

  // ---------------------------------------------------------------- who gets on

  predicate WriterDue(s: State) { WriterBusy(s) || (s.wterm && !s.wpc.WDone?) }

  predicate ParserDue(s: State) { ParserBusy(s) || (s.pterm && !s.ppc.PDone?) }

  /** The last stage with something to do. */
  function Due(s: State): Actor { if WriterDue(s) then Writer else if ParserDue(s) then Parser else Main }

  lemma PolledSameDue(s: State, s': State)
    requires Polled(s, s')
    ensures Due(s') == Due(s) && s'.mpc == s.mpc
  {
  }

  lemma WriterGetsOn(c: Capture, s: State)
    requires InStore(Objects(s), |s.store|) && s.pos <= |c.comments| && Shutdown(s) && WriterDue(s)
    ensures !Polled(s, WriterStep(c, s))
  {
    hide InStore, Objects;
  }

  lemma ParserGetsOn(c: Capture, s: State)
    requires InStore(Objects(s), |s.store|) && s.pos <= |c.comments| && Shutdown(s) && !WriterDue(s) && ParserDue(s)
    ensures !Polled(s, ParserStep(c, s))
  {
    hide InStore, Objects;
  }

  lemma MainGetsOn(c: Capture, s: State)
    requires InStore(Objects(s), |s.store|) && s.pos <= |c.comments| && Shutdown(s) && !WriterDue(s) && !ParserDue(s)
    requires !s.mpc.Finished?
    ensures !Polled(s, MainStep(c, s))
  {
    hide InStore, Objects;
  }

  lemma DueGetsOn(c: Capture, s: State)
    requires Reachable(c, s) && !s.mpc.Finished?
    ensures Effort(c, Next(c, s, Due(s))) < Effort(c, s)
  {
    hide InStore, Objects, Owned, InOrder, Verdicts, Counted, Shutdown, Reachable, MainStep, ParserStep, WriterStep,
      Polled, Effort, WriterDue, ParserDue;
    ReachableInv(c, s);
    OwnedInStore(s);
    StepReachable(c, s, Due(s));
    StepSettles(c, s, Due(s));
    match Due(s)
    case Main => MainGetsOn(c, s);
    case Parser => ParserGetsOn(c, s);
    case Writer => WriterGetsOn(c, s);
  }

  // ---------------------------------------------------------------- rounds

  /** The state after some moves, first move first. */
  ghost function Later(c: Capture, s: State, moves: seq<Actor>): (s': State)
    requires Reachable(c, s)
    ensures Reachable(c, s')
    decreases |moves|
  {
    if moves == [] then s else Later(c, Next(c, s, moves[0]), moves[1..])
  }

  lemma {:induction false} LaterSettles(c: Capture, s: State, moves: seq<Actor>)
    requires Reachable(c, s)
    ensures Effort(c, Later(c, s, moves)) <= Effort(c, s)
    decreases |moves|
  {
    hide Reachable, Effort, Next;
    if moves == [] {
    } else {
      StepSettles(c, s, moves[0]);
      LaterSettles(c, Next(c, s, moves[0]), moves[1..]);
    }
  }

  /** When the last stage with something to do has its turn, the effort has dropped. */
  lemma {:induction false} TurnLowers(c: Capture, s: State, moves: seq<Actor>)
    requires Reachable(c, s) && !s.mpc.Finished? && Due(s) in moves
    ensures Effort(c, Later(c, s, moves)) < Effort(c, s)
    decreases |moves|
  {
    hide Reachable, Effort, Next, Due, Polled;
    var a := moves[0];
    StepSettles(c, s, a);
    var s1 := Next(c, s, a);
    LaterSettles(c, s1, moves[1..]);
    if a == Due(s) {
      DueGetsOn(c, s);
    } else if Effort(c, s1) == Effort(c, s) {
      PolledSameDue(s, s1);
      TurnLowers(c, s1, moves[1..]);
    }
  }

  // ---------------------------------------------------------------- every fair run

  ghost function AfterRounds(c: Capture, s: State, rounds: nat -> seq<Actor>, n: nat): (s': State)
    requires Reachable(c, s)
    ensures Reachable(c, s')
  {
    if n == 0 then s else Later(c, AfterRounds(c, s, rounds, n - 1), rounds(n - 1))
  }

  /** Every thread gets a turn in every round. */
  ghost predicate FairRun(rounds: nat -> seq<Actor>) {
    forall n: nat :: Main in rounds(n) && Parser in rounds(n) && Writer in rounds(n)
  }

  lemma {:induction false} FinishesFrom(c: Capture, s: State, rounds: nat -> seq<Actor>, k: nat) returns (n: nat)
    requires Reachable(c, s) && FairRun(rounds)
    ensures AfterRounds(c, s, rounds, n).mpc.Finished?
    decreases Effort(c, AfterRounds(c, s, rounds, k))
  {
    hide Reachable, Effort, Later, Due;
    var s' := AfterRounds(c, s, rounds, k);
    if s'.mpc.Finished? {
      return k;
    }
    assert Main in rounds(k) && Parser in rounds(k) && Writer in rounds(k);
    assert Due(s') in rounds(k) by {
      match Due(s')
      case Main =>
      case Parser =>
      case Writer =>
    }
    TurnLowers(c, s', rounds(k));
    assert AfterRounds(c, s, rounds, k + 1) == Later(c, s', rounds(k));
    n := FinishesFrom(c, s, rounds, k + 1);
  }

  /**
   From every reachable state, every run in which each thread gets its turns comes to the point
   where the generator has finished.
   */
  lemma EveryFairRunFinishes(c: Capture, s: State, rounds: nat -> seq<Actor>) returns (n: nat)
    requires Reachable(c, s) && FairRun(rounds)
    ensures AfterRounds(c, s, rounds, n).mpc.Finished?
  {
    hide Reachable, FairRun, AfterRounds;
    n := FinishesFrom(c, s, rounds, 0);
  }
}
