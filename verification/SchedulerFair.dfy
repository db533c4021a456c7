/** Every fair run of a worker and its threads finishes. */
module SchedulerFair {
  import opened Scheduler
  import opened SchedulerInv
  import opened SchedulerProgress
  import opened SchedulerFinish

  // ---------------------------------------------------------------- fairness

  /** Thread t makes a move in one of its turns. */
  ghost predicate Served(c: Config, s: State, t: nat, moves: seq<Actor>)
    requires ValidConfig(c) && Shape(c, s)
    decreases |moves|
  {
    moves != [] &&
    (StepShape(c, s, moves[0]);
     var s1 := Step(c, s, moves[0]);
     || (moves[0] == Pthread(t) && s1 != s)
     || Served(c, s1, t, moves[1..]))
  }

  predicate AtMutex(pc: ThreadPc) { pc.ParkLock? || pc.RecycleLock? }

  /**
   Everybody gets a turn, and a thread that waits for a mutex when the round begins gets the
   mutex during the round.
   */
  ghost predicate FairRound(c: Config, s: State, round: seq<Actor>)
    requires ValidConfig(c) && Shape(c, s)
  {
    && Worker in round && Covers(round, c.numThreads)
    && forall t :: 0 <= t < |s.threads| && AtMutex(s.threads[t].pc) ==> Served(c, s, t, round)
  }

  // ---------------------------------------------------------------- the worker's position

  predicate Stands(s: State, s': State) { s'.wpc == s.wpc && s'.pos == s.pos && s'.remaining == s.remaining }

  ghost predicate Nearer(c: Config, s: State, s': State) {
    && s.pos <= |c.lines| && s'.pos <= |c.lines|
    && Ahead(c, s'.pos, s'.wpc, s'.remaining) < Ahead(c, s.pos, s.wpc, s.remaining)
  }

  lemma MoveStands(c: Config, s: State, a: Actor)
    requires ValidConfig(c) && Shape(c, s)
    ensures var s' := Step(c, s, a); Nearer(c, s, s') || (Stands(s, s') && (a.Worker? ==> s' == s))
  {
    hide WorkerStep, ThreadStep;
    StepShape(c, s, a);
    ShapePos(c, s);
    ShapePos(c, Step(c, s, a));
    match a
    case Worker => WorkerAdvances(c, s);
    case Pthread(t) =>
      if t < |s.threads| {
        ThreadFrame(c, s, t);
      }
  }

  lemma ShapePos(c: Config, s: State)
    requires Shape(c, s)
    ensures s.pos <= |c.lines|
  {
  }

  /** The worker never goes back. */
  lemma {:induction false} LaterStands(c: Config, s: State, moves: seq<Actor>)
    requires ValidConfig(c) && Shape(c, s)
    ensures Nearer(c, s, Later(c, s, moves)) || Stands(s, Later(c, s, moves))
    decreases |moves|
  {
    hide Step, Ahead, Shape;
    if moves == [] {
    } else {
      MoveStands(c, s, moves[0]);
      StepShape(c, s, moves[0]);
      LaterStands(c, Step(c, s, moves[0]), moves[1..]);
    }
  }

  lemma NearerFirst(c: Config, s: State, moves: seq<Actor>)
    requires ValidConfig(c) && Shape(c, s) && moves != [] && Nearer(c, s, Step(c, s, moves[0]))
    ensures Nearer(c, s, Later(c, s, moves))
  {
    hide Step, Ahead, Shape;
    StepShape(c, s, moves[0]);
    LaterStands(c, Step(c, s, moves[0]), moves[1..]);
  }

  // ---------------------------------------------------------------- a worker that can move

  lemma EnabledStays(c: Config, s: State, t: nat)
    requires ValidConfig(c) && Shape(c, s) && t < |s.threads| && WorkerStep(c, s) != s
    ensures var s' := ThreadStep(c, s, t); Shape(c, s') && WorkerStep(c, s') != s'
  {
    StepShape(c, s, Pthread(t));
    ThreadFrame(c, s, t);
    ThreadHelpsWorker(c, s, t);
  }

  /** Thread t moved: the idle ring only grew, t's queue did not grow, the other threads are as they were. */
  ghost predicate Eases(s: State, t: nat, s': State) {
    && |s'.threads| == |s.threads| && t < |s.threads| && s.idle <= s'.idle
    && (forall u :: 0 <= u < |s.threads| && u != t ==> s'.threads[u] == s.threads[u])
    && |s'.threads[t].queue| <= |s.threads[t].queue| && s'.threads[t].terminate == s.threads[t].terminate
    && (s.threads[t].pc.Done? ==> s'.threads[t].pc.Done?)
  }

  lemma LoopEases(c: Config, s: State, t: nat)
    requires ValidConfig(c) && Shape(c, s) && t < |s.threads| && Looping(s.threads[t].pc)
    ensures Eases(s, t, LoopStep(c, s, t))
  {
    hide Shape;
  }

  lemma WorkEases(c: Config, s: State, t: nat)
    requires ValidConfig(c) && Shape(c, s) && t < |s.threads| && Working(s.threads[t].pc)
    ensures Eases(s, t, WorkStep(c, s, t))
  {
    hide Shape, Content;
  }

  lemma ParkEases(c: Config, s: State, t: nat)
    requires ValidConfig(c) && Shape(c, s) && t < |s.threads| && Parking(s.threads[t].pc)
    ensures Eases(s, t, ParkStep(c, s, t))
  {
    hide Shape;
  }

  lemma ThreadHelpsWorker(c: Config, s: State, t: nat)
    requires ValidConfig(c) && Shape(c, s) && t < |s.threads|
    ensures Eases(s, t, ThreadStep(c, s, t))
  {
    hide Shape, LoopStep, WorkStep, ParkStep, Eases;
    if Looping(s.threads[t].pc) {
      LoopEases(c, s, t);
    } else if Working(s.threads[t].pc) {
      WorkEases(c, s, t);
    } else {
      ParkEases(c, s, t);
    }
  }

  lemma {:induction false} EnabledMoves(c: Config, s: State, moves: seq<Actor>)
    requires ValidConfig(c) && Shape(c, s) && WorkerStep(c, s) != s && Worker in moves
    ensures Nearer(c, s, Later(c, s, moves))
    decreases |moves|
  {
    hide ThreadStep, WorkerStep, Ahead, Shape;
    MoveStands(c, s, moves[0]);
    StepShape(c, s, moves[0]);
    match moves[0]
    case Worker =>
      NearerFirst(c, s, moves);
    case Pthread(t) =>
      assert Worker in moves[1..];
      if t < |s.threads| {
        EnabledStays(c, s, t);
      }
      EnabledMoves(c, Step(c, s, moves[0]), moves[1..]);
  }

  // ---------------------------------------------------------------- a starved worker

  lemma {:induction false} FedStays(c: Config, s: State, moves: seq<Actor>)
    requires ValidConfig(c) && Shape(c, s) && s.wpc.WaitIdle? && s.idle != []
    ensures var s' := Later(c, s, moves); Nearer(c, s, s') || (Stands(s, s') && s'.idle != [])
    decreases |moves|
  {
    hide Ahead, Shape, ThreadStep;
    if moves == [] {
    } else {
      MoveStands(c, s, moves[0]);
      StepShape(c, s, moves[0]);
      if Nearer(c, s, Step(c, s, moves[0])) {
        NearerFirst(c, s, moves);
      } else {
        IdleStays(c, s, moves[0]);
        FedStays(c, Step(c, s, moves[0]), moves[1..]);
      }
    }
  }

  lemma IdleStays(c: Config, s: State, a: Actor)
    requires ValidConfig(c) && Shape(c, s) && s.idle != [] && Stands(s, Step(c, s, a))
             && (a.Worker? ==> Step(c, s, a) == s)
    ensures Step(c, s, a).idle != []
  {
    hide Shape, WorkerStep, ThreadStep;
    if a.Pthread? && a.t < |s.threads| {
      ThreadHelpsWorker(c, s, a.t);
    }
  }

  /** A worker that was fed on the way has moved, or still can. */
  lemma {:induction false} FedResult(c: Config, s: State, moves: seq<Actor>)
    requires ValidConfig(c) && Shape(c, s) && s.wpc.WaitIdle? && Fed(c, s, moves)
    ensures var s' := Later(c, s, moves); Nearer(c, s, s') || (Stands(s, s') && s'.idle != [])
    decreases |moves|
  {
    hide Ahead, Shape;
    if s.idle != [] {
      FedStays(c, s, moves);
    } else {
      MoveStands(c, s, moves[0]);
      StepShape(c, s, moves[0]);
      if Nearer(c, s, Step(c, s, moves[0])) {
        NearerFirst(c, s, moves);
      } else {
        assert Fed(c, Step(c, s, moves[0]), moves[1..]);
        FedResult(c, Step(c, s, moves[0]), moves[1..]);
        assert Later(c, s, moves) == Later(c, Step(c, s, moves[0]), moves[1..]);
      }
    }
  }

  // ---------------------------------------------------------------- a worker that waits for one thread

  /** The worker has moved, thread t no longer holds it up, or t has at most this much left to do. */
  ghost predicate Helped(c: Config, s: State, s': State, t: nat, duty: int) {
    || Nearer(c, s, s')
    || (Stands(s, s') && (!WaitsFor(c, s', t) || Duty(s'.threads[t]) <= duty))
  }

  /** The worker stands before thread t: inserting into its queue or joining it. */
  predicate Faces(c: Config, s: State, t: nat) {
    t < |s.threads| && c.numThreads > 1 && (s.wpc.Insert? || s.wpc.Join?) && s.wpc.t == t
  }

  /** What thread t has left to do before the worker can go on; nothing counts as -1. */
  function Left(c: Config, s: State, t: nat): int { if WaitsFor(c, s, t) then Duty(s.threads[t]) else -1 }

  lemma FacingMove(c: Config, s: State, a: Actor, t: nat)
    requires ValidConfig(c) && Shape(c, s) && Live(c, s) && Faces(c, s, t)
    ensures var s' := Step(c, s, a);
            && (Nearer(c, s, s') || Faces(c, s', t))
            && Helped(c, s, s', t, Left(c, s, t))
            && (WaitsFor(c, s, t) && a == Pthread(t) && s' != s ==> Helped(c, s, s', t, Duty(s.threads[t]) - 1))
  {
    hide Shape, Live, ThreadStep, WorkerStep, Ahead, Duty;
    MoveStands(c, s, a);
    if a.Pthread? && a.t < |s.threads| {
      ThreadHelpsWorker(c, s, a.t);
      if a.t == t && WaitsFor(c, s, t) && Step(c, s, a) != s {
        DutyOf(c, s, t);
        OwnMoveLowers(c, s, t);
      }
    }
  }

  /** An effective move of a thread the worker waits for leaves it less to do. */
  lemma OwnMoveLowers(c: Config, s: State, t: nat)
    requires ValidConfig(c) && Shape(c, s) && t < |s.threads| && OnDuty(s.threads[t]) && ThreadStep(c, s, t) != s
    ensures var s' := ThreadStep(c, s, t); |s'.threads| == |s.threads| && Duty(s'.threads[t]) < Duty(s.threads[t])
  {
    hide Shape, OnDuty, Duty, LoopStep, WorkStep, ParkStep;
    if Looping(s.threads[t].pc) {
      LoopLowers(c, s, t);
    } else if Working(s.threads[t].pc) {
      WorkLowers(c, s, t);
    } else {
      ParkLowers(c, s, t);
    }
  }

  lemma LoopLowers(c: Config, s: State, t: nat)
    requires ValidConfig(c) && Shape(c, s) && t < |s.threads| && Looping(s.threads[t].pc) && OnDuty(s.threads[t])
    ensures var s' := LoopStep(c, s, t); |s'.threads| == |s.threads| && Duty(s'.threads[t]) < Duty(s.threads[t])
  {
    hide Shape;
  }

  lemma WorkLowers(c: Config, s: State, t: nat)
    requires ValidConfig(c) && Shape(c, s) && t < |s.threads| && Working(s.threads[t].pc) && OnDuty(s.threads[t])
    requires WorkStep(c, s, t) != s
    ensures var s' := WorkStep(c, s, t); |s'.threads| == |s.threads| && Duty(s'.threads[t]) < Duty(s.threads[t])
  {
    hide Shape, Content;
  }

  lemma ParkLowers(c: Config, s: State, t: nat)
    requires ValidConfig(c) && Shape(c, s) && t < |s.threads| && OnDuty(s.threads[t])
    requires Parking(s.threads[t].pc) && ParkStep(c, s, t) != s
    ensures var s' := ParkStep(c, s, t); |s'.threads| == |s.threads| && Duty(s'.threads[t]) < Duty(s.threads[t])
  {
    hide Shape;
  }

  lemma {:induction false} FacingMoves(c: Config, s: State, t: nat, moves: seq<Actor>)
    requires ValidConfig(c) && Inv(c, s) && Faces(c, s, t)
    ensures Helped(c, s, Later(c, s, moves), t, Left(c, s, t))
    decreases |moves|
  {
    hide Tasks, Order, Live, Step, Ahead, Duty, Shape;
    if moves == [] {
    } else {
      FacingMove(c, s, moves[0], t);
      StepInv(c, s, moves[0]);
      var s1 := Step(c, s, moves[0]);
      if Nearer(c, s, s1) {
        NearerFirst(c, s, moves);
      } else {
        FacingMoves(c, s1, t, moves[1..]);
        assert Later(c, s, moves) == Later(c, s1, moves[1..]);
      }
    }
  }

  lemma {:induction false} ServedHelps(c: Config, s: State, t: nat, moves: seq<Actor>)
    requires ValidConfig(c) && Inv(c, s) && WaitsFor(c, s, t) && Served(c, s, t, moves)
    ensures Helped(c, s, Later(c, s, moves), t, Duty(s.threads[t]) - 1)
    decreases |moves|
  {
    hide Tasks, Order, Live, Step, Ahead, Duty, Shape;
    FacingMove(c, s, moves[0], t);
    StepInv(c, s, moves[0]);
    var s1 := Step(c, s, moves[0]);
    assert Later(c, s, moves) == Later(c, s1, moves[1..]);
    if Nearer(c, s, s1) {
      NearerFirst(c, s, moves);
    } else if WaitsFor(c, s1, t) && Served(c, s1, t, moves[1..]) {
      ServedHelps(c, s1, t, moves[1..]);
    } else {
      FacingMoves(c, s1, t, moves[1..]);
    }
  }

  /** A thread the worker waits for uses its first turn, unless it waits for a mutex. */
  lemma {:induction false} TurnServes(c: Config, s: State, t: nat, moves: seq<Actor>)
    requires ValidConfig(c) && Inv(c, s) && WaitsFor(c, s, t) && !AtMutex(s.threads[t].pc) && Pthread(t) in moves
    ensures Served(c, s, t, moves) || Nearer(c, s, Later(c, s, moves))
    decreases |moves|
  {
    hide Tasks, Order, ThreadStep, WorkerStep, Ahead, Shape, Live;
    StepInv(c, s, moves[0]);
    MoveStands(c, s, moves[0]);
    var s1 := Step(c, s, moves[0]);
    if moves[0] == Pthread(t) {
      DutyOf(c, s, t);
      UnblockedMoves(c, s, t);
    } else if Nearer(c, s, s1) {
      NearerFirst(c, s, moves);
    } else {
      if moves[0].Pthread? && moves[0].t < |s.threads| {
        ThreadHelpsWorker(c, s, moves[0].t);
      }
      TurnServes(c, s1, t, moves[1..]);
      assert Later(c, s, moves) == Later(c, s1, moves[1..]);
    }
  }

  // ---------------------------------------------------------------- one round

  /** What the threads have left to do before a worker that cannot move can go on. */
  function Need(c: Config, s: State): nat {
    if Starved(s) then Total(s.threads) + 1
    else if (s.wpc.Insert? || s.wpc.Join?) && WaitsFor(c, s, s.wpc.t) then Duty(s.threads[s.wpc.t]) + 1
    else 0
  }

  /** In a fair round the worker moves, or what it waits for comes closer. */
  lemma RoundHelps(c: Config, s: State, round: seq<Actor>)
    requires ValidConfig(c) && Inv(c, s) && !s.wpc.Finished? && FairRound(c, s, round)
    ensures var s' := Later(c, s, round); Nearer(c, s, s') || (Stands(s, s') && Need(c, s') < Need(c, s))
  {
    hide Tasks, Order, Live, ThreadStep, WorkerStep, Ahead, Duty, Total, Later, Fed, Served, Shape;
    LaterStands(c, s, round);
    NoTasksLeft(c, s);
    if WorkerStep(c, s) != s {
      EnabledMoves(c, s, round);
    } else {
      WhyStuck(c, s);
      if Starved(s) {
        RoundLowers(c, s, round);
        if Fed(c, s, round) {
          FedResult(c, s, round);
        }
      } else {
        var t: nat :| WaitsFor(c, s, t);
        ThreadsCovered(c, s);
        assert Pthread(t) in round;
        if !AtMutex(s.threads[t].pc) {
          TurnServes(c, s, t, round);
        }
        if Served(c, s, t, round) {
          ServedHelps(c, s, t, round);
        }
      }
    }
  }

  lemma NoTasksLeft(c: Config, s: State)
    requires Live(c, s)
    ensures !s.wpc.TasksLeft?
  {
  }

  lemma ThreadsCovered(c: Config, s: State)
    requires Shape(c, s)
    ensures |s.threads| <= c.numThreads
  {
  }

  // ---------------------------------------------------------------- every fair run

  /** The state after the first n rounds. */
  ghost function AfterRounds(c: Config, s: State, rounds: nat -> seq<Actor>, n: nat): (s': State)
    requires ValidConfig(c) && Shape(c, s)
    ensures Shape(c, s')
  {
    if n == 0 then s
    else
      var before := AfterRounds(c, s, rounds, n - 1);
      LaterShape(c, before, rounds(n - 1));
      Later(c, before, rounds(n - 1))
  }

  /** An infinite sequence of rounds, each fair in the state where it begins. */
  ghost predicate FairRun(c: Config, s: State, rounds: nat -> seq<Actor>)
    requires ValidConfig(c) && Shape(c, s)
  {
    forall n: nat :: FairRound(c, AfterRounds(c, s, rounds, n), rounds(n))
  }

  lemma {:induction false} FinishesFrom(c: Config, s: State, rounds: nat -> seq<Actor>, k: nat) returns (n: nat)
    requires ValidConfig(c) && Shape(c, s) && FairRun(c, s, rounds) && Inv(c, AfterRounds(c, s, rounds, k))
    ensures AfterRounds(c, s, rounds, n).wpc.Finished?
    decreases var s' := AfterRounds(c, s, rounds, k);
              if s'.pos <= |c.lines| then Ahead(c, s'.pos, s'.wpc, s'.remaining) else 0,
              Need(c, AfterRounds(c, s, rounds, k))
  {
    hide Tasks, Order, Live, Ahead, Need, FairRound, Later, Shape;
    var s' := AfterRounds(c, s, rounds, k);
    if s'.wpc.Finished? {
      return k;
    }
    assert FairRound(c, s', rounds(k));
    RoundHelps(c, s', rounds(k));
    LaterInv(c, s', rounds(k));
    assert AfterRounds(c, s, rounds, k + 1) == Later(c, s', rounds(k));
    n := FinishesFrom(c, s, rounds, k + 1);
  }

  /** From every reachable state, every fair run comes to the point where the worker has joined all its threads. */
  lemma EveryFairRunFinishes(c: Config, s: State, rounds: nat -> seq<Actor>) returns (n: nat)
    requires ValidConfig(c) && Reachable(c, s) && Shape(c, s) && FairRun(c, s, rounds)
    ensures AfterRounds(c, s, rounds, n).wpc.Finished?
  {
    hide Inv, FairRun, Reachable;
    ReachableInv(c, s);
    n := FinishesFrom(c, s, rounds, 0);
  }

  // ---------------------------------------------------------------- fair rounds exist

  lemma {:induction false} ServedConcat(c: Config, s: State, t: nat, a: seq<Actor>, b: seq<Actor>)
    requires ValidConfig(c) && Shape(c, s)
    requires Served(c, s, t, a) || (LaterShape(c, s, a); Served(c, Later(c, s, a), t, b))
    ensures Served(c, s, t, a + b)
    decreases |a|
  {
    hide Step, Shape;
    if a == [] {
      assert a + b == b;
    } else {
      StepShape(c, s, a[0]);
      LaterShape(c, s, a);
      assert (a + b)[0] == a[0] && (a + b)[1..] == a[1..] + b;
      var s1 := Step(c, s, a[0]);
      if !(a[0] == Pthread(t) && s1 != s) {
        ServedConcat(c, s1, t, a[1..], b);
      }
    }
  }

  /** Only threads move. */
  predicate OnlyThreads(moves: seq<Actor>) { forall i :: 0 <= i < |moves| ==> moves[i].Pthread? }

  lemma {:induction false} UnservedKeeps(c: Config, s: State, t: nat, moves: seq<Actor>)
    requires ValidConfig(c) && Shape(c, s) && t < |s.threads| && OnlyThreads(moves) && !Served(c, s, t, moves)
    ensures var s' := Later(c, s, moves); |s'.threads| == |s.threads| && s'.threads[t] == s.threads[t]
    decreases |moves|
  {
    hide ThreadStep, WorkerStep, Shape;
    if moves == [] {
    } else {
      StepShape(c, s, moves[0]);
      var u := moves[0].t;
      if u < |s.threads| {
        ThreadHelpsWorker(c, s, u);
      }
      UnservedKeeps(c, Step(c, s, moves[0]), t, moves[1..]);
    }
  }

  /** Moves after which a thread that waits for a mutex has got it: first the holder's, then its own. */
  lemma {:induction false} ServeOne(c: Config, s: State, t: nat) returns (moves: seq<Actor>)
    requires ValidConfig(c) && Inv(c, s) && t < |s.threads| && AtMutex(s.threads[t].pc)
    ensures OnlyThreads(moves) && Served(c, s, t, moves)
    decreases Burden(s, t)
  {
    hide Tasks, Order, Live, ThreadStep, Shape;
    if Blocker(s, t).None? {
      UnblockedMoves(c, s, t);
      moves := [Pthread(t)];
    } else {
      var u := Blocker(s, t).value;
      BlockerMoveHelps(c, s, t);
      StepInv(c, s, Pthread(u));
      var s1 := Step(c, s, Pthread(u));
      var rest := ServeOne(c, s1, t);
      moves := [Pthread(u)] + rest;
      assert moves[1..] == rest;
    }
  }

  /** Moves that give the first n threads the mutex they wait for. */
  lemma {:induction false} ServeFirst(c: Config, s: State, n: nat) returns (moves: seq<Actor>)
    requires ValidConfig(c) && Inv(c, s) && n <= |s.threads|
    ensures OnlyThreads(moves)
    ensures forall t :: 0 <= t < n && AtMutex(s.threads[t].pc) ==> Served(c, s, t, moves)
    decreases n
  {
    hide Tasks, Order, Live, Step, Shape, Served;
    if n == 0 {
      moves := [];
    } else {
      var t := n - 1;
      var front := ServeFirst(c, s, t);
      var back: seq<Actor> := [];
      LaterInv(c, s, front);
      if AtMutex(s.threads[t].pc) && !Served(c, s, t, front) {
        UnservedKeeps(c, s, t, front);
        back := ServeOne(c, Later(c, s, front), t);
        ServedConcat(c, s, t, front, back);
      }
      moves := front + back;
      forall u | 0 <= u < n && AtMutex(s.threads[u].pc)
        ensures Served(c, s, u, moves)
      {
        if Served(c, s, u, front) {
          ServedConcat(c, s, u, front, back);
        }
      }
    }
  }

  function Everybody(n: nat): (moves: seq<Actor>)
    ensures Worker in moves && Covers(moves, n)
  {
    if n == 0 then [Worker] else Everybody(n - 1) + [Pthread(n - 1)]
  }

  /** In every reachable state some round is fair. */
  lemma FairRoundExists(c: Config, s: State) returns (round: seq<Actor>)
    requires ValidConfig(c) && Reachable(c, s) && Shape(c, s)
    ensures FairRound(c, s, round)
  {
    hide Tasks, Order, Live, Reachable, Shape, Served;
    ReachableInv(c, s);
    var moves := ServeFirst(c, s, |s.threads|);
    round := moves + Everybody(c.numThreads);
    forall t | 0 <= t < |s.threads| && AtMutex(s.threads[t].pc)
      ensures Served(c, s, t, round)
    {
      ServedConcat(c, s, t, moves, Everybody(c.numThreads));
    }
    forall t | 0 <= t < c.numThreads
      ensures Pthread(t) in round
    {
      assert Pthread(t) in Everybody(c.numThreads);
    }
    assert Worker in Everybody(c.numThreads);
  }
}
