/** No thread is forgotten, and no wait of the worker lasts for ever. */
module SchedulerProgress {
  import opened Scheduler
  import opened SchedulerInv

  /**
   No lost idle thread: whenever the worker is between two journal lines, looking for an idle
   thread or waiting for one, every created thread is in the idle buffer, or has an unread
   task, or is awake.
   */
  lemma NoLostThread(c: Config, s: State, t: nat)
    requires ValidConfig(c) && Reachable(c, s) && t < |s.threads|
    requires s.wpc.Read? || s.wpc.PopIdle? || s.wpc.WaitIdle?
    ensures t in s.idle || s.threads[t].queue != [] || !Sleeping(s.threads[t])
  {
    ReachableInv(c, s);
  }

  // ---------------------------------------------------------------- waiting for an idle thread

  /** The worker polls rthread_buffer and finds it empty. */
  predicate Starved(s: State) { s.wpc.WaitIdle? && s.idle == [] }

  /** How many moves a thread can make before it parks, while nobody hands it work. */
  function Rank(th: Thread): nat {
    6 * |th.queue| +
    match th.pc
    case Run(_, _) => 10
    case RecycleLock(_, _) => 9
    case RecyclePut(_, _) => 8
    case Drain => 7
    case ParkTerm => if th.queue == [] then 6 else 13
    case ParkHas1 => if th.queue == [] then 5 else 12
    case ParkHas2 => if th.queue == [] then 4 else 11
    case ParkLock => if th.queue == [] then 3 else 15
    case ParkHas3 => if th.queue == [] then 2 else 14
    case ParkPut => if th.queue == [] then 1 else 14
    case OuterCheck => 10
    case WaitTerm => 9
    case WaitHas => 8
    case _ => 0
  }

  function Total(threads: seq<Thread>): nat {
    if threads == [] then 0 else Total(threads[..|threads| - 1]) + Rank(threads[|threads| - 1])
  }

  lemma {:induction false} TotalUpdate(threads: seq<Thread>, t: nat, th: Thread)
    requires t < |threads|
    ensures Total(threads[t := th]) == Total(threads) - Rank(threads[t]) + Rank(th)
    decreases |threads|
  {
    var n := |threads| - 1;
    if t < n {
      assert threads[t := th][..n] == threads[..n][t := th];
      TotalUpdate(threads[..n], t, th);
    } else {
      assert threads[t := th][..n] == threads[..n];
    }
  }

  /** A thread of a starved worker: it has not been told to end and is not asleep. */
  lemma StarvedThread(c: Config, s: State, t: nat)
    requires ValidConfig(c) && Inv(c, s) && Starved(s) && t < |s.threads|
    ensures var th := s.threads[t];
            !th.terminate && !LastRound(th.pc)
            && (th.pc.WaitHas? || th.pc.WaitTerm? || th.pc.OuterCheck? ==> th.queue != [])
  {
    assert ClosingThread(s.threads[t], t, s.remaining);
  }

  /** Replacing thread t by a lower-ranked one lowers the total. */
  lemma MoveLowers(c: Config, s: State, t: nat)
    requires ValidConfig(c) && Inv(c, s) && Starved(s) && t < |s.threads|
    ensures var s' := ThreadStep(c, s, t);
            || s' == s
            || (s'.wpc.WaitIdle? && s'.idle != [])
            || (Starved(s') && Total(s'.threads) < Total(s.threads))
  {
    StarvedThread(c, s, t);
    ThreadLowers(c, s, t);
    var s' := ThreadStep(c, s, t);
    if s' != s {
      TotalUpdate(s.threads, t, s'.threads[t]);
    }
  }

  lemma ThreadLowers(c: Config, s: State, t: nat)
    requires ValidConfig(c) && Shape(c, s) && t < |s.threads| && c.numThreads > 1 && s.wpc.WaitIdle? && s.idle == []
    requires var th := s.threads[t];
             !th.terminate && !LastRound(th.pc)
             && (th.pc.WaitHas? || th.pc.WaitTerm? || th.pc.OuterCheck? ==> th.queue != [])
    ensures var s' := ThreadStep(c, s, t);
            && s'.wpc == s.wpc
            && (s' == s || (s'.threads == s.threads[t := s'.threads[t]]
                            && (s'.idle != [] || Rank(s'.threads[t]) < Rank(s.threads[t]))))
            && (s'.idle == [] ==> s'.idle == s.idle)
  {
    hide Shape, Content;
  }

  /** A thread that is not waiting for a mutex always has a move. */
  lemma UnblockedMoves(c: Config, s: State, t: nat)
    requires ValidConfig(c) && Shape(c, s) && t < |s.threads| && !s.threads[t].pc.Done?
    requires s.threads[t].pc.RecycleLock? ==> s.taskLock.None?
    requires s.threads[t].pc.ParkLock? ==> s.parkLock.None?
    ensures ThreadStep(c, s, t).threads[t].pc != s.threads[t].pc
  {
    hide Shape, Content;
    if Working(s.threads[t].pc) {
      assert ThreadStep(c, s, t) == WorkStep(c, s, t);
    }
  }

  /** While the worker is starved some thread can move: the first one, or the holder of the mutex it waits for. */
  lemma SomeoneMoves(c: Config, s: State) returns (t: nat)
    requires ValidConfig(c) && Inv(c, s) && Starved(s)
    ensures t < |s.threads| && ThreadStep(c, s, t) != s
  {
    t := 0;
    StarvedThread(c, s, 0);
    if s.threads[0].pc.RecycleLock? && s.taskLock.Some? {
      t := s.taskLock.value;
    } else if s.threads[0].pc.ParkLock? && s.parkLock.Some? {
      t := s.parkLock.value;
    }
    UnblockedMoves(c, s, t);
  }

  /** Each actor of a worker with n threads moves at least once. */
  ghost predicate Covers(round: seq<Actor>, n: nat) { forall t :: 0 <= t < n ==> Pthread(t) in round }

  lemma OneMove(c: Config, s: State, a: Actor)
    requires ValidConfig(c) && Inv(c, s) && Starved(s)
    ensures var s' := Step(c, s, a);
            || s' == s
            || (s'.wpc.WaitIdle? && s'.idle != [])
            || (Starved(s') && Total(s'.threads) < Total(s.threads))
  {
    match a
    case Worker =>
    case Pthread(t) =>
      if t < |s.threads| {
        MoveLowers(c, s, t);
      }
  }

  /** The state after some moves, first move first. */
  ghost function Later(c: Config, s: State, moves: seq<Actor>): (s': State)
    requires ValidConfig(c) && Shape(c, s)
    decreases |moves|
  {
    if moves == [] then s
    else
      StepShape(c, s, moves[0]);
      Later(c, Step(c, s, moves[0]), moves[1..])
  }

  /** At some point of the moves an idle thread is available to the waiting worker. */
  ghost predicate Fed(c: Config, s: State, moves: seq<Actor>)
    requires ValidConfig(c) && Shape(c, s)
    decreases |moves|
  {
    || (s.wpc.WaitIdle? && s.idle != [])
    || (moves != [] && (StepShape(c, s, moves[0]); Fed(c, Step(c, s, moves[0]), moves[1..])))
  }

  lemma {:induction false} FedConcat(c: Config, s: State, a: seq<Actor>, b: seq<Actor>)
    requires ValidConfig(c) && Shape(c, s)
    requires Fed(c, s, a) || (LaterShape(c, s, a); Fed(c, Later(c, s, a), b))
    ensures Fed(c, s, a + b)
    decreases |a|
  {
    if a == [] {
      assert a + b == b;
    } else {
      StepShape(c, s, a[0]);
      assert (a + b)[0] == a[0] && (a + b)[1..] == a[1..] + b;
      LaterShape(c, s, a);
      if !(s.wpc.WaitIdle? && s.idle != []) {
        LaterShape(c, Step(c, s, a[0]), a[1..]);
        FedConcat(c, Step(c, s, a[0]), a[1..], b);
      }
    }
  }

  lemma {:induction false} LaterShape(c: Config, s: State, moves: seq<Actor>)
    requires ValidConfig(c) && Shape(c, s)
    ensures Shape(c, Later(c, s, moves))
    decreases |moves|
  {
    if moves == [] {
    } else {
      StepShape(c, s, moves[0]);
      LaterShape(c, Step(c, s, moves[0]), moves[1..]);
    }
  }

  lemma {:induction false} LaterInv(c: Config, s: State, moves: seq<Actor>)
    requires ValidConfig(c) && Inv(c, s)
    ensures Inv(c, Later(c, s, moves))
    decreases |moves|
  {
    if moves == [] {
    } else {
      StepInv(c, s, moves[0]);
      LaterInv(c, Step(c, s, moves[0]), moves[1..]);
    }
  }

  /** Moves that neither feed the worker nor lower the total change nothing at all. */
  lemma {:induction false} WaitingMoves(c: Config, s: State, moves: seq<Actor>)
    requires ValidConfig(c) && Inv(c, s) && Starved(s)
    ensures var s' := Later(c, s, moves);
            || Fed(c, s, moves)
            || (Starved(s') && Total(s'.threads) < Total(s.threads))
            || (s' == s && forall a :: a in moves ==> Step(c, s, a) == s)
    decreases |moves|
  {
    if moves == [] {
    } else {
      OneMove(c, s, moves[0]);
      StepInv(c, s, moves[0]);
      var s1 := Step(c, s, moves[0]);
      if Starved(s1) {
        WaitingMoves(c, s1, moves[1..]);
      } else {
        assert Fed(c, s1, moves[1..]);
      }
    }
  }

  function Flatten(rounds: seq<seq<Actor>>): seq<Actor> {
    if rounds == [] then [] else rounds[0] + Flatten(rounds[1..])
  }

  /** One round in which every thread gets a turn feeds the worker or lowers the total. */
  lemma RoundLowers(c: Config, s: State, round: seq<Actor>)
    requires ValidConfig(c) && Inv(c, s) && Starved(s) && Covers(round, c.numThreads)
    ensures Fed(c, s, round)
         || (Starved(Later(c, s, round)) && Total(Later(c, s, round).threads) < Total(s.threads))
  {
    WaitingMoves(c, s, round);
    var t := SomeoneMoves(c, s);
    assert Pthread(t) in round;
  }

  lemma FedFlatten(c: Config, s: State, rounds: seq<seq<Actor>>)
    requires ValidConfig(c) && Shape(c, s) && rounds != []
    requires Fed(c, s, rounds[0]) || (LaterShape(c, s, rounds[0]); Fed(c, Later(c, s, rounds[0]), Flatten(rounds[1..])))
    ensures Fed(c, s, Flatten(rounds))
  {
    FedConcat(c, s, rounds[0], Flatten(rounds[1..]));
  }

  lemma {:induction false} WaitEndsFrom(c: Config, s: State, rounds: seq<seq<Actor>>)
    requires ValidConfig(c) && Inv(c, s) && Starved(s)
    requires |rounds| > Total(s.threads)
    requires forall i :: 0 <= i < |rounds| ==> Covers(rounds[i], c.numThreads)
    ensures Fed(c, s, Flatten(rounds))
    decreases |rounds|
  {
    hide Tasks, Order, Live, Covers, Starved, Flatten;
    RoundLowers(c, s, rounds[0]);
    LaterInv(c, s, rounds[0]);
    if !Fed(c, s, rounds[0]) {
      WaitEndsFrom(c, Later(c, s, rounds[0]), rounds[1..]);
    }
    FedFlatten(c, s, rounds);
  }

  /**
   The wait ends: if every thread gets a turn in each round, a starved worker finds an idle
   thread within Total + 1 rounds, whatever the interleaving.
   */
  lemma WaitEnds(c: Config, s: State, rounds: seq<seq<Actor>>)
    requires ValidConfig(c) && Reachable(c, s) && Starved(s)
    requires |rounds| > Total(s.threads)
    requires forall i :: 0 <= i < |rounds| ==> Covers(rounds[i], c.numThreads)
    ensures Shape(c, s) && Fed(c, s, Flatten(rounds))
  {
    hide Tasks, Order, Live, Covers, Starved, Flatten, Reachable;
    ReachableInv(c, s);
    WaitEndsFrom(c, s, rounds);
  }
}
