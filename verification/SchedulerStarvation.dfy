/**
 Why a fair run needs a fair mutex: a run in which every actor gets a turn again and again, and
 the worker waits in pthread_join for ever.
 */
module SchedulerStarvation {
  import opened Seqs
  import opened Scheduler
  import opened SchedulerInv
  import opened SchedulerMoves
  import opened SchedulerProgress

  /** Three lines of two ids for a worker with two threads. */
  function Journal(): Config { Config([Entry(1), Entry(2), Entry(2)], 1, 0, 2, 2) }

  /** The worker joins thread 1, which wants the mutex; thread 0 tries to enter a full idle ring. */
  predicate Stuck(s: State) {
    && s.wpc == Join(1) && s.parkLock == None && |s.idle| == 1 && |s.threads| == 2
    && s.threads[0] == Thread([], ParkTerm, false) && s.threads[1] == Thread([], ParkLock, true)
  }

  /** Both threads exist and have one task each. */
  predicate BothBusy(s: State, task: nat, task1: nat) {
    && s.wpc == Read && s.pos == 2 && s.remaining == 2 && s.bound == map[1 := 0, 2 := 1] && s.idle == []
    && s.parkLock == None && s.taskLock == None
    && s.threads == [Waiting(task), Waiting(task1)]
  }

  lemma BothCreated() returns (s: State, task: nat, task1: nat)
    ensures Reachable(Journal(), s) && BothBusy(s, task, task1)
  {
    hide Reachable;
    var c := Journal();
    InitReachable(c);
    s, task := NewThread(c, Init());
    s, task1 := NewThread(c, s);
  }

  /** Thread 1 has entered itself into the idle ring, has run another task all the same, and wants to enter again. */
  predicate Again(s: State, task: nat) {
    && s.wpc == Read && s.pos == 3 && s.remaining == 2 && |s.idle| == 1 && s.parkLock == None && s.taskLock == None
    && s.threads == [Waiting(task), Thread([], ParkLock, false)]
  }

  lemma ParkedTwice() returns (s: State, task: nat)
    ensures Reachable(Journal(), s) && Again(s, task)
  {
    hide Reachable;
    var c, task1 := Journal(), 0;
    s, task, task1 := BothCreated();
    s := RunOnly(c, s, 1, task1);
    s := FallAsleep(c, s, 1);
    s, task1 := BoundLine(c, s, 1);
    s := RunOnly(c, s, 1, task1);
    s := ToMutex(c, s, 1);
  }

  /** The worker has read everything and begins to join the last of its two threads. */
  lemma JoinsLast(c: Config, s: State) returns (s': State)
    requires ValidConfig(c) && Reachable(c, s) && s.wpc == Read && s.pos == |c.lines| && s.remaining == |s.threads| == 2
    ensures Reachable(c, s') && s'.wpc == Join(1) && s'.idle == s.idle && s'.parkLock == s.parkLock
    ensures s'.threads == s.threads[1 := s.threads[1].(terminate := true)]
  {
    hide Reachable, Shape;
    s' := Move(c, s, Worker);
    s' := Move(c, s', Worker);
  }

  lemma StuckReachable() returns (s: State)
    ensures Reachable(Journal(), s) && Stuck(s)
  {
    hide Reachable, Mine;
    var c, task := Journal(), 0;
    s, task := ParkedTwice();
    s := RunOnly(c, s, 0, task);
    s := JoinsLast(c, s);
  }

  /** A round in which the worker and both threads get a turn. */
  function Round(): seq<Actor> {
    [Pthread(0), Pthread(0), Pthread(0), Pthread(0), Pthread(1), Pthread(0), Pthread(0), Worker]
  }

  /** One move of a longer sequence. */
  lemma FirstMove(c: Config, s: State, moves: seq<Actor>, s': State)
    requires ValidConfig(c) && Shape(c, s) && moves != [] && Step(c, s, moves[0]) == s'
    ensures Shape(c, s') && Later(c, s, moves) == Later(c, s', moves[1..])
  {
    hide Step, Shape;
    StepShape(c, s, moves[0]);
  }

  /** The thread with the mutex holds it while the other one has its turn. */
  function Holding(s: State, pc: ThreadPc): State
    requires |s.threads| > 0
  {
    Goto(s, 0, pc).(parkLock := Some(0))
  }

  /** Thread 0 takes the mutex. */
  lemma TakesMutex(c: Config, s: State)
    requires c == Journal() && Shape(c, s) && Stuck(s)
    ensures Shape(c, Holding(s, ParkHas3)) && Later(c, s, Round()) == Later(c, Holding(s, ParkHas3), Round()[4..])
  {
    hide Shape, Later, WorkerStep;
    var s1, s2, s3, s4 := Goto(s, 0, ParkHas1), Goto(s, 0, ParkHas2), Goto(s, 0, ParkLock), Holding(s, ParkHas3);
    var r := Round();
    FirstMove(c, s, r, s1);
    FirstMove(c, s1, r[1..], s2);
    FirstMove(c, s2, r[2..], s3);
    FirstMove(c, s3, r[3..], s4);
  }

  /** Thread 1 finds it taken, thread 0 finds the ring full and releases it, the worker finds thread 1 still running. */
  lemma ReleasesMutex(c: Config, s: State)
    requires c == Journal() && Shape(c, s) && Stuck(s) && Shape(c, Holding(s, ParkHas3))
    ensures Later(c, Holding(s, ParkHas3), Round()[4..]) == s
  {
    hide Shape;
    var s4, s5 := Holding(s, ParkHas3), Holding(s, ParkPut);
    var r := Round();
    FirstMove(c, s4, r[4..], s4);
    FirstMove(c, s4, r[5..], s5);
    assert s.threads[0 := s.threads[0]] == s.threads;
    FirstMove(c, s5, r[6..], s);
    FirstMove(c, s, r[7..], s);
    assert r[8..] == [];
  }

  lemma RoundChangesNothing(s: State)
    requires Reachable(Journal(), s) && Stuck(s)
    ensures Shape(Journal(), s) && Later(Journal(), s, Round()) == s
  {
    hide Reachable, Later, Stuck;
    ReachableInv(Journal(), s);
    TakesMutex(Journal(), s);
    ReleasesMutex(Journal(), s);
  }

  /**
   Turns alone are not enough: there is a reachable state and a round in which everybody gets a
   turn that leads back to it, while the worker waits for a thread that never gets the mutex.
   */
  lemma TurnsAreNotEnough() returns (s: State)
    ensures Worker in Round() && Covers(Round(), Journal().numThreads)
    ensures Reachable(Journal(), s) && Shape(Journal(), s) && Later(Journal(), s, Round()) == s && !s.wpc.Finished?
  {
    hide Reachable, Later;
    s := StuckReachable();
    RoundChangesNothing(s);
    var round := Round();
    assert round[0] == Pthread(0) && round[4] == Pthread(1) && round[7] == Worker;
  }
}
