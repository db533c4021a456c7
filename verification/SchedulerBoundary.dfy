/**
 Exactly when replay order holds. rworker_new asks for a map of num_vsizes entries but ids
 run from 1 to num_vsizes, and the result of amap_set is ignored: when num_vsizes is a
 multiple of 1024 the last id is never bound and its lines spread over several threads.
 */
module SchedulerBoundary {
  import opened Seqs
  import AMap
  import opened Scheduler
  import opened SchedulerInv
  import opened SchedulerMoves
  import opened SchedulerOrder

  // ---------------------------------------------------------------- one thread does everything

  /** At most one thread exists, it sleeps in the idle ring, and everything up to here has been run. */
  ghost predicate AtRest(c: Config, s: State)
    requires c.numWorkers > 0
  {
    && s.wpc == Read && s.parkLock == None && s.taskLock == None && s.remaining == |s.threads| && s.pos <= |c.lines|
    && ((s.threads == [] && s.idle == []) || (s.threads == [ASLEEP] && s.idle == [0]))
    && (forall id :: id in s.bound ==> exists i :: 0 <= i < s.pos && Accepts(c, i, id))
    && (forall i :: 0 <= i < |s.executed| ==> s.executed[i].line < s.pos)
  }

  predicate Accepts(c: Config, i: nat, id: nat)
    requires c.numWorkers > 0
  {
    i < |c.lines| && Mine(c, i) && Id(c, i) == id
  }

  /** The lines this worker accepts among the first p are of different ids, and the mark is not among them. */
  ghost predicate Distinct(c: Config, p: nat)
    requires c.numWorkers > 0
  {
    && p <= |c.lines| && (forall i :: 0 <= i < p ==> !c.lines[i].InitMark?)
    && (forall i, j :: 0 <= i < j < p && Mine(c, i) && Mine(c, j) ==> Id(c, i) != Id(c, j))
  }

  lemma StartsAtRest(c: Config)
    requires ValidConfig(c)
    ensures Reachable(c, Init()) && AtRest(c, Init())
  {
    InitReachable(c);
  }

  lemma SkipsLine(c: Config, s: State) returns (s': State)
    requires ValidConfig(c) && Reachable(c, s) && AtRest(c, s) && s.pos < |c.lines|
    requires !Mine(c, s.pos) && !c.lines[s.pos].InitMark?
    ensures Reachable(c, s') && AtRest(c, s') && s'.pos == s.pos + 1
  {
    hide Reachable, Shape, Mine;
    s' := Move(c, s, Worker);
    assert s' == s.(pos := s.pos + 1);
  }

  /** A line that finds no binding goes to the first thread, new or recycled. */
  lemma ToFirstThread(c: Config, s: State) returns (s': State, task: nat)
    requires NewLine(c, s) && AtRest(c, s)
    ensures Reachable(c, s') && OneLineOn(s, s') && s'.remaining == 1 && s'.bound == BoundTo(c, s, 0)
    ensures s'.idle == [] && s'.threads == [Waiting(task)] && Content(s', task) == s.pos
  {
    hide Reachable, Mine;
    if s.threads == [] {
      s', task := NewThread(c, s);
    } else {
      s', task := RecycledThread(c, s);
    }
  }

  lemma RunsLine(c: Config, s: State) returns (s': State)
    requires NewLine(c, s) && AtRest(c, s)
    ensures Reachable(c, s') && AtRest(c, s') && s'.pos == s.pos + 1
  {
    hide Reachable, Mine, NewLine;
    LineIsAccepted(c, s);
    var s1, task := ToFirstThread(c, s);
    var s2 := RunOnly(c, s1, 0, task);
    s' := FallAsleep(c, s2, 0);
    assert s'.threads == [ASLEEP];
    forall id | id in s'.bound
      ensures exists i :: 0 <= i < s'.pos && Accepts(c, i, id)
    {
      assert id in s.bound || Accepts(c, s.pos, id);
    }
  }

  lemma LineIsAccepted(c: Config, s: State)
    requires NewLine(c, s)
    ensures ValidConfig(c) && c.numThreads > 1 && Accepts(c, s.pos, Id(c, s.pos))
  {
  }

  /** The first p lines, each run to the end before the next one is read. */
  lemma {:induction false} OneByOne(c: Config, p: nat) returns (s: State)
    requires ValidConfig(c) && c.numThreads > 1 && Distinct(c, p)
    ensures Reachable(c, s) && AtRest(c, s) && s.pos == p
    decreases p
  {
    hide Reachable, Mine, AtRest;
    if p == 0 {
      s := Init();
      StartsAtRest(c);
    } else {
      s := OneByOne(c, p - 1);
      if Mine(c, p - 1) {
        FreshId(c, s);
        s := RunsLine(c, s);
      } else {
        s := SkipsLine(c, s);
      }
    }
  }

  lemma FreshId(c: Config, s: State)
    requires ValidConfig(c) && c.numThreads > 1 && Reachable(c, s) && AtRest(c, s) && s.pos < |c.lines|
             && Mine(c, s.pos)
    requires Distinct(c, s.pos + 1)
    ensures NewLine(c, s)
  {
    hide Reachable;
    assert forall i :: 0 <= i < s.pos ==> !Accepts(c, i, Id(c, s.pos));
  }

  lemma NeverBound(c: Config, s: State)
    requires ValidConfig(c) && c.numThreads > 1 && Reachable(c, s) && s.wpc == Read && s.pos < |c.lines|
    requires Mine(c, s.pos) && !HasSlot(c, Id(c, s.pos))
    ensures NewLine(c, s)
  {
    hide Reachable;
    ReachableInv(c, s);
  }

  // ---------------------------------------------------------------- the overtaking

  /** The last operation run is line `last`, and none of those before it comes from line `first` or a later one. */
  predicate RanAhead(executed: seq<Exec>, first: nat, last: nat) {
    && |executed| > 0 && executed[|executed| - 1].line == last
    && forall i :: 0 <= i < |executed| - 1 ==> executed[i].line < first
  }

  /**
   Two consecutive lines of one id without a slot, after lines of other ids: with two threads
   available the second one can run before the first.
   */
  lemma Overtaken(c: Config, p: nat) returns (s: State)
    requires ValidConfig(c) && c.numThreads > 1 && p + 1 < |c.lines| && Distinct(c, p)
    requires forall i :: p <= i < p + 2 ==> Mine(c, i) && !HasSlot(c, Id(c, i))
    ensures Reachable(c, s) && RanAhead(s.executed, p, p + 1)
  {
    hide Reachable, Mine, NewLine, HasSlot;
    var s0 := OneByOne(c, p);
    NeverBound(c, s0);
    var s1, task := ToFirstThread(c, s0);
    NeverBound(c, s1);
    var s2, task1 := NewThread(c, s1);
    assert s2.threads[1] == Waiting(task1);
    s := RunOnly(c, s2, 1, task1);
  }

  // ---------------------------------------------------------------- the boundary

  /** The run operations of `id` are a prefix of the journal's lines for it. */
  ghost predicate InOrder(c: Config, s: State, id: nat)
    requires ValidConfig(c)
  {
    Map(Filter(s.executed, OpHasId(c, id)), LineOf()) <= LinesOf(c, Body(c, 0), id)
  }

  /**
   Each of this many workers, with this many threads, keeps journal order for all ids up to
   numVsizes, on every journal and interleaving.
   */
  ghost predicate AlwaysInOrder(numWorkers: nat, numThreads: nat, numVsizes: nat) {
    forall c: Config, s: State, id: nat ::
      (ValidConfig(c) && Reachable(c, s) && id <= numVsizes
       && c.numWorkers == numWorkers && c.numThreads == numThreads && c.numVsizes == numVsizes) ==>
      InOrder(c, s, id)
  }

  /** A journal of two lines of one id, for the worker that is responsible for it. */
  function TwoLines(numWorkers: nat, numThreads: nat, id: nat): Config
    requires numWorkers > 0
  {
    Config([Entry(id), Entry(id)], numWorkers, id % numWorkers, numThreads, id)
  }

  lemma TwoLinesBody(c: Config, id: nat)
    requires c.numWorkers > 0 && c == TwoLines(c.numWorkers, c.numThreads, id)
    ensures Body(c, 0) == 2 && Accepted(c, 2) == [0, 1]
  {
    assert Body(c, 1) == Body(c, 2) == 2;
    assert Accepted(c, 1) == Accepted(c, 0) + [0] == [0];
  }

  lemma TwoLinesJournal(c: Config, id: nat)
    requires c.numWorkers > 0 && c == TwoLines(c.numWorkers, c.numThreads, id)
    ensures LinesOf(c, Body(c, 0), id) == [0, 1]
  {
    TwoLinesBody(c, id);
    var lines: seq<nat> := [0, 1];
    assert forall i :: i in lines ==> HasId(c, id)(i);
    FilterAll(lines, HasId(c, id));
  }

  lemma OvertakenIsOutOfOrder(c: Config, executed: seq<Exec>, id: nat)
    requires c.numWorkers > 0 && c == TwoLines(c.numWorkers, c.numThreads, id) && RanAhead(executed, 0, 1)
    ensures !(Map(Filter(executed, OpHasId(c, id)), LineOf()) <= LinesOf(c, Body(c, 0), id))
  {
    TwoLinesJournal(c, id);
    FilterAll(executed, OpHasId(c, id));
    assert Map(executed, LineOf())[0] == 1;
  }

  /** Replay order holds exactly when there is a single thread or num_vsizes is not a multiple of 1024. */
  lemma OrderExactly(numWorkers: nat, numThreads: nat, numVsizes: nat)
    requires numWorkers >= 1 && numThreads >= 1 && numVsizes >= 1
    ensures AlwaysInOrder(numWorkers, numThreads, numVsizes) <==> numThreads == 1 || numVsizes % 1024 != 0
  {
    AMap.EveryIdHasASlot(numVsizes);
    if numThreads == 1 || numVsizes % 1024 != 0 {
      forall c: Config, s: State, id: nat
        | ValidConfig(c) && Reachable(c, s) && id <= numVsizes
          && c.numWorkers == numWorkers && c.numThreads == numThreads && c.numVsizes == numVsizes
        ensures InOrder(c, s, id)
      {
        assert id >= 1 ==> AMap.HasSlot(numVsizes, id) || numThreads == 1;
        ReplayOrder(c, s, id);
      }
    } else {
      AMap.CapacityIsMultiple(numVsizes);
      assert numVsizes % 1024 == AMap.CMod(numVsizes, 1024);
      var c := TwoLines(numWorkers, numThreads, numVsizes);
      var s := Overtaken(c, 0);
      OvertakenIsOutOfOrder(c, s.executed, numVsizes);
      assert !InOrder(c, s, numVsizes);
    }
  }
}
