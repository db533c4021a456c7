/**
 The generator's three threads: the main loop of generate_run reads capture lines, the parser
 thread extracts their fields, the writer thread writes the journal and returns task objects
 for reuse. Each step is one queue operation or one access to a flag; the rings appear as the
 bounded queues that RingSpsc shows them to be.
 */
module Pipeline {
  import opened Seqs

  /** rbuffer_new(1024) holds one element less. */
  const CAPACITY: nat := 1023

  /** `comments[i]` says that capture line i starts with '#'; the rest of a line only matters for whether it fails. */
  datatype Capture = Capture(comments: seq<bool>, parseFails: nat -> bool, runFails: nat -> bool)
  {
    predicate Fails(lineno: nat) { parseFails(lineno) || runFails(lineno) }
  }

  datatype MainPc =
    | Read | Reuse | Fill(task: nat) | Give(task: nat)
    | StopParser | JoinParser | StopWriter | JoinWriter | Collect | Finished

  /** `last` is set in the drain after the terminate flag was seen. */
  datatype ParserPc =
    | PNext(last: bool) | PExtract(task: nat, last: bool) | PGive(task: nat, last: bool) | PCheck | PDone

  datatype WriterPc = WNext(last: bool) | WRun(task: nat, last: bool) | WPut(task: nat, last: bool) | WCheck | WDone

  /** What gtask_init, gparser_extract and gioop_run write into a task object. */
  datatype Info = Info(lineno: nat, failed: bool)

  /**
   `parsed` and `emitted` are history: the line numbers in the order they were extracted and
   run; `lost` counts the failed tasks that the full reuse ring did not take back.
   */
  datatype State = State(
    pos: nat, lineno: nat, filtered: nat, mpc: MainPc, ppc: ParserPc, wpc: WriterPc,
    pq: seq<nat>, wq: seq<nat>, rq: seq<nat>, store: seq<Info>, pterm: bool, wterm: bool,
    parsed: seq<nat>, emitted: seq<nat>, lost: nat)

  datatype Actor = Main | Parser | Writer

  function Init(): State {
    State(0, 0, 0, Read, PNext(false), WNext(false), [], [], [], [], false, false, [], [], 0)
  }

  // ---------------------------------------------------------------- task objects in range

  predicate InStore(xs: seq<nat>, n: nat) { forall i :: 0 <= i < |xs| ==> xs[i] < n }

  function MainHand(pc: MainPc): seq<nat> { if pc.Fill? || pc.Give? then [pc.task] else [] }

  function ParserHand(pc: ParserPc): seq<nat> { if pc.PExtract? || pc.PGive? then [pc.task] else [] }

  function WriterHand(pc: WriterPc): seq<nat> { if pc.WRun? || pc.WPut? then [pc.task] else [] }

  /** Every task object that exists and was not dropped, in the order the stages hold them. */
  function Objects(s: State): seq<nat> {
    s.rq + WriterHand(s.wpc) + s.wq + ParserHand(s.ppc) + s.pq + MainHand(s.mpc)
  }

  ghost predicate NoDup(xs: seq<nat>) { forall i, j :: 0 <= i < j < |xs| ==> xs[i] != xs[j] }

  /** Each task object is in one place only. */
  ghost predicate Owned(s: State) { InStore(Objects(s), |s.store|) && NoDup(Objects(s)) }

  // ---------------------------------------------------------------- steps

  function MainStep(c: Capture, s: State): State
    requires InStore(Objects(s), |s.store|) && s.pos <= |c.comments|
  {
    match s.mpc
    case Read =>
      if s.pos == |c.comments| then s.(mpc := StopParser)
      else if c.comments[s.pos] then s.(pos := s.pos + 1)
      else s.(pos := s.pos + 1, lineno := s.lineno + 1, mpc := Reuse)
    case Reuse =>
      if s.rq == [] then s.(store := s.store + [Info(0, false)], mpc := Fill(|s.store|))
      else
        assert Objects(s)[0] == s.rq[0];
        s.(rq := s.rq[1..], mpc := Fill(s.rq[0]),
           filtered := s.filtered + if s.store[s.rq[0]].failed then 1 else 0)
    case Fill(t) =>
      assert Objects(s)[|Objects(s)| - 1] == t;
      s.(store := s.store[t := Info(s.lineno, false)], mpc := Give(t))
    case Give(t) =>
      if |s.pq| < CAPACITY then s.(pq := s.pq + [t], mpc := Read) else s
    case StopParser => s.(pterm := true, mpc := JoinParser)
    case JoinParser => if s.ppc.PDone? then s.(mpc := StopWriter) else s
    case StopWriter => s.(wterm := true, mpc := JoinWriter)
    case JoinWriter => if s.wpc.WDone? then s.(mpc := Collect) else s
    case Collect =>
      if s.rq == [] then s.(mpc := Finished)
      else
        assert Objects(s)[0] == s.rq[0];
        s.(rq := s.rq[1..], filtered := s.filtered + if s.store[s.rq[0]].failed then 1 else 0)
    case Finished => s
  }

  /** gparser_pthread_start */
  function ParserStep(c: Capture, s: State): State
    requires InStore(Objects(s), |s.store|)
  {
    match s.ppc
    case PNext(last) =>
      if s.pq != [] then s.(pq := s.pq[1..], ppc := PExtract(s.pq[0], last))
      else s.(ppc := if last then PDone else PCheck)
    case PExtract(t, last) =>
      assert t in Objects(s);
      var info := s.store[t];
      s.(store := s.store[t := info.(failed := c.parseFails(info.lineno))],
         parsed := s.parsed + [info.lineno], ppc := PGive(t, last))
    case PGive(t, last) =>
      if |s.wq| < CAPACITY then s.(wq := s.wq + [t], ppc := PNext(last)) else s
    case PCheck => s.(ppc := PNext(s.pterm))
    case PDone => s
  }

  /** gwriter_pthread_start; a task that failed before is not run. */
  function WriterStep(c: Capture, s: State): State
    requires InStore(Objects(s), |s.store|)
  {
    match s.wpc
    case WNext(last) =>
      if s.wq != [] then s.(wq := s.wq[1..], wpc := WRun(s.wq[0], last))
      else s.(wpc := if last then WDone else WCheck)
    case WRun(t, last) =>
      assert t in Objects(s);
      var info := s.store[t];
      s.(store := s.store[t := info.(failed := info.failed || c.runFails(info.lineno))],
         emitted := s.emitted + [info.lineno], wpc := WPut(t, last))
    case WPut(t, last) =>
      assert t in Objects(s);
      if |s.rq| < CAPACITY then s.(rq := s.rq + [t], wpc := WNext(last))
      else s.(lost := s.lost + (if s.store[t].failed then 1 else 0), wpc := WNext(last))
    case WCheck => s.(wpc := WNext(s.wterm))
    case WDone => s
  }

  function Step(c: Capture, s: State, a: Actor): State
    requires InStore(Objects(s), |s.store|) && s.pos <= |c.comments|
  {
    match a
    case Main => MainStep(c, s)
    case Parser => ParserStep(c, s)
    case Writer => WriterStep(c, s)
  }

  // ---------------------------------------------------------------- lines in flight

  function LineOf(store: seq<Info>): nat -> nat { (t: nat) => if t < |store| then store[t].lineno else 0 }

  /** Taken from the writer queue and not run yet. */
  function Unrun(pc: WriterPc): seq<nat> { if pc.WRun? then [pc.task] else [] }

  function Unparsed(pc: ParserPc): seq<nat> { if pc.PExtract? then [pc.task] else [] }

  function Parsed(pc: ParserPc): seq<nat> { if pc.PGive? then [pc.task] else [] }

  function Filled(pc: MainPc): seq<nat> { if pc.Give? then [pc.task] else [] }

  /** Tasks that hold a parsed line which was not run yet, oldest first. */
  function ToRun(s: State): seq<nat> { Unrun(s.wpc) + s.wq + Parsed(s.ppc) }

  /** Tasks that hold a line which was not parsed yet, oldest first. */
  function ToParse(s: State): seq<nat> { Unparsed(s.ppc) + s.pq + Filled(s.mpc) }

  /** The line numbers 1..n. */
  function UpTo(n: nat): (r: seq<nat>)
    ensures |r| == n && forall i :: 0 <= i < n ==> r[i] == i + 1
  {
    seq(n, i requires 0 <= i < n => i + 1)
  }

  /** Data lines among the first n capture lines. */
  function DataLines(c: Capture, n: nat): nat
    requires n <= |c.comments|
  {
    if n == 0 then 0 else DataLines(c, n - 1) + if c.comments[n - 1] then 0 else 1
  }

  /** The number of the line that is read but not yet in a task. */
  function Issued(s: State): int { if s.mpc.Reuse? || s.mpc.Fill? then s.lineno - 1 else s.lineno }

  // ---------------------------------------------------------------- invariants

  predicate ParserStopped(pc: MainPc) { pc.StopWriter? || pc.JoinWriter? || pc.Collect? || pc.Finished? }

  predicate WriterStopped(pc: MainPc) { pc.Collect? || pc.Finished? }

  predicate Stopping(pc: MainPc) { pc.StopParser? || pc.JoinParser? || ParserStopped(pc) }

  ghost predicate Reading(c: Capture, s: State) {
    && s.pos <= |c.comments| && s.lineno == DataLines(c, s.pos)
    && (s.mpc.Reuse? || s.mpc.Fill? ==> s.lineno >= 1)
    && (Stopping(s.mpc) ==> s.pos == |c.comments|)
  }

  /** The lines run, then those in flight behind them, are the lines issued so far, in file order. */
  ghost predicate InOrder(s: State) {
    && s.emitted + Map(ToRun(s), LineOf(s.store)) == s.parsed
    && Issued(s) >= 0 && s.parsed + Map(ToParse(s), LineOf(s.store)) == UpTo(Issued(s))
  }

  /** The task carries the parser's verdict on its line. */
  ghost predicate Judged(c: Capture, store: seq<Info>, t: nat) {
    t < |store| && store[t].failed == c.parseFails(store[t].lineno)
  }

  /** So does every task between the parser and the writer. */
  ghost predicate Verdicts(c: Capture, s: State) {
    && (forall i :: 0 <= i < |s.wq| ==> Judged(c, s.store, s.wq[i]))
    && (s.wpc.WRun? ==> Judged(c, s.store, s.wpc.task))
    && (s.ppc.PGive? ==> Judged(c, s.store, s.ppc.task))
  }

  function Count(xs: seq<nat>, p: nat -> bool): (n: nat)
    ensures n <= |xs|
  {
    if xs == [] then 0 else Count(xs[..|xs| - 1], p) + if p(xs[|xs| - 1]) then 1 else 0
  }

  function Failed(store: seq<Info>): nat -> bool { (t: nat) => t < |store| && store[t].failed }

  /** Run, and not yet seen again by the main thread. */
  function Processed(s: State): seq<nat> { s.rq + if s.wpc.WPut? then [s.wpc.task] else [] }

  function FailsOf(c: Capture): nat -> bool { (n: nat) => c.Fails(n) }

  /** Every failed line is counted, or its task still waits to be counted, or its task was dropped. */
  ghost predicate Counted(c: Capture, s: State) {
    s.filtered + Count(Processed(s), Failed(s.store)) + s.lost == Count(s.emitted, FailsOf(c))
  }

  ghost predicate Shutdown(s: State) {
    && (s.pterm <==> s.mpc.JoinParser? || ParserStopped(s.mpc))
    && (s.wterm <==> s.mpc.JoinWriter? || WriterStopped(s.mpc))
    && (s.ppc.PNext? || s.ppc.PExtract? || s.ppc.PGive? ==> (s.ppc.last ==> s.pterm))
    && (s.ppc.PDone? ==> s.pterm && s.pq == [])
    && (ParserStopped(s.mpc) ==> s.ppc.PDone?)
    && (s.wpc.WNext? || s.wpc.WRun? || s.wpc.WPut? ==> (s.wpc.last ==> s.wterm))
    && (s.wpc.WDone? ==> s.wterm && s.wq == [])
    && (WriterStopped(s.mpc) ==> s.wpc.WDone?)
    && (s.mpc.Finished? ==> s.rq == [])
  }

  ghost predicate Inv(c: Capture, s: State) {
    Owned(s) && Reading(c, s) && InOrder(s) && Verdicts(c, s) && Counted(c, s) && Shutdown(s)
  }

  lemma InitInv(c: Capture)
    ensures Inv(c, Init())
  {
    var s := Init();
    assert Objects(s) == [] && Processed(s) == [];
    assert Issued(s) == 0;
  }

  // ---------------------------------------------------------------- ownership

  lemma Regroup(a: seq<nat>, b: seq<nat>, c: seq<nat>, d: seq<nat>, e: seq<nat>, f: seq<nat>)
    ensures a + b + c + d + e + f == a + b + (c + d + e) + f
    ensures a + b + c + d + e + f == (a + b + c) + d + e + f
    ensures a + b + c + d + e + f == a + b + c + d + (e + f)
  {
  }

  /** Handing a task from one stage to the next leaves the sequence of objects as it is. */
  lemma ParserKeepsObjects(c: Capture, s: State)
    requires InStore(Objects(s), |s.store|)
    ensures Objects(ParserStep(c, s)) == Objects(s) && |ParserStep(c, s).store| == |s.store|
  {
    hide InStore, Objects;
    HandsInStore(s);
    var s' := ParserStep(c, s);
    if s.ppc.PNext? && s.pq != [] {
      assert s.pq == [s.pq[0]] + s.pq[1..];
    }
    assert s'.wq + ParserHand(s'.ppc) + s'.pq == s.wq + ParserHand(s.ppc) + s.pq;
    SameMiddle(s, s');
  }

  lemma SameMiddle(s: State, s': State)
    requires s'.rq == s.rq && s'.wpc == s.wpc && s'.mpc == s.mpc
    requires s'.wq + ParserHand(s'.ppc) + s'.pq == s.wq + ParserHand(s.ppc) + s.pq
    ensures Objects(s') == Objects(s)
  {
    Regroup(s.rq, WriterHand(s.wpc), s.wq, ParserHand(s.ppc), s.pq, MainHand(s.mpc));
    Regroup(s'.rq, WriterHand(s'.wpc), s'.wq, ParserHand(s'.ppc), s'.pq, MainHand(s'.mpc));
  }

  lemma SameFront(s: State, s': State)
    requires s'.ppc == s.ppc && s'.pq == s.pq && s'.mpc == s.mpc
    requires s'.rq + WriterHand(s'.wpc) + s'.wq == s.rq + WriterHand(s.wpc) + s.wq
    ensures Objects(s') == Objects(s)
  {
  }

  lemma SameBack(s: State, s': State)
    requires s'.rq == s.rq && s'.wpc == s.wpc && s'.wq == s.wq && s'.ppc == s.ppc
    requires s'.pq + MainHand(s'.mpc) == s.pq + MainHand(s.mpc)
    ensures Objects(s') == Objects(s)
  {
    Regroup(s.rq, WriterHand(s.wpc), s.wq, ParserHand(s.ppc), s.pq, MainHand(s.mpc));
    Regroup(s'.rq, WriterHand(s'.wpc), s'.wq, ParserHand(s'.ppc), s'.pq, MainHand(s'.mpc));
  }

  /** A task object in some stage's hands is in the store. */
  lemma HandsInStore(s: State)
    requires InStore(Objects(s), |s.store|)
    ensures s.ppc.PExtract? || s.ppc.PGive? ==> s.ppc.task < |s.store|
    ensures s.wpc.WRun? || s.wpc.WPut? ==> s.wpc.task < |s.store|
    ensures s.mpc.Fill? || s.mpc.Give? ==> s.mpc.task < |s.store|
  {
    assert s.ppc.PExtract? || s.ppc.PGive? ==> s.ppc.task in Objects(s);
    assert s.wpc.WRun? || s.wpc.WPut? ==> s.wpc.task in Objects(s);
    assert s.mpc.Fill? || s.mpc.Give? ==> s.mpc.task in Objects(s);
  }

  lemma WriterKeepsObjects(c: Capture, s: State)
    requires InStore(Objects(s), |s.store|) && !s.wpc.WPut?
    ensures Objects(WriterStep(c, s)) == Objects(s) && |WriterStep(c, s).store| == |s.store|
  {
    hide InStore, Objects;
    HandsInStore(s);
    var s' := WriterStep(c, s);
    if s.wpc.WNext? && s.wq != [] {
      assert s.wq == [s.wq[0]] + s.wq[1..];
    }
    assert s'.rq + WriterHand(s'.wpc) + s'.wq == s.rq + WriterHand(s.wpc) + s.wq;
    SameFront(s, s');
  }

  lemma MainKeepsObjects(c: Capture, s: State)
    requires InStore(Objects(s), |s.store|) && s.pos <= |c.comments| && !s.mpc.Reuse? && !s.mpc.Collect?
    ensures Objects(MainStep(c, s)) == Objects(s) && |MainStep(c, s).store| == |s.store|
  {
    hide InStore, Objects;
    HandsInStore(s);
    var s' := MainStep(c, s);
    assert s'.pq + MainHand(s'.mpc) == s.pq + MainHand(s.mpc);
    SameBack(s, s');
  }

  /** The objects the main thread cannot see while it has none in hand. */
  function Others(s: State): seq<nat> { WriterHand(s.wpc) + s.wq + ParserHand(s.ppc) + s.pq }

  lemma ObjectsFromFront(s: State)
    ensures Objects(s) == s.rq + Others(s) + MainHand(s.mpc)
  {
  }

  lemma SameOthers(s: State, s': State)
    requires s'.wpc == s.wpc && s'.wq == s.wq && s'.ppc == s.ppc && s'.pq == s.pq
    ensures Others(s') == Others(s)
  {
  }

  lemma ReuseOwned(c: Capture, s: State)
    requires Owned(s) && s.pos <= |c.comments| && s.mpc.Reuse?
    ensures Owned(MainStep(c, s))
  {
    hide NoDup, InStore, Objects, Others;
    var s' := MainStep(c, s);
    ObjectsFromFront(s);
    ObjectsFromFront(s');
    SameOthers(s, s');
    if s.rq == [] {
      AddOne(Objects(s), |s.store|);
      assert Objects(s') == Objects(s) + [|s.store|];
    } else {
      assert Objects(s) == [s.rq[0]] + (s.rq[1..] + Others(s));
      Rotate(s.rq[0], s.rq[1..] + Others(s), |s.store|);
    }
  }

  lemma CollectOwned(c: Capture, s: State)
    requires Owned(s) && s.pos <= |c.comments| && s.mpc.Collect?
    ensures Owned(MainStep(c, s))
  {
    hide NoDup, InStore, Objects, Others;
    var s' := MainStep(c, s);
    ObjectsFromFront(s);
    ObjectsFromFront(s');
    SameOthers(s, s');
    if s.rq != [] {
      assert Objects(s) == [] + [s.rq[0]] + (s.rq[1..] + Others(s));
      DropOne([], s.rq[0], s.rq[1..] + Others(s), |s.store|);
      assert Objects(s') == [] + (s.rq[1..] + Others(s));
    }
  }

  lemma PutOwned(c: Capture, s: State)
    requires Owned(s) && s.wpc.WPut?
    ensures Owned(WriterStep(c, s))
  {
    hide NoDup, InStore, Objects;
    HandsInStore(s);
    var s' := WriterStep(c, s);
    var rest := s.wq + ParserHand(s.ppc) + s.pq + MainHand(s.mpc);
    AfterPut(s);
    AfterPut(s');
    if |s.rq| < CAPACITY {
      assert s.rq + [s.wpc.task] + rest == (s.rq + [s.wpc.task]) + [] + rest;
    } else {
      assert s.rq + [] + rest == s.rq + rest;
      DropOne(s.rq, s.wpc.task, rest, |s.store|);
    }
  }

  lemma AfterPut(s: State)
    ensures Objects(s) == s.rq + WriterHand(s.wpc) + (s.wq + ParserHand(s.ppc) + s.pq + MainHand(s.mpc))
  {
  }

  lemma StepOwned(c: Capture, s: State, a: Actor)
    requires Owned(s) && s.pos <= |c.comments|
    ensures Owned(Step(c, s, a))
  {
    hide NoDup, InStore, Objects, MainStep, ParserStep, WriterStep;
    match a
    case Main =>
      if s.mpc.Reuse? {
        ReuseOwned(c, s);
      } else if s.mpc.Collect? {
        CollectOwned(c, s);
      } else {
        MainKeepsObjects(c, s);
      }
    case Parser => ParserKeepsObjects(c, s);
    case Writer =>
      if s.wpc.WPut? {
        PutOwned(c, s);
      } else {
        WriterKeepsObjects(c, s);
      }
  }

  lemma AddOne(xs: seq<nat>, n: nat)
    requires NoDup(xs) && InStore(xs, n)
    ensures NoDup(xs + [n]) && InStore(xs + [n], n + 1)
  {
  }

  lemma Rotate(x: nat, xs: seq<nat>, n: nat)
    requires NoDup([x] + xs) && InStore([x] + xs, n)
    ensures NoDup(xs + [x]) && InStore(xs + [x], n)
  {
    var a, b := [x] + xs, xs + [x];
    assert forall i :: 0 <= i < |xs| ==> b[i] == a[i + 1];
    assert b[|xs|] == a[0];
  }

  lemma DropOne(front: seq<nat>, x: nat, back: seq<nat>, n: nat)
    requires NoDup(front + [x] + back) && InStore(front + [x] + back, n)
    ensures NoDup(front + back) && InStore(front + back, n)
  {
    var a, b := front + [x] + back, front + back;
    assert forall i :: 0 <= i < |b| ==> b[i] == a[if i < |front| then i else i + 1];
  }

  lemma NotElsewhere(front: seq<nat>, x: nat, back: seq<nat>)
    requires NoDup(front + [x] + back)
    ensures x !in front && x !in back
  {
    var all := front + [x] + back;
    assert all[|front|] == x;
    assert forall i :: 0 <= i < |front| ==> all[i] == front[i];
    assert forall i :: 0 <= i < |back| ==> all[|front| + 1 + i] == back[i];
  }

  /** The task in one stage's hand is nowhere else. */
  lemma MainApart(s: State)
    requires Owned(s) && (s.mpc.Fill? || s.mpc.Give?)
    ensures var t := s.mpc.task;
            t !in s.rq && t !in WriterHand(s.wpc) && t !in s.wq && t !in ParserHand(s.ppc) && t !in s.pq
  {
    hide NoDup, InStore;
    var front := s.rq + WriterHand(s.wpc) + s.wq + ParserHand(s.ppc) + s.pq;
    assert Objects(s) == front + [s.mpc.task] + [];
    NotElsewhere(front, s.mpc.task, []);
  }

  lemma ParserApart(s: State)
    requires Owned(s) && (s.ppc.PExtract? || s.ppc.PGive?)
    ensures var t := s.ppc.task;
            t !in s.rq && t !in WriterHand(s.wpc) && t !in s.wq && t !in s.pq && t !in MainHand(s.mpc)
  {
    hide NoDup, InStore;
    var front, back := s.rq + WriterHand(s.wpc) + s.wq, s.pq + MainHand(s.mpc);
    assert Objects(s) == front + [s.ppc.task] + back;
    NotElsewhere(front, s.ppc.task, back);
  }

  lemma WriterApart(s: State)
    requires Owned(s) && (s.wpc.WRun? || s.wpc.WPut?)
    ensures var t := s.wpc.task;
            t !in s.rq && t !in s.wq && t !in ParserHand(s.ppc) && t !in s.pq && t !in MainHand(s.mpc)
  {
    hide NoDup, InStore;
    var back := s.wq + ParserHand(s.ppc) + s.pq + MainHand(s.mpc);
    assert Objects(s) == s.rq + [s.wpc.task] + back;
    NotElsewhere(s.rq, s.wpc.task, back);
  }

  // ---------------------------------------------------------------- order

  lemma MapAgree(xs: seq<nat>, f: nat -> nat, g: nat -> nat)
    requires forall x :: x in xs ==> f(x) == g(x)
    ensures Map(xs, f) == Map(xs, g)
  {
  }

  lemma UpToSnoc(n: nat)
    ensures UpTo(n + 1) == UpTo(n) + [n + 1]
  {
  }

  /** Lines stay as they are when a store entry outside the list changes, or only its verdict does. */
  lemma SameLines(xs: seq<nat>, store: seq<Info>, t: nat, info: Info)
    requires t < |store| && (t !in xs || info.lineno == store[t].lineno)
    ensures Map(xs, LineOf(store[t := info])) == Map(xs, LineOf(store))
  {
    MapAgree(xs, LineOf(store[t := info]), LineOf(store));
  }

  /** Moving tasks between stages. */
  lemma SameFlight(s: State, s': State)
    requires InOrder(s) && s'.emitted == s.emitted && s'.parsed == s.parsed && s'.store == s.store
    requires Issued(s') == Issued(s) && ToRun(s') == ToRun(s) && ToParse(s') == ToParse(s)
    ensures InOrder(s')
  {
  }

  lemma MainInOrder(c: Capture, s: State)
    requires Owned(s) && s.pos <= |c.comments| && InOrder(s) && (s.mpc.Reuse? || s.mpc.Fill? ==> s.lineno >= 1)
    ensures InOrder(MainStep(c, s))
  {
    hide NoDup, InStore, Objects, InOrder, ToRun, ToParse, MainStep;
    var s' := MainStep(c, s);
    if s.mpc.Fill? {
      FillInOrder(c, s);
    } else if s.mpc.Reuse? && s.rq == [] {
      NewObject(c, s);
      NewObjectInOrder(s, s');
    } else {
      MainQuiet(c, s);
      SameMainFlight(s, s');
      SameFlight(s, s');
    }
  }

  lemma NewObject(c: Capture, s: State)
    requires InStore(Objects(s), |s.store|) && s.pos <= |c.comments| && s.mpc.Reuse? && s.rq == []
    ensures MainStep(c, s) == s.(store := s.store + [Info(0, false)], mpc := Fill(|s.store|))
  {
  }

  lemma MainQuiet(c: Capture, s: State)
    requires InStore(Objects(s), |s.store|) && s.pos <= |c.comments|
    requires !s.mpc.Fill? && !(s.mpc.Reuse? && s.rq == [])
    ensures var s' := MainStep(c, s);
            && s'.wpc == s.wpc && s'.wq == s.wq && s'.ppc == s.ppc && s'.store == s.store
            && s'.pq + Filled(s'.mpc) == s.pq + Filled(s.mpc)
            && s'.emitted == s.emitted && s'.parsed == s.parsed && Issued(s') == Issued(s)
  {
    hide InStore, Objects, MainStep, Issued, Filled;
    if s.mpc.Give? {
      GiveQuiet(c, s);
    } else {
      ElseQuiet(c, s);
    }
  }

  lemma GiveQuiet(c: Capture, s: State)
    requires InStore(Objects(s), |s.store|) && s.pos <= |c.comments| && s.mpc.Give?
    ensures var s' := MainStep(c, s);
            && s' == s.(pq := s'.pq, mpc := s'.mpc)
            && s'.pq + Filled(s'.mpc) == s.pq + Filled(s.mpc) && Issued(s') == Issued(s)
  {
    hide InStore, Objects;
  }

  lemma ElseQuiet(c: Capture, s: State)
    requires InStore(Objects(s), |s.store|) && s.pos <= |c.comments|
    requires !s.mpc.Fill? && !s.mpc.Give? && !(s.mpc.Reuse? && s.rq == [])
    ensures var s' := MainStep(c, s);
            && s'.wpc == s.wpc && s'.wq == s.wq && s'.ppc == s.ppc && s'.store == s.store && s'.pq == s.pq
            && (s'.mpc.Fill? || Filled(s'.mpc) == []) && Filled(s'.mpc) == Filled(s.mpc)
            && s'.emitted == s.emitted && s'.parsed == s.parsed && Issued(s') == Issued(s)
  {
    hide InStore, Objects;
  }

  lemma SameMainFlight(s: State, s': State)
    requires s'.wpc == s.wpc && s'.wq == s.wq && s'.ppc == s.ppc && s'.pq + Filled(s'.mpc) == s.pq + Filled(s.mpc)
    ensures ToRun(s') == ToRun(s) && ToParse(s') == ToParse(s)
  {
    assert ToParse(s) == Unparsed(s.ppc) + (s.pq + Filled(s.mpc));
    assert ToParse(s') == Unparsed(s'.ppc) + (s'.pq + Filled(s'.mpc));
  }

  lemma SameWriterFlight(s: State, s': State)
    requires s'.ppc == s.ppc && s'.pq == s.pq && s'.mpc == s.mpc && Unrun(s'.wpc) + s'.wq == Unrun(s.wpc) + s.wq
    ensures ToRun(s') == ToRun(s) && ToParse(s') == ToParse(s)
  {
  }

  lemma NewObjectInOrder(s: State, s': State)
    requires Owned(s) && InOrder(s) && s.mpc.Reuse? && s'.mpc.Fill? && s'.store == s.store + [Info(0, false)]
    requires s' == s.(store := s'.store, mpc := s'.mpc)
    ensures InOrder(s')
  {
    hide NoDup, Objects, UpTo;
    InFlightInStore(s);
    MapAgree(ToRun(s), LineOf(s'.store), LineOf(s.store));
    MapAgree(ToParse(s), LineOf(s'.store), LineOf(s.store));
  }

  lemma InFlightInStore(s: State)
    requires InStore(Objects(s), |s.store|)
    ensures InStore(ToRun(s), |s.store|) && InStore(ToParse(s), |s.store|)
  {
    assert forall t :: t in ToRun(s) ==> t in Objects(s);
    assert forall t :: t in ToParse(s) ==> t in Objects(s);
    assert forall i :: 0 <= i < |ToRun(s)| ==> ToRun(s)[i] in ToRun(s);
    assert forall i :: 0 <= i < |ToParse(s)| ==> ToParse(s)[i] in ToParse(s);
  }

  /** gtask_init overwrites no line in flight and adds the one just read. */
  lemma FillInOrder(c: Capture, s: State)
    requires Owned(s) && s.pos <= |c.comments| && InOrder(s) && s.mpc.Fill? && s.lineno >= 1
    ensures InOrder(MainStep(c, s))
  {
    hide NoDup, InStore, Objects, UpTo;
    HandsInStore(s);
    MainApart(s);
    var t, s' := s.mpc.task, MainStep(c, s);
    SameLines(ToRun(s), s.store, t, Info(s.lineno, false));
    SameLines(ToParse(s), s.store, t, Info(s.lineno, false));
    assert ToParse(s') == ToParse(s) + [t];
    MapSnoc(ToParse(s), t, LineOf(s'.store));
    UpToSnoc(s.lineno - 1);
    assert s.parsed + (Map(ToParse(s), LineOf(s'.store)) + [s.lineno])
        == (s.parsed + Map(ToParse(s), LineOf(s'.store))) + [s.lineno];
  }

  lemma ParserInOrder(c: Capture, s: State)
    requires Owned(s) && InOrder(s)
    ensures InOrder(ParserStep(c, s))
  {
    hide NoDup, InStore, Objects, InOrder;
    var s' := ParserStep(c, s);
    if s.ppc.PExtract? {
      ExtractInOrder(c, s);
    } else {
      if s.ppc.PNext? && s.pq != [] {
        assert ToParse(s') == ToParse(s);
      } else if s.ppc.PGive? && |s.wq| < CAPACITY {
        assert ToRun(s') == ToRun(s);
      }
      SameFlight(s, s');
    }
  }

  lemma ExtractInOrder(c: Capture, s: State)
    requires Owned(s) && InOrder(s) && s.ppc.PExtract?
    ensures InOrder(ParserStep(c, s))
  {
    hide NoDup, InStore, Objects, UpTo, Map;
    HandsInStore(s);
    var t, s' := s.ppc.task, ParserStep(c, s);
    var info := s'.store[t];
    var line := info.lineno;
    SameLines(ToRun(s), s.store, t, info);
    SameLines(ToParse(s), s.store, t, info);
    assert ToRun(s') == ToRun(s) + [t];
    MapSnoc(ToRun(s), t, LineOf(s'.store));
    assert s.emitted + (Map(ToRun(s), LineOf(s.store)) + [line])
           == (s.emitted + Map(ToRun(s), LineOf(s.store))) + [line];
    assert ToParse(s) == [t] + ToParse(s');
    MapConcat([t], ToParse(s'), LineOf(s.store));
    MapAgree(ToParse(s'), LineOf(s'.store), LineOf(s.store));
    assert Map([t], LineOf(s.store)) == [line];
    assert s.parsed + ([line] + Map(ToParse(s'), LineOf(s.store)))
           == (s.parsed + [line]) + Map(ToParse(s'), LineOf(s.store));
  }

  lemma WriterInOrder(c: Capture, s: State)
    requires Owned(s) && InOrder(s)
    ensures InOrder(WriterStep(c, s))
  {
    hide NoDup, InStore, Objects, InOrder, ToRun, ToParse, WriterStep;
    if s.wpc.WRun? {
      RunInOrder(c, s);
    } else {
      WriterQuiet(c, s);
      SameWriterFlight(s, WriterStep(c, s));
      SameFlight(s, WriterStep(c, s));
    }
  }

  lemma WriterQuiet(c: Capture, s: State)
    requires InStore(Objects(s), |s.store|) && !s.wpc.WRun?
    ensures var s' := WriterStep(c, s);
            && s'.ppc == s.ppc && s'.pq == s.pq && s'.mpc == s.mpc && s'.store == s.store && s'.lineno == s.lineno
            && s'.emitted == s.emitted && s'.parsed == s.parsed
            && Unrun(s'.wpc) + s'.wq == Unrun(s.wpc) + s.wq
  {
    hide InStore, Objects;
  }

  lemma RunInOrder(c: Capture, s: State)
    requires Owned(s) && InOrder(s) && s.wpc.WRun?
    ensures InOrder(WriterStep(c, s))
  {
    hide NoDup, InStore, Objects, UpTo, Map;
    HandsInStore(s);
    var t, s' := s.wpc.task, WriterStep(c, s);
    var info := s'.store[t];
    var line := info.lineno;
    SameLines(ToParse(s), s.store, t, info);
    assert ToRun(s) == [t] + ToRun(s');
    MapConcat([t], ToRun(s'), LineOf(s.store));
    MapAgree(ToRun(s'), LineOf(s'.store), LineOf(s.store));
    assert Map([t], LineOf(s.store)) == [line];
    assert s.emitted + ([line] + Map(ToRun(s'), LineOf(s.store)))
           == (s.emitted + [line]) + Map(ToRun(s'), LineOf(s.store));
  }

  // ---------------------------------------------------------------- verdicts and counts

  lemma {:induction false} CountAgree(xs: seq<nat>, p: nat -> bool, q: nat -> bool)
    requires forall x :: x in xs ==> p(x) == q(x)
    ensures Count(xs, p) == Count(xs, q)
    decreases |xs|
  {
    if xs == [] {
    } else {
      CountAgree(xs[..|xs| - 1], p, q);
    }
  }

  lemma CountSnoc(xs: seq<nat>, x: nat, p: nat -> bool)
    ensures Count(xs + [x], p) == Count(xs, p) + if p(x) then 1 else 0
  {
    assert (xs + [x])[..|xs|] == xs;
  }

  lemma {:induction false} CountCons(x: nat, xs: seq<nat>, p: nat -> bool)
    ensures Count([x] + xs, p) == Count(xs, p) + if p(x) then 1 else 0
    decreases |xs|
  {
    if xs == [] {
      assert [x] + xs == [] + [x];
      CountSnoc([], x, p);
    } else {
      var front, last := xs[..|xs| - 1], xs[|xs| - 1];
      assert [x] + xs == ([x] + front) + [last];
      CountSnoc([x] + front, last, p);
      CountCons(x, front, p);
    }
  }

  /** The verdicts of processed tasks stay when an entry outside them changes. */
  lemma SameCount(xs: seq<nat>, store: seq<Info>, store': seq<Info>)
    requires forall x :: x in xs ==> x < |store| && x < |store'| && store'[x] == store[x]
    ensures Count(xs, Failed(store')) == Count(xs, Failed(store))
  {
    CountAgree(xs, Failed(store'), Failed(store));
  }

  lemma ProcessedInStore(s: State)
    requires InStore(Objects(s), |s.store|)
    ensures forall t :: t in Processed(s) ==> t < |s.store|
    ensures forall t :: t in s.rq ==> t < |s.store|
  {
    assert forall t :: t in Processed(s) ==> t in Objects(s);
    assert forall t :: t in s.rq ==> t in Processed(s);
  }

  /** Fetching a task from the reuse ring counts it if it failed; without one a new object is made. */
  lemma FetchCounted(c: Capture, s: State)
    requires InStore(Objects(s), |s.store|) && s.pos <= |c.comments| && Counted(c, s)
    requires s.mpc.Reuse? || s.mpc.Collect?
    ensures Counted(c, MainStep(c, s))
  {
    hide NoDup, InStore, Objects, Count, Reading;
    var s' := MainStep(c, s);
    ProcessedInStore(s);
    if s.rq != [] {
      assert Processed(s) == [s.rq[0]] + Processed(s');
      assert s.rq[0] in s.rq;
      CountCons(s.rq[0], Processed(s'), Failed(s.store));
    } else {
      SameCount(Processed(s), s.store, s'.store);
    }
  }

  /** The object being filled is none of those that wait to be counted. */
  lemma FillCounted(c: Capture, s: State)
    requires Owned(s) && s.pos <= |c.comments| && Counted(c, s) && s.mpc.Fill?
    ensures Counted(c, MainStep(c, s))
  {
    hide NoDup, InStore, Objects, Count, Reading;
    ProcessedInStore(s);
    HandsInStore(s);
    MainApart(s);
    SameCount(Processed(s), s.store, MainStep(c, s).store);
  }

  lemma MainCounted(c: Capture, s: State)
    requires Owned(s) && s.pos <= |c.comments| && Counted(c, s)
    ensures Counted(c, MainStep(c, s))
  {
    hide NoDup, InStore, Objects, Count, Reading;
    if s.mpc.Reuse? || s.mpc.Collect? {
      FetchCounted(c, s);
    } else if s.mpc.Fill? {
      FillCounted(c, s);
    }
  }

  lemma ParserCounted(c: Capture, s: State)
    requires Owned(s) && Counted(c, s)
    ensures Counted(c, ParserStep(c, s))
  {
    hide NoDup, InStore, Objects, Count;
    var s' := ParserStep(c, s);
    ProcessedInStore(s);
    HandsInStore(s);
    if s.ppc.PExtract? {
      ParserApart(s);
      SameCount(Processed(s), s.store, s'.store);
    }
  }

  lemma RunCounted(c: Capture, s: State)
    requires Owned(s) && Counted(c, s) && Verdicts(c, s) && s.wpc.WRun?
    ensures Counted(c, WriterStep(c, s))
  {
    hide NoDup, InStore, Objects, Count;
    var t, s' := s.wpc.task, WriterStep(c, s);
    ProcessedInStore(s);
    HandsInStore(s);
    WriterApart(s);
    SameCount(s.rq, s.store, s'.store);
    CountSnoc(s.rq, t, Failed(s'.store));
    CountSnoc(s.emitted, s.store[t].lineno, FailsOf(c));
    assert Processed(s) == s.rq && Processed(s') == s.rq + [t];
  }

  lemma PutCounted(c: Capture, s: State)
    requires Owned(s) && Counted(c, s) && s.wpc.WPut?
    ensures Counted(c, WriterStep(c, s))
  {
    hide NoDup, InStore, Objects, Count;
    var t, s' := s.wpc.task, WriterStep(c, s);
    HandsInStore(s);
    CountSnoc(s.rq, t, Failed(s.store));
    assert Processed(s) == s.rq + [t];
    assert Processed(s') == if |s.rq| < CAPACITY then s.rq + [t] else s.rq;
  }

  lemma WriterCounted(c: Capture, s: State)
    requires Owned(s) && Counted(c, s) && Verdicts(c, s)
    ensures Counted(c, WriterStep(c, s))
  {
    hide NoDup, InStore, Objects, Count;
    if s.wpc.WRun? {
      RunCounted(c, s);
    } else if s.wpc.WPut? {
      PutCounted(c, s);
    }
  }

  lemma MainVerdicts(c: Capture, s: State)
    requires Owned(s) && s.pos <= |c.comments| && Verdicts(c, s)
    ensures Verdicts(c, MainStep(c, s))
  {
    hide NoDup, InStore, Objects;
    HandsInStore(s);
    if s.mpc.Fill? {
      MainApart(s);
    }
  }

  lemma ParserVerdicts(c: Capture, s: State)
    requires Owned(s) && Verdicts(c, s)
    ensures Verdicts(c, ParserStep(c, s))
  {
    hide NoDup, InStore, Objects;
    HandsInStore(s);
    if s.ppc.PExtract? {
      ParserApart(s);
    }
  }

  lemma WriterVerdicts(c: Capture, s: State)
    requires Owned(s) && Verdicts(c, s)
    ensures Verdicts(c, WriterStep(c, s))
  {
    hide NoDup, InStore, Objects;
    HandsInStore(s);
    if s.wpc.WRun? {
      WriterApart(s);
    }
  }

  // ---------------------------------------------------------------- reading and shutting down

  lemma StepReading(c: Capture, s: State, a: Actor)
    requires InStore(Objects(s), |s.store|) && Reading(c, s)
    ensures Reading(c, Step(c, s, a))
  {
    hide InStore, Objects, MainStep;
    if a.Main? {
      MainReading(c, s);
    }
  }

  lemma MainReading(c: Capture, s: State)
    requires InStore(Objects(s), |s.store|) && Reading(c, s)
    ensures Reading(c, MainStep(c, s))
  {
    hide InStore, Objects;
  }

  lemma MainShutdown(c: Capture, s: State)
    requires InStore(Objects(s), |s.store|) && s.pos <= |c.comments| && Shutdown(s)
    ensures Shutdown(MainStep(c, s))
  {
    hide InStore, Objects;
  }

  lemma ParserShutdown(c: Capture, s: State)
    requires InStore(Objects(s), |s.store|) && Shutdown(s)
    ensures Shutdown(ParserStep(c, s))
  {
    hide InStore, Objects;
  }

  lemma WriterShutdown(c: Capture, s: State)
    requires InStore(Objects(s), |s.store|) && Shutdown(s)
    ensures Shutdown(WriterStep(c, s))
  {
    hide InStore, Objects;
  }

  lemma InvShape(c: Capture, s: State)
    requires Inv(c, s)
    ensures InStore(Objects(s), |s.store|) && s.pos <= |c.comments|
  {
  }
}
