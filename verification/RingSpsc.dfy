/**
 The lock-free ring of datas/rbuffer.c, cut at its single shared accesses and run by one
 consumer and by producers that take turns under a mutex. Memory is sequentially
 consistent. A slot holds None where the C code stores NULL.
 */
module RingSpsc {
  import opened Seqs

  /** Where the producer that holds the ring is inside rbuffer_insert. */
  datatype Producer<T> =
    | Outside
    | Entered(who: nat, data: T)          // mutex taken, nothing read yet
    | SawSpace(who: nat, data: T)         // read_pos differed from write_pos
    | Stored(who: nat, data: T)           // slot written, write_pos not yet published
    | Leaving(who: nat, inserted: bool)   // mutex still held

  /** Where the consumer is inside rbuffer_get_next. */
  datatype Consumer<T> =
    | Away
    | SawItem(slot: nat)                        // write_pos differed from the slot to read
    | Loaded(slot: nat, data: Option<T>)        // slot read
    | Cleared(slot: nat, data: Option<T>)       // slot set to NULL, read_pos not yet published

  /** A completed queue operation, recorded at its linearisation point. */
  datatype QueueOp<T> = Push(item: T) | PushFull | Pop(result: Option<T>) | PopEmpty

  datatype Ring<T> = Ring(
    slots: seq<Option<T>>, readPos: nat, writePos: nat,
    prod: Producer<T>, cons: Consumer<T>,
    ops: seq<QueueOp<T>>, items: seq<T>)

  /** Who moves next: a producer that wants to insert `data`, or the consumer. */
  datatype Move<T> = Produce(who: nat, data: T) | GetNext | HasNext

  function New<T>(size: nat): Ring<T>
    requires size >= 1
  {
    Ring(seq(size, i => None), size - 1, 0, Outside, Away, [], [])
  }

  function Next<T>(r: Ring<T>, pos: nat): nat
    requires |r.slots| >= 1
  {
    (pos + 1) % |r.slots|
  }

  /** The positions stay inside the ring and a consumer in progress points at its slot. */
  ghost predicate InBounds<T>(r: Ring<T>) {
    && |r.slots| >= 1 && r.readPos < |r.slots| && r.writePos < |r.slots|
    && (r.cons != Away ==> r.cons.slot < |r.slots|)
  }

  /** rbuffer_insert: one shared access per move. */
  function ProducerStep<T>(r: Ring<T>, who: nat, data: T): Ring<T>
    requires InBounds(r)
  {
    match r.prod
    case Outside => r.(prod := Entered(who, data))
    case Entered(p, d) =>
      if p != who then r
      else if r.writePos == r.readPos then r.(prod := Leaving(p, false), ops := r.ops + [PushFull])
      else r.(prod := SawSpace(p, d))
    case SawSpace(p, d) =>
      if p != who then r else r.(slots := r.slots[r.writePos := Some(d)], prod := Stored(p, d))
    case Stored(p, d) =>
      if p != who then r
      else r.(writePos := Next(r, r.writePos), prod := Leaving(p, true),
              ops := r.ops + [Push(d)], items := r.items + [d])
    case Leaving(p, ok) => if p != who then r else r.(prod := Outside)
  }

  /** rbuffer_get_next: one shared access per move. */
  function ConsumerStep<T>(r: Ring<T>): Ring<T>
    requires InBounds(r)
  {
    match r.cons
    case Away =>
      if Next(r, r.readPos) == r.writePos then r.(ops := r.ops + [PopEmpty])
      else r.(cons := SawItem(Next(r, r.readPos)))
    case SawItem(slot) => r.(cons := Loaded(slot, r.slots[slot]))
    case Loaded(slot, d) => r.(slots := r.slots[slot := None], cons := Cleared(slot, d))
    case Cleared(slot, d) =>
      r.(readPos := slot, cons := Away, ops := r.ops + [Pop(d)],
         items := if r.items == [] then [] else r.items[1..])
  }

  function Step<T>(r: Ring<T>, m: Move<T>): Ring<T>
    requires InBounds(r)
  {
    match m
    case Produce(who, data) => ProducerStep(r, who, data)
    case GetNext => ConsumerStep(r)
    case HasNext => r
  }

  // ---------------------------------------------------------------- invariant

  /** The slot of the k-th unread element. */
  function SlotOf<T>(r: Ring<T>, k: nat): int {
    var i := r.readPos + 1 + k;
    if i >= |r.slots| then i - |r.slots| else i
  }

  /** How many elements the positions say are held. */
  function Held<T>(r: Ring<T>): int {
    if r.writePos > r.readPos then r.writePos - r.readPos - 1
    else r.writePos + |r.slots| - r.readPos - 1
  }

  ghost predicate Inv<T>(r: Ring<T>) {
    && InBounds(r)
    && |r.items| == Held(r)
    && (forall k {:trigger r.items[k]} :: 0 <= k < |r.items| ==>
          r.slots[SlotOf(r, k)] == if k == 0 && r.cons.Cleared? then None else Some(r.items[k]))
    && (r.prod.SawSpace? || r.prod.Stored? ==> |r.items| < |r.slots| - 1)
    && (r.prod.Stored? ==> r.slots[r.writePos] == Some(r.prod.data))
    && (r.cons != Away ==> |r.items| > 0 && r.cons.slot == SlotOf(r, 0))
    && (r.cons.Loaded? || r.cons.Cleared? ==> r.cons.data == Some(r.items[0]))
  }

  lemma NextIsWrap<T>(r: Ring<T>, pos: nat)
    requires |r.slots| >= 1 && pos < |r.slots|
    ensures Next(r, pos) == if pos + 1 == |r.slots| then 0 else pos + 1
  {
    if pos + 1 < |r.slots| {
      assert (pos + 1) % |r.slots| == pos + 1;
    }
  }

  lemma NewInv<T>(size: nat)
    requires size >= 1
    ensures Inv(New<T>(size))
  {
  }

  lemma ProducerInv<T>(r: Ring<T>, who: nat, data: T)
    requires Inv(r)
    ensures Inv(ProducerStep(r, who, data))
  {
    NextIsWrap(r, r.writePos);
    if r.prod.SawSpace? && r.prod.who == who {
      StoreInv(r);
    } else if r.prod.Stored? && r.prod.who == who {
      PublishInv(r);
    }
  }

  /** Writing the slot at writePos touches no held element. */
  lemma StoreInv<T>(r: Ring<T>)
    requires Inv(r) && r.prod.SawSpace?
    ensures Inv(r.(slots := r.slots[r.writePos := Some(r.prod.data)], prod := Stored(r.prod.who, r.prod.data)))
  {
    forall k {:trigger r.items[k]} | 0 <= k < |r.items|
      ensures SlotOf(r, k) != r.writePos
    {
    }
  }

  /** Publishing makes the slot just written the youngest element. */
  lemma PublishInv<T>(r: Ring<T>)
    requires Inv(r) && r.prod.Stored?
    ensures Inv(r.(writePos := if r.writePos + 1 == |r.slots| then 0 else r.writePos + 1,
                   prod := Leaving(r.prod.who, true), ops := r.ops + [Push(r.prod.data)],
                   items := r.items + [r.prod.data]))
  {
    var r' := r.(writePos := if r.writePos + 1 == |r.slots| then 0 else r.writePos + 1,
                 prod := Leaving(r.prod.who, true), ops := r.ops + [Push(r.prod.data)],
                 items := r.items + [r.prod.data]);
    assert SlotOf(r, |r.items|) == r.writePos;
    assert Held(r') == Held(r) + 1;
    assert r.items != [] ==> r'.items[0] == r.items[0];
    forall k {:trigger r'.items[k]} | 0 <= k < |r'.items|
      ensures r'.slots[SlotOf(r', k)] == if k == 0 && r'.cons.Cleared? then None else Some(r'.items[k])
    {
      assert SlotOf(r', k) == SlotOf(r, k);
      if k < |r.items| {
        assert r'.items[k] == r.items[k];
      }
    }
  }

  lemma ConsumerInv<T>(r: Ring<T>)
    requires Inv(r)
    ensures Inv(ConsumerStep(r))
  {
    NextIsWrap(r, r.readPos);
    var r' := ConsumerStep(r);
    if r.cons.Cleared? {
      forall k {:trigger r'.items[k]} | 0 <= k < |r'.items|
        ensures r'.slots[SlotOf(r', k)] == Some(r'.items[k])
      {
        assert r'.items[k] == r.items[k + 1];
        assert SlotOf(r', k) == SlotOf(r, k + 1);
      }
    }
  }

  // ---------------------------------------------------------------- runs

  /** The states that one interleaving of single accesses goes through. */
  ghost predicate Trace<T>(size: nat, moves: seq<Move<T>>, rings: seq<Ring<T>>) {
    && size >= 1 && |rings| == |moves| + 1 && rings[0] == New(size)
    && forall i {:trigger moves[i]} :: 0 <= i < |moves| ==>
         InBounds(rings[i]) && rings[i + 1] == Step(rings[i], moves[i])
  }

  /** Some interleaving leads a new ring of this size to this state. */
  ghost predicate Reachable<T(!new)>(size: nat, r: Ring<T>) {
    exists moves, rings :: Trace(size, moves, rings) && r == rings[|moves|]
  }

  lemma StepInv<T>(r: Ring<T>, m: Move<T>)
    requires Inv(r)
    ensures Inv(Step(r, m)) && |Step(r, m).slots| == |r.slots|
  {
    match m
    case Produce(who, data) => ProducerInv(r, who, data);
    case GetNext => ConsumerInv(r);
    case HasNext =>
  }

  /** The effect of one operation on the plain queue; None if the operation is not possible. */
  ghost function Apply<T>(capacity: int, q: seq<T>, op: QueueOp<T>): Option<seq<T>> {
    match op
    case Push(x) => if |q| < capacity then Some(q + [x]) else None
    case PushFull => if |q| == capacity then Some(q) else None
    case Pop(x) => if q != [] && x == Some(q[0]) then Some(q[1..]) else None
    case PopEmpty => if q == [] then Some(q) else None
  }

  /**
   A plain bounded queue executing the same operations one at a time: a push may fail only
   when the queue is exactly full, a pop only when it is exactly empty, and a pop returns
   the oldest element.
   */
  ghost function Replay<T>(capacity: int, ops: seq<QueueOp<T>>): Option<seq<T>> {
    if ops == [] then Some([])
    else
      var before := Replay(capacity, ops[..|ops| - 1]);
      if before.None? then None else Apply(capacity, before.value, ops[|ops| - 1])
  }

  /** One move appends at most one queue operation, and that operation is legal where it is recorded. */
  lemma StepRefines<T>(r: Ring<T>, m: Move<T>)
    requires Inv(r) && Replay(|r.slots| - 1, r.ops) == Some(r.items)
    ensures Replay(|r.slots| - 1, Step(r, m).ops) == Some(Step(r, m).items)
  {
    var r' := Step(r, m);
    if r'.ops != r.ops {
      LegalHere(r, m);
      assert r'.ops[..|r'.ops| - 1] == r.ops;
    }
  }

  lemma LegalHere<T>(r: Ring<T>, m: Move<T>)
    requires Inv(r) && Step(r, m).ops != r.ops
    ensures var r' := Step(r, m);
            r'.ops == r.ops + [r'.ops[|r.ops|]] && Apply(|r.slots| - 1, r.items, r'.ops[|r.ops|]) == Some(r'.items)
  {
    NextIsWrap(r, r.readPos);
  }

  lemma {:induction false} TraceRefines<T>(size: nat, moves: seq<Move<T>>, rings: seq<Ring<T>>, i: nat)
    requires Trace(size, moves, rings) && i <= |moves|
    ensures Inv(rings[i]) && |rings[i].slots| == size && Replay(size - 1, rings[i].ops) == Some(rings[i].items)
  {
    hide Inv, Step;
    if i == 0 {
      NewInv<T>(size);
    } else {
      TraceRefines(size, moves, rings, i - 1);
      assert rings[i] == Step(rings[i - 1], moves[i - 1]);
      StepInv(rings[i - 1], moves[i - 1]);
      StepRefines(rings[i - 1], moves[i - 1]);
    }
  }

  /** Every reachable ring is consistent. */
  lemma ReachableInv<T(!new)>(size: nat, r: Ring<T>)
    requires Reachable(size, r)
    ensures Inv(r) && |r.slots| == size && Replay(size - 1, r.ops) == Some(r.items)
  {
    hide Inv;
    var moves, rings :| Trace(size, moves, rings) && r == rings[|moves|];
    TraceRefines(size, moves, rings, |moves|);
  }

  /** Every interleaving of single accesses is an execution of the bounded queue of size-1. */
  lemma Linearisable<T(!new)>(size: nat, r: Ring<T>)
    requires Reachable(size, r)
    ensures Replay(size - 1, r.ops) == Some(r.items)
  {
    ReachableInv(size, r);
  }

  function Pushed<T>(ops: seq<QueueOp<T>>): seq<T> {
    if ops == [] then []
    else
      var last := ops[|ops| - 1];
      Pushed(ops[..|ops| - 1]) + if last.Push? then [last.item] else []
  }

  function Popped<T>(ops: seq<QueueOp<T>>): seq<Option<T>> {
    if ops == [] then []
    else
      var last := ops[|ops| - 1];
      Popped(ops[..|ops| - 1]) + if last.Pop? then [last.result] else []
  }

  /** What a legal history returns is, in order, the front of what it inserted; the rest is held. */
  lemma {:induction false} ReplayIsFifo<T>(capacity: nat, ops: seq<QueueOp<T>>)
    requires Replay(capacity, ops).Some?
    ensures |Replay(capacity, ops).value| <= capacity
    ensures Map(Pushed(ops), x => Some(x)) == Popped(ops) + Map(Replay(capacity, ops).value, x => Some(x))
    decreases |ops|
  {
    if ops == [] {
    } else {
      ReplayIsFifo(capacity, ops[..|ops| - 1]);
    }
  }

  /**
   At every moment of every interleaving the values returned form a prefix of the values
   inserted, none of them is NULL, and at most size-1 are held.
   */
  lemma ReturnedIsPrefixOfInserted<T(!new)>(size: nat, r: Ring<T>)
    requires Reachable(size, r)
    ensures |r.items| <= size - 1
    ensures Popped(r.ops) <= Map(Pushed(r.ops), x => Some(x))
  {
    hide Inv;
    ReachableInv(size, r);
    ReplayIsFifo(size - 1, r.ops);
  }

  /**
   When the consumer is about to set its slot to NULL, that slot is neither the one the
   producer writes next nor a slot holding any other published element.
   */
  lemma ClearIsPrivate<T(!new)>(size: nat, r: Ring<T>)
    requires Reachable(size, r) && r.cons.Loaded?
    ensures r.cons.slot != r.writePos
    ensures forall k {:trigger SlotOf(r, k)} :: 1 <= k < |r.items| ==> r.cons.slot != SlotOf(r, k)
  {
    ReachableInv(size, r);
    forall k {:trigger SlotOf(r, k)} | 1 <= k < |r.items|
      ensures r.cons.slot != SlotOf(r, k)
    {
      assert k < Held(r) <= size - 1;
    }
  }

  /** rbuffer_has_next, asked by the consumer between two of its operations, is exact when it reads write_pos. */
  lemma HasNextIsExact<T(!new)>(size: nat, r: Ring<T>)
    requires Reachable(size, r) && r.cons == Away
    ensures |r.slots| >= 1 && (Next(r, r.readPos) != r.writePos <==> r.items != [])
  {
    ReachableInv(size, r);
    NextIsWrap(r, r.readPos);
  }
}
