/** The ring buffer object of datas/rbuffer.c as one caller sees it. */
module RingBuffer {
  import opened Seqs

  /** The elements held by a ring, oldest first: `n` slots from the one after `readPos`. */
  function Window<T>(ring: seq<T>, readPos: nat, n: nat): (w: seq<T>)
    requires readPos < |ring| && n <= |ring|
    ensures |w| == n
  {
    seq(n, k requires 0 <= k < n =>
      var i := readPos + 1 + k;
      if i < |ring| then ring[i] else ring[i - |ring|])
  }

  class RBuffer<T(0)> {
    var ring: array<T>
    var readPos: nat
    var writePos: nat

    ghost predicate Valid()
      reads this, ring
    {
      ring.Length >= 1 && readPos < ring.Length && writePos < ring.Length
    }

    /** How many elements the two positions delimit. */
    ghost function Count(): nat
      reads this, ring
      requires Valid()
    {
      if writePos > readPos then writePos - readPos - 1 else writePos + ring.Length - readPos - 1
    }

    ghost function Contents(): seq<T>
      reads this, ring
      requires Valid()
    {
      Window(ring[..], readPos, Count())
    }

    constructor (size: nat)
      requires size >= 1
      ensures Valid() && fresh(ring) && ring.Length == size && Contents() == []
    {
      ring := new T[size];
      readPos := size - 1;
      writePos := 0;
    }

    method Insert(data: T) returns (ok: bool)
      requires Valid()
      modifies this`writePos, ring
      ensures Valid() && ring == old(ring)
      ensures ok <==> |old(Contents())| < ring.Length - 1
      ensures Contents() == if ok then old(Contents()) + [data] else old(Contents())
    {
      if writePos == readPos {
        return false;
      }
      ghost var before := ring[..];
      ghost var n := Count();
      ring[writePos] := data;
      WrapIsConditional(writePos, ring.Length);
      writePos := (writePos + 1) % ring.Length;
      assert Count() == n + 1;
      assert Window(ring[..], readPos, n) == Window(before, readPos, n);
      return true;
    }

    method HasNext() returns (has: bool)
      requires Valid()
      ensures has <==> Contents() != []
    {
      WrapIsConditional(readPos, ring.Length);
      var next := (readPos + 1) % ring.Length;
      return next != writePos;
    }

    /** `cleared` is the value a vacated slot is set to (NULL in C). */
    method GetNext(cleared: T) returns (data: Option<T>)
      requires Valid()
      modifies this`readPos, ring
      ensures Valid() && ring == old(ring)
      ensures data == if old(Contents()) == [] then None else Some(old(Contents())[0])
      ensures Contents() == if old(Contents()) == [] then [] else old(Contents())[1..]
    {
      WrapIsConditional(readPos, ring.Length);
      var next := (readPos + 1) % ring.Length;
      if next == writePos {
        return None;
      }
      ghost var before := ring[..];
      ghost var from, n := readPos, Count();
      data := Some(ring[next]);
      ring[next] := cleared;
      readPos := next;
      assert Count() == n - 1;
      assert Contents() == Window(before, from, n)[1..];
    }
  }

  /** The C modulus on an index inside the ring is a conditional wrap. */
  lemma WrapIsConditional(i: nat, size: nat)
    requires i < size
    ensures (i + 1) % size == if i + 1 == size then 0 else i + 1
  {
    if i + 1 < size {
      assert (i + 1) % size == i + 1;
    }
  }
}
