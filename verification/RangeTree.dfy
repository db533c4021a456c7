/**
 The tree of half-open byte ranges of datas/btree.c: a node [key, data) may have its key
 lowered or its end raised in place. First as a function on trees, then as the linked objects.
 */
module RangeTree {

  datatype Tree = Leaf | Node(left: Tree, key: int, end: int, right: Tree)

  // ---------------------------------------------------------------- meaning

  predicate In(x: int, start: int, end: int) { start <= x < end }

  /** Byte x lies in one of the node ranges. */
  predicate Covers(t: Tree, x: int) {
    match t
    case Leaf => false
    case Node(l, k, e, r) => In(x, k, e) || Covers(l, x) || Covers(r, x)
  }

  predicate HasKey(t: Tree, key: int) {
    match t
    case Leaf => false
    case Node(l, k, _, r) => k == key || HasKey(l, key) || HasKey(r, key)
  }

  /** Strict search order. */
  ghost predicate Sorted(t: Tree) {
    match t
    case Leaf => true
    case Node(l, k, _, r) =>
      && Sorted(l) && Sorted(r)
      && (forall key :: HasKey(l, key) ==> key < k)
      && (forall key :: HasKey(r, key) ==> k < key)
  }

  function Size(t: Tree): nat {
    match t
    case Leaf => 0
    case Node(l, _, _, r) => Size(l) + 1 + Size(r)
  }

  // ---------------------------------------------------------------- operations

  /** btree_insert: a key that is present keeps its data. */
  function Insert(t: Tree, key: int, data: int): Tree {
    match t
    case Leaf => Node(Leaf, key, data, Leaf)
    case Node(l, k, e, r) =>
      if k == key then t
      else if k > key then Node(Insert(l, key, data), k, e, r)
      else Node(l, k, e, Insert(r, key, data))
  }

  /** btree_ensure_range_l */
  function Ensure(t: Tree, start: int, end: int): Tree {
    match t
    case Leaf => Node(Leaf, start, end, Leaf)
    case Node(l, k, e, r) =>
      if k == start then if e < end then Node(l, k, end, r) else t
      else if k > start then
        if l.Leaf? && e <= end then Node(l, start, end, r) else Node(Ensure(l, start, end), k, e, r)
      else if e >= start then if e < end then Node(l, k, end, r) else t
      else Node(l, k, e, Ensure(r, start, end))
  }

  /** btree_has_range_l */
  predicate Has(t: Tree, start: int, end: int) {
    match t
    case Leaf => false
    case Node(l, k, e, r) =>
      if k <= start && e >= end then true
      else if k > start then Has(l, start, end)
      else Has(r, start, end)
  }

  /** btree_get_l */
  function Get(t: Tree, key: int): int {
    match t
    case Leaf => -1
    case Node(l, k, e, r) => if k == key then e else if k > key then Get(l, key) else Get(r, key)
  }

  // ---------------------------------------------------------------- exactness

  /** The union of the ranges grows by exactly [start, end), whatever the integers. */
  lemma {:induction false} EnsureIsExact(t: Tree, start: int, end: int, x: int)
    ensures Covers(Ensure(t, start, end), x) <==> Covers(t, x) || In(x, start, end)
  {
    match t
    case Leaf =>
    case Node(l, _, _, r) =>
      EnsureIsExact(l, start, end, x);
      EnsureIsExact(r, start, end, x);
  }

  /** The only key that can appear is the start of the range. */
  lemma {:induction false} EnsureKeys(t: Tree, start: int, end: int, key: int)
    requires HasKey(Ensure(t, start, end), key)
    ensures HasKey(t, key) || key == start
  {
    match t
    case Leaf =>
    case Node(l, _, _, r) =>
      if HasKey(Ensure(l, start, end), key) { EnsureKeys(l, start, end, key); }
      if HasKey(Ensure(r, start, end), key) { EnsureKeys(r, start, end, key); }
  }

  /** Search order survives, even when a node's key is lowered in place. */
  lemma {:induction false} EnsureKeepsOrder(t: Tree, start: int, end: int)
    requires Sorted(t)
    ensures Sorted(Ensure(t, start, end))
  {
    match t
    case Leaf =>
    case Node(l, k, e, r) =>
      EnsureKeepsOrder(l, start, end);
      EnsureKeepsOrder(r, start, end);
      forall key | HasKey(Ensure(l, start, end), key) ensures HasKey(l, key) || key == start {
        EnsureKeys(l, start, end, key);
      }
      forall key | HasKey(Ensure(r, start, end), key) ensures HasKey(r, key) || key == start {
        EnsureKeys(r, start, end, key);
      }
  }

  /** A node is added for the range, or none. */
  lemma {:induction false} EnsureSize(t: Tree, start: int, end: int)
    ensures Size(t) <= Size(Ensure(t, start, end)) <= Size(t) + 1
    ensures t.Leaf? ==> Size(Ensure(t, start, end)) == 1
  {
    match t
    case Leaf =>
    case Node(l, _, _, r) =>
      EnsureSize(l, start, end);
      EnsureSize(r, start, end);
  }

  lemma {:induction false} InsertSize(t: Tree, key: int, data: int)
    ensures Size(t) <= Size(Insert(t, key, data)) <= Size(t) + 1
  {
    match t
    case Leaf =>
    case Node(l, _, _, r) =>
      InsertSize(l, key, data);
      InsertSize(r, key, data);
  }

  /** In a search tree, insertion adds exactly a key that is absent. */
  lemma {:induction false} InsertExactly(t: Tree, key: int, data: int, other: int)
    requires Sorted(t)
    ensures HasKey(t, key) ==> Insert(t, key, data) == t
    ensures HasKey(Insert(t, key, data), other) <==> HasKey(t, other) || other == key
    ensures Get(Insert(t, key, data), other) == if other == key && !HasKey(t, key) then data else Get(t, other)
    ensures Sorted(Insert(t, key, data))
  {
    match t
    case Leaf =>
    case Node(l, k, _, r) =>
      if k > key {
        assert !HasKey(r, key);
        InsertExactly(l, key, data, other);
        forall o | HasKey(Insert(l, key, data), o) ensures o < k { InsertExactly(l, key, data, o); }
      } else if k < key {
        assert !HasKey(l, key);
        InsertExactly(r, key, data, other);
        forall o | HasKey(Insert(r, key, data), o) ensures k < o { InsertExactly(r, key, data, o); }
      }
  }

  // ---------------------------------------------------------------- membership

  /** A positive answer is right: the whole range is stored. */
  lemma {:induction false} HasIsSound(t: Tree, start: int, end: int, x: int)
    requires Has(t, start, end) && In(x, start, end)
    ensures Covers(t, x)
  {
    match t
    case Node(l, k, e, r) =>
      if !(k <= start && e >= end) {
        if k > start { HasIsSound(l, start, end, x); } else { HasIsSound(r, start, end, x); }
      }
  }

  lemma {:induction false} HasAfterEnsure(t: Tree, start: int, end: int)
    ensures Has(Ensure(t, start, end), start, end)
  {
    match t
    case Leaf =>
    case Node(l, _, _, r) =>
      HasAfterEnsure(l, start, end);
      HasAfterEnsure(r, start, end);
  }

  lemma {:induction false} EnsureKeepsHas(t: Tree, start: int, end: int, s: int, e: int)
    requires Has(t, s, e)
    ensures Has(Ensure(t, start, end), s, e)
  {
    match t
    case Node(l, _, _, r) =>
      if Has(l, s, e) { EnsureKeepsHas(l, start, end, s, e); }
      if Has(r, s, e) { EnsureKeepsHas(r, start, end, s, e); }
  }

  /** A request: ensure [start, end). */
  datatype Range = Range(start: int, end: int)

  function EnsureAll(t: Tree, rs: seq<Range>): Tree {
    if rs == [] then t else Ensure(EnsureAll(t, rs[..|rs| - 1]), rs[|rs| - 1].start, rs[|rs| - 1].end)
  }

  /** Never forgets: a range ensured once is reported present after every later sequence of requests. */
  lemma {:induction false} NeverForgets(t: Tree, start: int, end: int, rs: seq<Range>)
    ensures Has(EnsureAll(Ensure(t, start, end), rs), start, end)
    decreases |rs|
  {
    if rs == [] {
      HasAfterEnsure(t, start, end);
    } else {
      var front, last := rs[..|rs| - 1], rs[|rs| - 1];
      NeverForgets(t, start, end, front);
      EnsureKeepsHas(EnsureAll(Ensure(t, start, end), front), last.start, last.end, start, end);
    }
  }

  ghost predicate InSome(rs: seq<Range>, x: int) { exists i :: 0 <= i < |rs| && In(x, rs[i].start, rs[i].end) }

  /** A tree built by any sequence of requests is a search tree and stores exactly the union of what was requested. */
  lemma {:induction false} EnsureAllIsUnion(t: Tree, rs: seq<Range>, x: int)
    requires Sorted(t)
    ensures Sorted(EnsureAll(t, rs))
    ensures Covers(EnsureAll(t, rs), x) <==> Covers(t, x) || InSome(rs, x)
    decreases |rs|
  {
    if rs == [] {
    } else {
      var front, last := rs[..|rs| - 1], rs[|rs| - 1];
      assert rs == front + [last];
      EnsureAllIsUnion(t, front, x);
      EnsureKeepsOrder(EnsureAll(t, front), last.start, last.end);
      EnsureIsExact(EnsureAll(t, front), last.start, last.end, x);
      if InSome(front, x) {
        var i :| 0 <= i < |front| && In(x, front[i].start, front[i].end);
        assert rs[i] == front[i];
      }
      assert rs[|rs| - 1] == last;
    }
  }

  // ---------------------------------------------------------------- requests that join

  function Least(rs: seq<Range>): int
    requires rs != []
  {
    if |rs| == 1 || rs[|rs| - 1].start < Least(rs[..|rs| - 1]) then rs[|rs| - 1].start else Least(rs[..|rs| - 1])
  }

  function Furthest(rs: seq<Range>): int
    requires rs != []
  {
    if |rs| == 1 || rs[|rs| - 1].end > Furthest(rs[..|rs| - 1]) then rs[|rs| - 1].end else Furthest(rs[..|rs| - 1])
  }

  /** Each request starts inside what was asked for so far or right behind it, or swallows all of it. */
  ghost predicate Joining(rs: seq<Range>) {
    forall i :: 1 <= i < |rs| ==>
      var low, high := Least(rs[..i]), Furthest(rs[..i]);
      low <= rs[i].start <= high || (rs[i].start < low && high <= rs[i].end)
  }

  /** Such requests, as of a file that is read from the front to the back, share one node, however many they are. */
  lemma {:induction false} JoiningIsOneNode(rs: seq<Range>)
    requires rs != [] && Joining(rs)
    ensures EnsureAll(Leaf, rs) == Node(Leaf, Least(rs), Furthest(rs), Leaf)
    decreases |rs|
  {
    var n := |rs| - 1;
    var front, last := rs[..n], rs[n];
    if n == 0 {
      assert EnsureAll(Leaf, front) == Leaf;
    } else {
      assert forall i :: 1 <= i < n ==> front[..i] == rs[..i] && front[i] == rs[i];
      JoiningIsOneNode(front);
    }
  }

  // ---------------------------------------------------------------- the init section

  /** _write_ranges_cb for every node, root first: the ranges that hold at least one byte. */
  function Written(t: Tree): seq<Range> {
    match t
    case Leaf => []
    case Node(l, k, e, r) => (if e - k > 0 then [Range(k, e)] else []) + Written(l) + Written(r)
  }

  lemma InSomeConcat(a: seq<Range>, b: seq<Range>, x: int)
    ensures InSome(a + b, x) <==> InSome(a, x) || InSome(b, x)
  {
    if InSome(a, x) {
      var i :| 0 <= i < |a| && In(x, a[i].start, a[i].end);
      assert (a + b)[i] == a[i];
    }
    if InSome(b, x) {
      var i :| 0 <= i < |b| && In(x, b[i].start, b[i].end);
      assert (a + b)[|a| + i] == b[i];
    }
  }

  /** At most one range for a node, and no empty one. */
  lemma {:induction false} WrittenOnce(t: Tree)
    ensures |Written(t)| <= Size(t) && forall i :: 0 <= i < |Written(t)| ==> Written(t)[i].start < Written(t)[i].end
  {
    match t
    case Leaf =>
    case Node(l, _, _, r) =>
      WrittenOnce(l);
      WrittenOnce(r);
  }

  /** The written ranges cover exactly the stored bytes. */
  lemma {:induction false} WrittenIsExact(t: Tree, x: int)
    ensures InSome(Written(t), x) <==> Covers(t, x)
  {
    match t
    case Leaf =>
    case Node(l, k, e, r) =>
      WrittenIsExact(l, x);
      WrittenIsExact(r, x);
      var own := if e - k > 0 then [Range(k, e)] else [];
      assert InSome(own, x) <==> In(x, k, e) by {
        if In(x, k, e) {
          assert own[0] == Range(k, e);
        }
      }
      InSomeConcat(own, Written(l), x);
      InSomeConcat(own + Written(l), Written(r), x);
  }

  // ---------------------------------------------------------------- completeness

  /** No stored range touches the next one. */
  ghost predicate Separated(t: Tree) {
    match t
    case Leaf => true
    case Node(l, k, e, r) =>
      && Separated(l) && Separated(r)
      && (forall x :: Covers(l, x) ==> x + 1 < k)
      && (forall x :: Covers(r, x) ==> e < x)
      && (forall x :: Covers(r, x) ==> k < x)
  }

  /** When no stored range touches another, a negative answer is right as well. */
  lemma {:induction false} HasIsComplete(t: Tree, start: int, end: int)
    requires Separated(t) && start < end
    requires forall x :: In(x, start, end) ==> Covers(t, x)
    ensures Has(t, start, end)
  {
    assert In(start, start, end);
    match t
    case Leaf =>
    case Node(l, k, e, r) =>
      if k > start {
        forall x | In(x, start, end) ensures Covers(l, x) {
          AllLeft(l, k, e, r, start, end, x);
        }
        HasIsComplete(l, start, end);
      } else if e < end {
        forall x | In(x, start, end) ensures Covers(r, x) {
          AllRight(l, k, e, r, start, end, x);
        }
        HasIsComplete(r, start, end);
      }
  }

  lemma {:induction false} AllLeft(l: Tree, k: int, e: int, r: Tree, start: int, end: int, x: int)
    requires Separated(Node(l, k, e, r)) && k > start && In(x, start, end)
    requires forall y :: In(y, start, end) ==> Covers(Node(l, k, e, r), y)
    ensures Covers(l, x)
    decreases x - start
  {
    if x > start {
      AllLeft(l, k, e, r, start, end, x - 1);
    }
    var t := Node(l, k, e, r);
    assert Covers(t, start) && Covers(t, x);
    assert Covers(r, start) ==> k < start;
    assert Covers(r, x) ==> k < x;
    assert x > start ==> Covers(l, x - 1);
  }

  lemma AllRight(l: Tree, k: int, e: int, r: Tree, start: int, end: int, x: int)
    requires Separated(Node(l, k, e, r)) && k <= start && e < end && In(x, start, end)
    requires forall y :: In(y, start, end) ==> Covers(Node(l, k, e, r), y)
    ensures Covers(r, x)
  {
    var t := Node(l, k, e, r);
    assert In(e, start, end) ==> Covers(t, e);
    assert Covers(t, x);
    assert Covers(l, x) ==> x + 1 < k;
    assert Covers(l, e) ==> e + 1 < k;
    assert !Covers(r, e);
  }

  /** The search for `start` finds every range up to here and none beyond. */
  function Reach(t: Tree, start: int): (m: int)
    ensures m >= start
  {
    match t
    case Leaf => start
    case Node(l, k, e, r) =>
      if k > start then Reach(l, start)
      else
        var m := Reach(r, start);
        if e > m then e else m
  }

  lemma {:induction false} HasIsReach(t: Tree, start: int, end: int)
    requires start < end
    ensures Has(t, start, end) <==> end <= Reach(t, start)
  {
    match t
    case Leaf =>
    case Node(l, k, _, r) =>
      if k > start {
        HasIsReach(l, start, end);
      } else {
        HasIsReach(r, start, end);
      }
  }

  ghost predicate CoversAll(t: Tree, start: int, end: int) { forall x :: In(x, start, end) ==> Covers(t, x) }

  /** Every non-empty range inside the union is reported. */
  ghost predicate Complete(t: Tree) {
    forall start, end :: start < end && CoversAll(t, start, end) ==> Has(t, start, end)
  }

  /** Seen from any key, the union has a gap where the search from that key gives up. */
  ghost predicate Seamless(t: Tree) { forall key :: HasKey(t, key) ==> !Covers(t, Reach(t, key)) }

  /** Above a key, up to the next one, the search takes the same path. */
  lemma {:induction false} SamePath(t: Tree, key: int, start: int)
    requires Sorted(t) && HasKey(t, key) && key <= start
    requires forall k :: HasKey(t, k) ==> k <= key || start < k
    ensures Reach(t, key) <= Reach(t, start)
  {
    match t
    case Node(l, k, _, r) =>
      assert HasKey(t, k);
      assert forall o :: HasKey(l, o) || HasKey(r, o) ==> HasKey(t, o);
      if k > start {
        SamePath(l, key, start);
      } else if k < key {
        SamePath(r, key, start);
      } else {
        NothingReached(r, key);
      }
  }

  lemma {:induction false} NothingReached(t: Tree, start: int)
    requires forall k :: HasKey(t, k) ==> start < k
    ensures Reach(t, start) == start
  {
    match t
    case Leaf =>
    case Node(l, k, _, _) =>
      assert HasKey(t, k);
      assert forall o :: HasKey(l, o) ==> HasKey(t, o);
      NothingReached(l, start);
  }

  /** The last key at or before a stored byte; its range or an earlier one holds the byte. */
  lemma {:induction false} KeyBefore(t: Tree, x: int) returns (key: int)
    requires Covers(t, x)
    ensures HasKey(t, key) && key <= x && CoversAll(t, key, x + 1)
    ensures forall k :: HasKey(t, k) ==> k <= key || x < k
  {
    var first := Holder(t, x);
    key := LastKey(t, first, x);
  }

  /** The key of a range that holds the byte. */
  lemma {:induction false} Holder(t: Tree, x: int) returns (key: int)
    requires Covers(t, x)
    ensures HasKey(t, key) && key <= x && CoversAll(t, key, x + 1)
  {
    match t
    case Node(l, k, e, r) =>
      if In(x, k, e) {
        key := k;
      } else if Covers(l, x) {
        key := Holder(l, x);
      } else {
        key := Holder(r, x);
      }
  }

  lemma {:induction false} LastKey(t: Tree, from: int, x: int) returns (key: int)
    requires HasKey(t, from) && from <= x
    ensures HasKey(t, key) && from <= key <= x
    ensures forall k :: HasKey(t, k) ==> k <= key || x < k
    decreases x - from
  {
    if k :| HasKey(t, k) && from < k <= x {
      key := LastKey(t, k, x);
    } else {
      key := from;
    }
  }

  /** A search tree reports every covered range if and only if it is seamless. */
  lemma CompleteExactly(t: Tree)
    requires Sorted(t)
    ensures Complete(t) <==> Seamless(t)
  {
    hide Has, Sorted, HasKey, Covers, Reach;
    if Complete(t) {
      forall key | HasKey(t, key)
        ensures !Covers(t, Reach(t, key))
      {
        GapAtReach(t, key);
      }
    }
    if Seamless(t) {
      forall start, end | start < end && CoversAll(t, start, end)
        ensures Has(t, start, end)
      {
        SeamlessReports(t, start, end);
      }
    }
  }

  lemma GapAtReach(t: Tree, key: int)
    requires Complete(t)
    ensures !Covers(t, Reach(t, key))
  {
    hide Has, Covers, Reach;
    var m := Reach(t, key);
    if Covers(t, m) {
      forall x | In(x, key, m + 1)
        ensures Covers(t, x)
      {
        if x < m {
          HasIsReach(t, key, m);
          HasIsSound(t, key, m, x);
        }
      }
      HasIsReach(t, key, m + 1);
      assert false;
    }
  }

  lemma SeamlessReports(t: Tree, start: int, end: int)
    requires Sorted(t) && Seamless(t) && start < end && CoversAll(t, start, end)
    ensures Has(t, start, end)
  {
    hide Has, Covers, Reach, Sorted, HasKey;
    assert In(start, start, end);
    var key := KeyBefore(t, start);
    SamePath(t, key, start);
    var m := Reach(t, key);
    assert In(m, key, start + 1) || In(m, start, end) || m >= end;
    HasIsReach(t, start, end);
  }

  /**
   Seamless is weaker than separated: after these requests the ranges overlap, and every covered
   range is reported.
   */
  lemma OverlapCanBeSeamless()
    ensures var t := EnsureAll(Leaf, [Range(20, 30), Range(0, 25), Range(0, 30)]);
            Complete(t) && !Separated(t)
  {
    var one, two := [Range(20, 30)], [Range(20, 30), Range(0, 25)];
    var t1 := Node(Leaf, 20, 30, Leaf);
    var t2 := Node(Node(Leaf, 0, 25, Leaf), 20, 30, Leaf);
    var t := Node(Node(Leaf, 0, 30, Leaf), 20, 30, Leaf);
    assert EnsureAll(Leaf, []) == Leaf;
    assert one[..0] == [] && EnsureAll(Leaf, one) == t1;
    assert two[..1] == one && EnsureAll(Leaf, two) == t2;
    var three := two + [Range(0, 30)];
    assert three[..2] == two && EnsureAll(Leaf, three) == t;
    assert three == [Range(20, 30), Range(0, 25), Range(0, 30)];
    EnsureAllIsUnion(Leaf, three, 0);
    assert Covers(t.left, 25);
    assert forall key :: HasKey(t.left, key) <==> key == 0;
    assert forall key :: HasKey(t, key) <==> HasKey(t.left, key) || key == 20;
    assert Reach(t, 0) == 30 && Reach(t, 20) == 30 && !Covers(t, 30);
    CompleteExactly(t);
  }

  /**
   Touching ranges are not merged: a hole after the first 10 bytes and two more requests leave
   [20, 40) and [40, 50) stored, but [20, 50) is not reported.
   */
  lemma TouchingRangesAreMissed()
    ensures var t := EnsureAll(Insert(Leaf, 0, 10), [Range(20, 30), Range(40, 50), Range(30, 40)]);
            CoversAll(t, 20, 50) && !Has(t, 20, 50)
  {
    var one, two := [Range(20, 30)], [Range(20, 30), Range(40, 50)];
    var t0 := Node(Leaf, 0, 10, Leaf);
    var t1 := Node(Leaf, 0, 10, Node(Leaf, 20, 30, Leaf));
    var t2 := Node(Leaf, 0, 10, Node(Leaf, 20, 30, Node(Leaf, 40, 50, Leaf)));
    var t := Node(Leaf, 0, 10, Node(Leaf, 20, 40, Node(Leaf, 40, 50, Leaf)));
    assert EnsureAll(t0, []) == t0 == Insert(Leaf, 0, 10);
    assert one[..0] == [] && EnsureAll(t0, one) == t1;
    assert two[..1] == one && EnsureAll(t0, two) == t2;
    var three := two + [Range(30, 40)];
    assert three[..2] == two && EnsureAll(t0, three) == t;
    assert three == [Range(20, 30), Range(40, 50), Range(30, 40)];
    var inner := t.right;
    assert forall x :: Covers(inner.right, x) <==> In(x, 40, 50);
    assert forall x :: Covers(inner, x) <==> In(x, 20, 40) || Covers(inner.right, x);
    assert !Has(inner.right, 20, 50) && !Has(inner, 20, 50);
  }
}
