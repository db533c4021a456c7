/**
 The two-level array map of datas/amap.c. AMAP_MAX_ARRAY_LENGTH is the unparenthesised
 text 1024*8, so p / AMAP_MAX_ARRAY_LENGTH is (p / 1024) * 8 and p % AMAP_MAX_ARRAY_LENGTH
 is (p % 1024) * 8, while an allocation of AMAP_MAX_ARRAY_LENGTH entries has 8192.
 */
module AMap {
  import opened Seqs

  const ARRAY_LENGTH: nat := 1024 * 8

  /** C division and remainder truncate toward zero. */
  function CDiv(a: int, b: int): int
    requires b > 0
  {
    if a >= 0 then a / b else -((-a) / b)
  }

  function CMod(a: int, b: int): int
    requires b > 0
  {
    a - CDiv(a, b) * b
  }

  /** The capacity _amap_new gives a map asked to hold `size` entries; a result below 1 is a fatal error. */
  function Capacity(size: int): int {
    if CMod(size, 1024) != 0 then 1024 * (1 + CDiv(size, 1024)) else size
  }

  function NumArrays(capacity: nat): nat { capacity / 1024 * 8 }

  function WhichArray(position: nat): nat { position / 1024 * 8 }

  function ArrayPos(position: nat): nat { position % 1024 * 8 }

  /** Addressing stays in bounds and never gives two positions the same cell. */
  lemma AddressingIsInjective(size: int, p: nat, q: nat)
    requires p < Capacity(size) && q < Capacity(size)
    ensures WhichArray(p) < NumArrays(Capacity(size)) && ArrayPos(p) < ARRAY_LENGTH
    ensures WhichArray(p) == WhichArray(q) && ArrayPos(p) == ArrayPos(q) ==> p == q
  {
    CapacityIsMultiple(size);
  }

  lemma CapacityIsMultiple(size: int)
    ensures Capacity(size) % 1024 == 0
    ensures size >= 0 ==> size <= Capacity(size) < size + 1024
  {
  }

  /** A position a map created for `size` entries can store: amap_set accepts it. */
  predicate HasSlot(size: int, position: int) { position < Capacity(size) }

  /**
   Ids run from 1 to n. All of them have a slot in a map created for n entries exactly when
   n is not a multiple of 1024; otherwise precisely the last id has none.
   */
  lemma EveryIdHasASlot(n: nat)
    requires n >= 1
    ensures (forall id :: 1 <= id <= n ==> HasSlot(n, id)) <==> n % 1024 != 0
    ensures forall id :: 1 <= id < n ==> HasSlot(n, id)
  {
    CapacityIsMultiple(n);
    assert n % 1024 == CMod(n, 1024);
    if n % 1024 == 0 {
      assert !HasSlot(n, n);
    }
  }

  class AMap<V> {
    const arrays: array<array<Option<V>>>
    const size: nat

    ghost predicate Valid()
      reads this, arrays, Repr()
    {
      && size >= 1 && size % 1024 == 0 && arrays.Length == NumArrays(size)
      && (forall i :: 0 <= i < arrays.Length ==> arrays[i].Length == ARRAY_LENGTH)
      && (forall i, j :: 0 <= i < j < arrays.Length ==> arrays[i] != arrays[j])
    }

    ghost function Repr(): set<object>
      reads this, arrays
    {
      set i | 0 <= i < arrays.Length :: arrays[i]
    }

    /** What is stored at a position; a position the map does not cover reads as NULL. */
    ghost function At(position: nat): Option<V>
      reads this, arrays, Repr()
      requires Valid()
    {
      if position >= size then None
      else
        Bounds(position, size);
        arrays[WhichArray(position)][ArrayPos(position)]
    }

    constructor (requested: int)
      requires Capacity(requested) >= 1
      ensures Valid() && size == Capacity(requested)
      ensures fresh(arrays) && fresh(Repr())
      ensures forall p: nat :: At(p) == None
    {
      CapacityIsMultiple(requested);
      size := Capacity(requested);
      var n := NumArrays(Capacity(requested));
      var filler := new Option<V>[0];
      var rows := new array<Option<V>>[n](_ => filler);
      arrays := rows;
      new;
      for i := 0 to n
        invariant fresh(rows)
        invariant forall j :: 0 <= j < i ==> fresh(rows[j]) && rows[j].Length == ARRAY_LENGTH && rows[j] != filler
        invariant forall j, k :: 0 <= j < k < i ==> rows[j] != rows[k]
        invariant forall j, k :: 0 <= j < i && 0 <= k < ARRAY_LENGTH ==> rows[j][k] == None
        invariant forall j :: i <= j < n ==> rows[j] == filler
      {
        var row := new Option<V>[ARRAY_LENGTH](_ => None);
        rows[i] := row;
      }
    }

    method Set(position: nat, value: Option<V>) returns (status: int)
      requires Valid()
      modifies Repr()
      ensures Valid()
      ensures status == if position < size then 0 else -1
      ensures forall p: nat :: At(p) == if p == position && p < size then value else old(At(p))
    {
      if position >= size {
        return -1;
      }
      Bounds(position, size);
      forall p: nat | p < size && p != position
        ensures WhichArray(p) != WhichArray(position) || ArrayPos(p) != ArrayPos(position)
      {
        Distinct(p, position);
      }
      arrays[WhichArray(position)][ArrayPos(position)] := value;
      return 0;
    }

    method Get(position: nat) returns (value: Option<V>)
      requires Valid()
      ensures value == At(position)
    {
      if position >= size {
        return None;
      }
      Bounds(position, size);
      return arrays[WhichArray(position)][ArrayPos(position)];
    }

    method Unset(position: nat) returns (value: Option<V>)
      requires Valid()
      modifies Repr()
      ensures Valid()
      ensures value == old(At(position))
      ensures forall p: nat :: At(p) == if p == position then None else old(At(p))
    {
      value := Get(position);
      var _ := Set(position, None);
    }
  }

  lemma Bounds(p: nat, size: nat)
    requires p < size && size % 1024 == 0
    ensures WhichArray(p) < NumArrays(size) && ArrayPos(p) < ARRAY_LENGTH
  {
  }

  lemma Distinct(p: nat, q: nat)
    requires p != q
    ensures WhichArray(p) != WhichArray(q) || ArrayPos(p) != ArrayPos(q)
  {
  }
}
