/** The doubly linked list with unique keys of datas/list.c. */
module KeyedList {
  import opened Seqs

  class Elem<K, V> {
    const key: K
    const data: V
    var prev: Elem?<K, V>
    var next: Elem?<K, V>

    constructor (key: K, data: V, next: Elem?<K, V>)
      ensures this.key == key && this.data == data && this.next == next && this.prev == null
    {
      this.key, this.data, this.next, this.prev := key, data, next, null;
    }
  }

  // ---------------------------------------------------------------- what a chain means

  /** The bindings of a chain of elements. */
  ghost function Bindings<K, V>(elems: seq<Elem<K, V>>): map<K, V> {
    if elems == [] then map[] else Bindings(elems[1..])[elems[0].key := elems[0].data]
  }

  ghost predicate UniqueKeys<K, V>(elems: seq<Elem<K, V>>) {
    forall i, j :: 0 <= i < j < |elems| ==> elems[i].key != elems[j].key
  }

  ghost predicate HasKey<K, V>(elems: seq<Elem<K, V>>, key: K) { exists i :: 0 <= i < |elems| && elems[i].key == key }

  lemma {:induction false} KeysOfChain<K, V>(elems: seq<Elem<K, V>>, key: K)
    ensures key in Bindings(elems) <==> HasKey(elems, key)
    decreases |elems|
  {
    if elems == [] {
    } else {
      KeysOfChain(elems[1..], key);
      if HasKey(elems[1..], key) {
        var i :| 0 <= i < |elems[1..]| && elems[1..][i].key == key;
        assert elems[i + 1].key == key;
      }
      if HasKey(elems, key) {
        var i :| 0 <= i < |elems| && elems[i].key == key;
        assert i > 0 ==> elems[1..][i - 1].key == key;
      }
    }
  }

  lemma {:induction false} DataOfChain<K, V>(elems: seq<Elem<K, V>>, i: nat)
    requires UniqueKeys(elems) && i < |elems|
    ensures elems[i].key in Bindings(elems) && Bindings(elems)[elems[i].key] == elems[i].data
    decreases |elems|
  {
    if i == 0 {
    } else {
      DataOfChain(elems[1..], i - 1);
      assert elems[1..][i - 1] == elems[i];
    }
  }

  lemma DistinctElems<K, V>(elems: seq<Elem<K, V>>)
    requires UniqueKeys(elems)
    ensures forall i, j :: 0 <= i < j < |elems| ==> elems[i] != elems[j]
  {
    assert forall i, j :: 0 <= i < j < |elems| ==> elems[i].key != elems[j].key;
  }

  /** A new key in front adds exactly its binding. */
  lemma InFront<K, V>(e: Elem<K, V>, elems: seq<Elem<K, V>>)
    requires UniqueKeys(elems) && e.key !in Bindings(elems)
    ensures UniqueKeys([e] + elems) && Bindings([e] + elems) == Bindings(elems)[e.key := e.data]
  {
    KeysOfChain(elems, e.key);
    assert ([e] + elems)[1..] == elems;
    assert forall i :: 0 < i < |[e] + elems| ==> ([e] + elems)[i] == elems[i - 1];
  }

  /** Linking a new element to the first one links the longer chain. */
  lemma LinkedInFront<K, V>(e: Elem<K, V>, elems: seq<Elem<K, V>>)
    requires e.next == At(elems, 0) && e.prev == null
    requires forall k :: 0 <= k < |elems| ==> elems[k].next == At(elems, k + 1)
    requires forall k :: 0 <= k < |elems| ==> elems[k].prev == if k == 0 then e else At(elems, k - 1)
    ensures forall i :: 0 <= i < |[e] + elems| ==>
              ([e] + elems)[i].next == At([e] + elems, i + 1) && ([e] + elems)[i].prev == At([e] + elems, i - 1)
    ensures At([e] + elems, 0) == e
  {
    var all := [e] + elems;
    forall i | 0 <= i < |all|
      ensures all[i].next == At(all, i + 1) && all[i].prev == At(all, i - 1)
    {
      assert At(all, i + 1) == At(elems, i);
      if i > 0 {
        assert all[i] == elems[i - 1];
        assert At(all, i - 1) == if i == 1 then e else At(elems, i - 2);
      }
    }
  }

  lemma UniqueWithout<K, V>(elems: seq<Elem<K, V>>, i: nat)
    requires UniqueKeys(elems) && i < |elems|
    ensures UniqueKeys(elems[..i] + elems[i + 1..])
  {
    var rest := elems[..i] + elems[i + 1..];
    assert forall j :: 0 <= j < |rest| ==> rest[j] == elems[if j < i then j else j + 1];
  }

  lemma UniqueTail<K, V>(elems: seq<Elem<K, V>>)
    requires UniqueKeys(elems) && elems != []
    ensures UniqueKeys(elems[1..]) && elems[0].key !in Bindings(elems[1..])
  {
    hide Bindings;
    KeysOfChain(elems[1..], elems[0].key);
    assert forall j :: 0 <= j < |elems[1..]| ==> elems[1..][j] == elems[j + 1];
  }

  /** Taking one element out of the chain removes exactly its binding. */
  lemma {:induction false} WithoutOne<K, V>(elems: seq<Elem<K, V>>, i: nat)
    requires UniqueKeys(elems) && i < |elems|
    ensures var rest := elems[..i] + elems[i + 1..];
            UniqueKeys(rest) && Bindings(rest) == Bindings(elems) - {elems[i].key}
    decreases |elems|
  {
    hide UniqueKeys;
    UniqueWithout(elems, i);
    UniqueTail(elems);
    var rest := elems[..i] + elems[i + 1..];
    if i == 0 {
      assert rest == elems[1..];
    } else {
      WithoutOne(elems[1..], i - 1);
      assert elems[1..][..i - 1] + elems[1..][i..] == rest[1..];
      assert rest[0] == elems[0];
      FirstDiffers(elems, i);
    }
  }

  lemma FirstDiffers<K, V>(elems: seq<Elem<K, V>>, i: nat)
    requires UniqueKeys(elems) && 0 < i < |elems|
    ensures elems[1..][i - 1] == elems[i] && elems[0].key != elems[i].key
  {
  }

  /** The element at a place of the chain, null beyond its ends. */
  ghost function At<K, V>(elems: seq<Elem<K, V>>, i: int): Elem?<K, V> {
    if 0 <= i < |elems| then elems[i] else null
  }

  /** The links of the chain, except that those over one place jump over it. */
  ghost predicate Skips<K, V>(elems: seq<Elem<K, V>>, at: nat)
    reads elems
  {
    && (forall k :: 0 <= k < |elems| && k != at - 1 ==> elems[k].next == At(elems, k + 1))
    && (0 < at <= |elems| ==> elems[at - 1].next == At(elems, at + 1))
    && (forall k :: 0 <= k < |elems| && k != at && k != at + 1 ==> elems[k].prev == At(elems, k - 1))
    && (at + 1 < |elems| ==> elems[at + 1].prev == At(elems, at - 1))
  }

  /** Links that jump over one element are the links of the chain without it. */
  lemma Relinked<K, V>(before: seq<Elem<K, V>>, at: nat)
    requires at < |before| && Skips(before, at)
    ensures var after := before[..at] + before[at + 1..];
            forall i :: 0 <= i < |after| ==> after[i].next == At(after, i + 1) && after[i].prev == At(after, i - 1)
  {
    var after := before[..at] + before[at + 1..];
    forall i | 0 <= i < |after|
      ensures after[i].next == At(after, i + 1) && after[i].prev == At(after, i - 1)
    {
      assert after[i] == before[if i < at then i else i + 1];
      assert At(after, i + 1) == At(before, if i + 1 < at then i + 1 else i + 2);
      assert At(after, i - 1) == At(before, if i - 1 < at then i - 1 else i);
    }
  }

  // ---------------------------------------------------------------- the list

  class List<K(==), V> {
    var first: Elem?<K, V>
    ghost var elems: seq<Elem<K, V>>

    /** Both links of every element agree with its place in the chain, and no key occurs twice. */
    ghost predicate Valid()
      reads this, elems
    {
      && first == At(elems, 0)
      && UniqueKeys(elems)
      && (forall i :: 0 <= i < |elems| ==> elems[i].next == At(elems, i + 1))
      && (forall i :: 0 <= i < |elems| ==> elems[i].prev == At(elems, i - 1))
    }

    ghost function Model(): map<K, V>
      reads this
    {
      Bindings(elems)
    }

    constructor ()
      ensures Valid() && elems == [] && Model() == map[]
    {
      first, elems := null, [];
    }

    /** The element with this key, found from the front. */
    method Find(key: K) returns (e: Elem?<K, V>, ghost at: nat)
      requires Valid()
      ensures e == null ==> key !in Model()
      ensures e != null ==> at < |elems| && e == elems[at] && e.key == key && key in Model() && Model()[key] == e.data
    {
      e, at := first, 0;
      while e != null && e.key != key
        invariant at <= |elems| && e == At(elems, at)
        invariant forall i :: 0 <= i < at ==> elems[i].key != key
        decreases |elems| - at
      {
        e, at := e.next, at + 1;
      }
      if e == null {
        KeysOfChain(elems, key);
      } else {
        DataOfChain(elems, at);
      }
    }

    /** list_key_insert: at the front, unless the key is present. */
    method Insert(key: K, data: V) returns (added: int)
      requires Valid()
      modifies this, elems
      ensures Valid() && (forall e :: e in elems ==> e in old(elems) || (fresh(e) && e.key == key))
      ensures added == if key in old(Model()) then 0 else 1
      ensures Model() == if key in old(Model()) then old(Model()) else old(Model())[key := data]
    {
      hide UniqueKeys, Bindings;
      var found, at := Find(key);
      if found != null {
        return 0;
      }
      DistinctElems(elems);
      var e := new Elem(key, data, first);
      if first != null {
        first.prev := e;
      }
      first := e;
      InFront(e, elems);
      LinkedInFront(e, elems);
      elems := [e] + elems;
      return 1;
    }

    /** The first element goes. */
    method UnlinkFirst(e: Elem<K, V>)
      requires Valid() && elems != [] && e == elems[0]
      modifies this`first, elems
      ensures elems == old(elems) && first == At(elems, 1) && Skips(elems, 0)
    {
      hide UniqueKeys, Bindings;
      DistinctElems(elems);
      assert e.next == At(elems, 1);
      var second := e.next;
      if second != null {
        second.prev := null;
      }
      first := second;
    }

    /** An element further down goes: its neighbours are linked to each other. */
    method UnlinkInner(e: Elem<K, V>, ghost at: nat)
      requires Valid() && 0 < at < |elems| && e == elems[at]
      modifies elems
      ensures elems == old(elems) && first == old(first) && Skips(elems, at)
    {
      hide UniqueKeys, Bindings;
      DistinctElems(elems);
      assert e.next == At(elems, at + 1) && e.prev == At(elems, at - 1);
      var prev, next := e.prev, e.next;
      prev.next := next;
      if next != null {
        next.prev := prev;
      }
    }

    /** _list_elem_remove */
    method Unlink(e: Elem<K, V>, ghost at: nat)
      requires Valid() && at < |elems| && e == elems[at]
      modifies this, elems
      ensures Valid() && elems == old(elems)[..at] + old(elems)[at + 1..]
    {
      hide UniqueKeys, Bindings, Skips, At;
      WithoutOne(elems, at);
      WhoIsFirst(at);
      if first == e {
        UnlinkFirst(e);
      } else {
        UnlinkInner(e, at);
      }
      Relinked(elems, at);
      NewFirst(elems, at);
      elems := elems[..at] + elems[at + 1..];
    }

    lemma WhoIsFirst(at: nat)
      requires Valid() && at < |elems|
      ensures first == elems[at] <==> at == 0
    {
      DistinctElems(elems);
    }

    lemma NewFirst(before: seq<Elem<K, V>>, at: nat)
      requires at < |before|
      ensures At(before[..at] + before[at + 1..], 0) == At(before, if at == 0 then 1 else 0)
    {
    }

    /** list_key_remove */
    method Remove(key: K) returns (data: Option<V>)
      requires Valid()
      modifies this, elems
      ensures Valid() && (forall e :: e in elems ==> e in old(elems))
      ensures data == if key in old(Model()) then Some(old(Model())[key]) else None
      ensures Model() == old(Model()) - {key}
    {
      var e, at := Find(key);
      if e == null {
        return None;
      }
      WithoutOne(elems, at);
      data := Some(e.data);
      Unlink(e, at);
    }

    /** list_key_get */
    method Get(key: K) returns (data: Option<V>)
      requires Valid()
      ensures data == if key in Model() then Some(Model()[key]) else None
    {
      var e, at := Find(key);
      data := if e == null then None else Some(e.data);
    }

    /** list_run_cb2: the values handed to the callback, front to back. */
    method RunCallback() returns (visited: seq<V>)
      requires Valid()
      ensures visited == DataOf(elems)
    {
      visited := [];
      var e := first;
      ghost var i := 0;
      while e != null
        invariant i <= |elems| && e == At(elems, i)
        invariant visited == DataOf(elems[..i])
        decreases |elems| - i
      {
        assert elems[..i + 1] == elems[..i] + [elems[i]];
        visited := visited + [e.data];
        e, i := e.next, i + 1;
      }
      assert elems[..i] == elems;
    }
  }

  ghost function DataOf<K, V>(elems: seq<Elem<K, V>>): (r: seq<V>)
    ensures |r| == |elems| && forall i :: 0 <= i < |elems| ==> r[i] == elems[i].data
  {
    seq(|elems|, i requires 0 <= i < |elems| => elems[i].data)
  }

  ghost function KeysOf<K, V>(elems: seq<Elem<K, V>>): (r: seq<K>)
    ensures |r| == |elems| && forall i :: 0 <= i < |elems| ==> r[i] == elems[i].key
  {
    seq(|elems|, i requires 0 <= i < |elems| => elems[i].key)
  }

  /** The keys of a chain, each once, with what they are bound to. */
  lemma ChainKeys<K, V>(elems: seq<Elem<K, V>>)
    requires UniqueKeys(elems)
    ensures forall i :: 0 <= i < |elems| ==>
              && KeysOf(elems)[i] in Bindings(elems) && Bindings(elems)[KeysOf(elems)[i]] == DataOf(elems)[i]
              && elems[i] in elems
    ensures forall i, j :: 0 <= i < j < |elems| ==> KeysOf(elems)[i] != KeysOf(elems)[j]
    ensures forall key :: key in Bindings(elems) ==> key in KeysOf(elems)
  {
    hide Bindings;
    forall i | 0 <= i < |elems|
      ensures elems[i].key in Bindings(elems) && Bindings(elems)[elems[i].key] == elems[i].data
    {
      DataOfChain(elems, i);
    }
    forall key | key in Bindings(elems)
      ensures key in KeysOf(elems)
    {
      KeysOfChain(elems, key);
      var j :| 0 <= j < |elems| && elems[j].key == key;
      assert KeysOf(elems)[j] == key;
    }
  }
}
