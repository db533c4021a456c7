/**
 The hash map of datas/hmap.c: at every address either one entry in the slot, or a keyed list.
 The hash is any function.
 */
module HMap {
  import opened Seqs
  import KL = KeyedList

  class HMap<K(==, !new), V> {
    const hash: K -> nat
    const size: nat
    /** data[] and keys[]: a slot has a key exactly when it has data. */
    const slots: array<Option<(K, V)>>
    /** l[] */
    const lists: array<KL.List?<K, V>>
    ghost var Repr: set<object>

    function Addr(key: K): nat
      requires size >= 1
    {
      hash(key) % size
    }

    /** Slot or list, not both, and every key at its own address. */
    ghost predicate Home(i: nat, slot: Option<(K, V)>, l: KL.List?<K, V>)
      requires size >= 1
      reads l, if l == null then [] else l.elems
    {
      && (slot.Some? ==> l == null && Addr(slot.value.0) == i)
      && (l != null ==> l.Valid() && forall e :: e in l.elems ==> Addr(e.key) == i)
    }

    /** Every list belongs to this map, and to one address. */
    ghost predicate Lists()
      reads this, Repr
    {
      && slots in Repr && lists in Repr && slots.Length == size && lists.Length == size
      && (forall i :: 0 <= i < size && lists[i] != null ==>
            lists[i] in Repr && (forall e :: e in lists[i].elems ==> e in Repr))
      && (forall i, j :: 0 <= i < j < size && lists[i] != null ==> lists[i] != lists[j])
    }

    ghost predicate Valid()
      reads this, Repr
    {
      && this in Repr && size >= 1 && Lists()
      && (forall i :: 0 <= i < size ==> Home(i, slots[i], lists[i]))
    }

    /** What an address with this slot and list stores under a key. */
    static ghost function Stored(slot: Option<(K, V)>, l: KL.List?<K, V>, key: K): Option<V>
      reads l
    {
      if slot.Some? then if slot.value.0 == key then Some(slot.value.1) else None
      else if l != null && key in l.Model() then Some(l.Model()[key])
      else None
    }

    /** The finite map the object represents. */
    ghost function At(key: K): Option<V>
      requires Valid()
      reads this, Repr
    {
      Stored(slots[Addr(key)], lists[Addr(key)], key)
    }

    constructor (hash: K -> nat, size: nat)
      requires size >= 1
      ensures Valid() && fresh(Repr) && this.hash == hash && this.size == size
      ensures forall k :: At(k) == None
      ensures forall i :: 0 <= i < size ==> slots[i] == None && lists[i] == null
    {
      this.hash, this.size := hash, size;
      slots := new Option<(K, V)>[size](_ => None);
      lists := new KL.List?<K, V>[size](_ => null);
      new;
      Repr := {this, slots, lists};
    }

    /** hmap_get and hmap_get_l */
    method Get(key: K) returns (data: Option<V>)
      requires Valid()
      ensures data == At(key)
    {
      var addr := Addr(key);
      assert Home(addr, slots[addr], lists[addr]);
      if slots[addr].Some? && slots[addr].value.0 == key {
        return Some(slots[addr].value.1);
      } else if lists[addr] != null {
        data := lists[addr].Get(key);
        return;
      }
      return None;
    }

    /** A new list with two bindings, for the first collision at an address. */
    static method Collide(key: K, data: V, key2: K, data2: V) returns (l: KL.List<K, V>)
      requires key != key2
      ensures l.Valid() && fresh(l) && (forall e :: e in l.elems ==> fresh(e) && (e.key == key || e.key == key2))
      ensures l.Model() == map[key := data, key2 := data2]
    {
      l := new KL.List();
      var _ := l.Insert(key, data);
      var _ := l.Insert(key2, data2);
    }

    /** The list at one address shares no object with the lists at others. */
    lemma Elsewhere(addr: nat)
      requires Valid() && addr < size
      ensures Home(addr, slots[addr], lists[addr])
      ensures lists[addr] != null ==> forall i :: 0 <= i < size && i != addr && lists[i] != null ==>
                lists[i] != lists[addr] && forall e :: e in lists[i].elems ==> e !in lists[addr].elems
    {
      forall i | 0 <= i < size && i != addr && lists[addr] != null && lists[i] != null
        ensures forall e :: e in lists[i].elems ==> e !in lists[addr].elems
      {
        assert Home(i, slots[i], lists[i]) && Home(addr, slots[addr], lists[addr]);
      }
    }

    /** The second key at an address: both entries move into a new list. */
    method SplitSlot(addr: nat, key: K, data: V)
      requires Valid() && addr == Addr(key) && slots[addr].Some? && slots[addr].value.0 != key
      modifies this`Repr, slots, lists
      ensures Valid() && fresh(Repr - old(Repr))
      ensures forall k :: At(k) == if k == key then Some(data) else old(At(k))
    {
      hide Home, KL.List.Valid, KL.Bindings;
      Elsewhere(addr);
      var (key1, data1) := slots[addr].value;
      var l := Collide(key1, data1, key, data);
      NewHome(addr, l, key1, key);
      lists[addr] := l;
      slots[addr] := None;
      Repr := Repr + {l} + (set e | e in l.elems);
    }

    lemma NewHome(addr: nat, l: KL.List<K, V>, key1: K, key2: K)
      requires size >= 1 && l.Valid() && Addr(key1) == addr && Addr(key2) == addr
      requires forall e :: e in l.elems ==> e.key == key1 || e.key == key2
      ensures Home(addr, None, l)
    {
    }

    /** When nothing that belongs to another address changes, the other addresses are as they were. */
    twostate lemma OthersStay(addr: nat)
      requires old(Valid()) && unchanged(slots) && unchanged(lists)
      requires forall i :: 0 <= i < size && i != addr && lists[i] != null ==>
                 unchanged(lists[i]) && forall e :: e in lists[i].elems ==> unchanged(e)
      ensures forall i :: 0 <= i < size && i != addr ==> Home(i, slots[i], lists[i])
      ensures forall k :: Addr(k) != addr ==> Stored(slots[Addr(k)], lists[Addr(k)], k) == old(At(k))
    {
      forall i | 0 <= i < size && i != addr
        ensures Home(i, slots[i], lists[i])
      {
        assert old(Home(i, slots[i], lists[i]));
      }
    }

    /** An address that already has a list. */
    method AddToList(addr: nat, key: K, data: V) returns (added: int)
      requires Valid() && addr == Addr(key) && lists[addr] != null
      modifies this`Repr, lists[addr], lists[addr].elems
      ensures Valid() && fresh(Repr - old(Repr))
      ensures added == if old(At(key)).Some? then 0 else 1
      ensures forall k :: At(k) == if k == key && old(At(key)).None? then Some(data) else old(At(k))
    {
      hide Home, KL.List.Valid, KL.Bindings;
      Elsewhere(addr);
      var l := lists[addr];
      HomeList(addr);
      added := l.Insert(key, data);
      Repr := Repr + (set e | e in l.elems);
      OthersStay(addr);
      ListHome(addr, l);
    }

    lemma HomeList(addr: nat)
      requires Valid() && addr < size && lists[addr] != null
      ensures slots[addr].None? && lists[addr].Valid() && forall e :: e in lists[addr].elems ==> Addr(e.key) == addr
    {
      assert Home(addr, slots[addr], lists[addr]);
    }

    lemma ListHome(addr: nat, l: KL.List<K, V>)
      requires size >= 1 && l.Valid() && forall e :: e in l.elems ==> Addr(e.key) == addr
      ensures Home(addr, None, l)
    {
    }

    /** An address without a list: the slot gets this entry, or is emptied. */
    method SetSlot(addr: nat, entry: Option<(K, V)>)
      requires Valid() && addr < size && lists[addr] == null && (entry.Some? ==> Addr(entry.value.0) == addr)
      modifies slots
      ensures Valid() && slots[addr] == entry
      ensures forall k :: At(k) == if Addr(k) == addr then Stored(entry, null, k) else old(At(k))
    {
      SlotHome(addr, entry);
      slots[addr] := entry;
    }

    lemma SlotHome(addr: nat, entry: Option<(K, V)>)
      requires size >= 1 && (entry.Some? ==> Addr(entry.value.0) == addr)
      ensures Home(addr, entry, null)
    {
    }

    /** hmap_insert and hmap_insert_l: a key that is present keeps its data. */
    method Insert(key: K, data: V) returns (added: int)
      requires Valid()
      modifies Repr
      ensures Valid() && fresh(Repr - old(Repr))
      ensures added == if old(At(key)).Some? then 0 else 1
      ensures forall k :: At(k) == if k == key && old(At(key)).None? then Some(data) else old(At(k))
      ensures old(slots[Addr(key)]).None? && old(lists[Addr(key)]) == null ==> slots[Addr(key)] == Some((key, data))
    {
      hide Home, KL.List.Valid, KL.Bindings;
      var addr := Addr(key);
      Elsewhere(addr);
      SlotExcludesList(addr);
      if slots[addr].Some? {
        if key == slots[addr].value.0 {
          return 0;
        }
        SplitSlot(addr, key, data);
        return 1;
      } else if lists[addr] != null {
        added := AddToList(addr, key, data);
        return;
      }
      SetSlot(addr, Some((key, data)));
      return 1;
    }

    lemma SlotExcludesList(addr: nat)
      requires Valid() && addr < size
      ensures slots[addr].Some? ==> lists[addr] == null && Addr(slots[addr].value.0) == addr
      ensures slots[addr].Some? ==> forall k :: Addr(k) == addr ==> (At(k).Some? <==> k == slots[addr].value.0)
      ensures slots[addr].None? && lists[addr] == null ==> forall k :: Addr(k) == addr ==> At(k).None?
    {
      assert Home(addr, slots[addr], lists[addr]);
    }

    method RemoveFromList(addr: nat, key: K) returns (data: Option<V>)
      requires Valid() && addr == Addr(key) && lists[addr] != null
      modifies lists[addr], lists[addr].elems
      ensures Valid() && data == old(At(key))
      ensures forall k :: At(k) == if k == key then None else old(At(k))
    {
      hide Home, KL.List.Valid, KL.Bindings;
      Elsewhere(addr);
      var l := lists[addr];
      HomeList(addr);
      data := l.Remove(key);
      OthersStay(addr);
      ListHome(addr, l);
    }

    /**
     hmap_remove and hmap_remove_l: a single entry goes without its key being compared, so
     the call removes exactly `key` if and only if the key is present or its slot is empty.
     */
    method Remove(key: K) returns (data: Option<V>)
      requires Valid()
      modifies Repr
      ensures Valid() && Repr == old(Repr)
      ensures var entry := old(slots[Addr(key)]);
              var victim := if entry.Some? then entry.value.0 else key;
              && data == old(At(victim))
              && forall k :: At(k) == if k == victim then None else old(At(k))
      ensures (forall k :: At(k) == if k == key then None else old(At(k)))
                <==> old(At(key)).Some? || old(slots[Addr(key)]).None?
    {
      hide Home, KL.List.Valid, KL.Bindings;
      var addr := Addr(key);
      SlotExcludesList(addr);
      if slots[addr].Some? {
        data := Some(slots[addr].value.1);
        SetSlot(addr, None);
        return;
      } else if lists[addr] != null {
        data := RemoveFromList(addr, key);
        return;
      }
      return None;
    }

    // -------------------------------------------------------------- hmap_run_cb2

    ghost function KeysAt(i: nat): seq<K>
      requires Valid() && i < size
      reads this, Repr
    {
      if lists[i] != null then KL.KeysOf(lists[i].elems) else if slots[i].Some? then [slots[i].value.0] else []
    }

    ghost function DataAt(i: nat): seq<V>
      requires Valid() && i < size
      reads this, Repr
    {
      if lists[i] != null then KL.DataOf(lists[i].elems) else if slots[i].Some? then [slots[i].value.1] else []
    }

    /** The keys at an address: each once, with what they map to, and no other key of that address is present. */
    lemma KeysAtAre(i: nat)
      requires Valid() && i < size
      ensures |KeysAt(i)| == |DataAt(i)|
      ensures forall j :: 0 <= j < |KeysAt(i)| ==> Addr(KeysAt(i)[j]) == i && At(KeysAt(i)[j]) == Some(DataAt(i)[j])
      ensures forall j, k :: 0 <= j < k < |KeysAt(i)| ==> KeysAt(i)[j] != KeysAt(i)[k]
      ensures forall key :: Addr(key) == i && At(key).Some? ==> key in KeysAt(i)
    {
      assert Home(i, slots[i], lists[i]);
      if lists[i] != null {
        KL.ChainKeys(lists[i].elems);
      }
    }

    /** The bindings with addresses below i have been visited, each once. */
    ghost predicate VisitedBelow(i: nat, keys: seq<K>, visited: seq<V>)
      requires Valid()
      reads this, Repr
    {
      && |keys| == |visited|
      && (forall j :: 0 <= j < |keys| ==> Addr(keys[j]) < i && At(keys[j]) == Some(visited[j]))
      && (forall j, k :: 0 <= j < k < |keys| ==> keys[j] != keys[k])
      && (forall key :: Addr(key) < i && At(key).Some? ==> key in keys)
    }

    lemma VisitMore(i: nat, keys: seq<K>, visited: seq<V>)
      requires Valid() && i < size && VisitedBelow(i, keys, visited)
      ensures VisitedBelow(i + 1, keys + KeysAt(i), visited + DataAt(i))
    {
      hide At, KeysAt, DataAt, Valid;
      KeysAtAre(i);
      var keys', visited' := keys + KeysAt(i), visited + DataAt(i);
      forall j | 0 <= j < |keys'|
        ensures Addr(keys'[j]) < i + 1 && At(keys'[j]) == Some(visited'[j])
        ensures if j < |keys| then Addr(keys'[j]) < i else Addr(keys'[j]) == i
      {
        if j < |keys| {
          assert keys'[j] == keys[j] && visited'[j] == visited[j];
        } else {
          assert keys'[j] == KeysAt(i)[j - |keys|] && visited'[j] == DataAt(i)[j - |keys|];
        }
      }
      forall j, k | 0 <= j < k < |keys'|
        ensures keys'[j] != keys'[k]
      {
        if k < |keys| {
          assert keys'[j] == keys[j] && keys'[k] == keys[k];
        } else if j >= |keys| {
          assert keys'[j] == KeysAt(i)[j - |keys|] && keys'[k] == KeysAt(i)[k - |keys|];
        }
      }
    }

    /** Every binding of the map is visited once: `keys` are the keys in the order of the visits. */
    method RunCallback() returns (visited: seq<V>, ghost keys: seq<K>)
      requires Valid()
      ensures |keys| == |visited| && forall j :: 0 <= j < |keys| ==> At(keys[j]) == Some(visited[j])
      ensures forall j, k :: 0 <= j < k < |keys| ==> keys[j] != keys[k]
      ensures forall key :: At(key).Some? ==> key in keys
    {
      visited, keys := [], [];
      for i := 0 to size
        invariant VisitedBelow(i, keys, visited)
      {
        VisitMore(i, keys, visited);
        var here := VisitAddress(i);
        visited, keys := visited + here, keys + KeysAt(i);
      }
      AddrInRange();
    }

    lemma AddrInRange()
      requires size >= 1
      ensures forall key: K :: Addr(key) < size
    {
    }

    method VisitAddress(i: nat) returns (visited: seq<V>)
      requires Valid() && i < size
      ensures visited == DataAt(i)
    {
      assert Home(i, slots[i], lists[i]);
      visited := [];
      if lists[i] != null {
        visited := lists[i].RunCallback();
      }
      if slots[i].Some? {
        visited := visited + [slots[i].value.1];
      }
    }
  }

  /** Removing a key that is absent takes away another key with the same address. */
  method RemoveAbsentKey() returns (m: HMap<nat, nat>, data: Option<nat>)
    ensures m.Valid() && data == Some(7) && m.At(1) == None && m.At(2) == None
  {
    hide HMap.Home, KL.List.Valid, KL.Bindings;
    m := new HMap((key: nat) => 0, 4);
    assert m.Addr(1) == 0 && m.Addr(2) == 0;
    var added := m.Insert(1, 7);
    assert m.slots[m.Addr(2)] == Some((1, 7)) && m.At(1) == Some(7) && m.At(2) == None;
    data := m.Remove(2);
  }
}
