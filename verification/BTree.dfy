/** The linked nodes of datas/btree.c, updated in place, against the functions of RangeTree. */
module BTree {
  import opened RangeTree

  class Elem {
    var key: int
    var data: int
    var left: Elem?
    var right: Elem?
    ghost var Repr: set<object>
    ghost var model: Tree

    ghost predicate Valid()
      reads this, Repr
      ensures Valid() ==> this in Repr
      decreases Repr
    {
      && this in Repr
      && model.Node? && model.key == key && model.end == data
      && (left == null ==> model.left == Leaf)
      && (right == null ==> model.right == Leaf)
      && (left != null ==>
            left in Repr && left.Repr <= Repr && this !in left.Repr && left.Valid() && left.model == model.left)
      && (right != null ==>
            right in Repr && right.Repr <= Repr && this !in right.Repr && right.Valid() && right.model == model.right)
      && (left != null && right != null ==> left.Repr !! right.Repr)
    }

    constructor (key: int, data: int)
      ensures Valid() && fresh(Repr)
      ensures model == Node(Leaf, key, data, Leaf)
    {
      this.key, this.data, left, right := key, data, null, null;
      Repr := {this};
      model := Node(Leaf, key, data, Leaf);
    }

    /** btreelem_insert_r: reports 0 and changes nothing if the key is found on the way down. */
    method Insert(key: int, data: int) returns (added: int)
      requires Valid()
      modifies Repr
      ensures Valid() && fresh(Repr - old(Repr))
      ensures model == RangeTree.Insert(old(model), key, data)
      ensures added == Size(model) - Size(old(model))
      decreases Repr
    {
      added := 1;
      if this.key == key {
        added := 0;
      } else if this.key > key {
        if left == null {
          left := new Elem(key, data);
        } else {
          added := left.Insert(key, data);
        }
        Repr := Repr + left.Repr;
        model := model.(left := left.model);
      } else {
        if right == null {
          right := new Elem(key, data);
        } else {
          added := right.Insert(key, data);
        }
        Repr := Repr + right.Repr;
        model := model.(right := right.model);
      }
    }

    /** The range of this node reaches at least `end`. */
    method RaiseEnd(end: int)
      requires Valid()
      modifies this
      ensures Valid() && Repr == old(Repr)
      ensures model == old(model).(end := if old(data) < end then end else old(data))
    {
      if data < end {
        data := end;
        model := model.(end := end);
      }
    }

    /**
     Without a left child: this node takes over the range if it ends inside it, or the range
     becomes the left child.
     */
    method GrowLeft(start: int, end: int) returns (added: int)
      requires Valid() && left == null
      modifies this
      ensures Valid() && fresh(Repr - old(Repr))
      ensures model == if old(data) <= end then old(model).(key := start, end := end)
                       else old(model).(left := Node(Leaf, start, end, Leaf))
      ensures added == if old(data) <= end then 0 else 1
    {
      if data <= end {
        key, data := start, end;
        model := model.(key := start, end := end);
        return 0;
      }
      left := new Elem(start, end);
      Repr := Repr + left.Repr;
      model := model.(left := left.model);
      return 1;
    }

    /** btreelem_ensure_range_lr; its threshold argument is never read. */
    method EnsureRange(start: int, end: int) returns (added: int)
      requires Valid()
      modifies Repr
      ensures Valid() && fresh(Repr - old(Repr))
      ensures model == Ensure(old(model), start, end)
      ensures added == Size(model) - Size(old(model))
      decreases Repr
    {
      added := 0;
      if key == start {
        RaiseEnd(end);
      } else if key > start {
        if left == null {
          added := GrowLeft(start, end);
        } else {
          added := left.EnsureRange(start, end);
          Repr := Repr + left.Repr;
          model := model.(left := left.model);
        }
      } else if data >= start {
        RaiseEnd(end);
      } else if right == null {
        right := new Elem(start, end);
        Repr := Repr + right.Repr;
        model := model.(right := right.model);
        added := 1;
      } else {
        added := right.EnsureRange(start, end);
        Repr := Repr + right.Repr;
        model := model.(right := right.model);
      }
    }

    /** btreelem_has_range_lr */
    method HasRange(start: int, end: int) returns (has: bool)
      requires Valid()
      ensures has == Has(model, start, end)
      decreases Repr
    {
      if key <= start && data >= end {
        return true;
      } else if key > start {
        if left == null {
          return false;
        }
        has := left.HasRange(start, end);
      } else {
        if right == null {
          return false;
        }
        has := right.HasRange(start, end);
      }
    }

    /** btreelem_run_cb2_r with _write_ranges_cb: the ranges in the order they are written, empty ones left out. */
    method WriteRanges() returns (lines: seq<Range>)
      requires Valid()
      ensures lines == Written(model)
      decreases Repr
    {
      lines := if data - key > 0 then [Range(key, data)] else [];
      if left != null {
        var more := left.WriteRanges();
        lines := lines + more;
      }
      if right != null {
        var more := right.WriteRanges();
        lines := lines + more;
      }
    }
  }

  class BTree {
    var root: Elem?
    var size: nat
    ghost var Repr: set<object>

    ghost predicate Valid()
      reads this, Repr
      ensures Valid() ==> this in Repr
    {
      && this in Repr
      && (root != null ==> root in Repr && root.Repr <= Repr && this !in root.Repr && root.Valid())
      && size == Size(Model())
    }

    ghost function Model(): Tree
      reads this, root
    {
      if root == null then Leaf else root.model
    }

    constructor ()
      ensures Valid() && fresh(Repr) && Model() == Leaf
    {
      root, size := null, 0;
      Repr := {this};
    }

    /** btree_insert */
    method Insert(key: int, data: int) returns (added: int)
      requires Valid()
      modifies Repr
      ensures Valid() && fresh(Repr - old(Repr))
      ensures Model() == RangeTree.Insert(old(Model()), key, data)
      ensures added == Size(Model()) - Size(old(Model()))
    {
      if root == null {
        root := new Elem(key, data);
        added := 1;
      } else {
        InsertSize(root.model, key, data);
        added := root.Insert(key, data);
      }
      if added == 1 {
        size := size + 1;
      }
      Repr := Repr + root.Repr;
    }

    /** btree_ensure_range_l */
    method EnsureRange(start: int, end: int)
      requires Valid()
      modifies Repr
      ensures Valid() && fresh(Repr - old(Repr))
      ensures Model() == Ensure(old(Model()), start, end)
    {
      if root == null {
        root := new Elem(start, end);
        size := size + 1;
      } else {
        EnsureSize(root.model, start, end);
        var added := root.EnsureRange(start, end);
        if added == 1 {
          size := size + 1;
        }
      }
      Repr := Repr + root.Repr;
    }

    /** btree_has_range_l */
    method HasRange(start: int, end: int) returns (has: bool)
      requires Valid()
      ensures has == Has(Model(), start, end)
    {
      if root == null {
        return false;
      }
      has := root.HasRange(start, end);
    }
  }
}
