/**
 The virtual size of a file (generate/vsize.c): a plain byte count until a hole appears, a
 tree of data ranges from then on. First as functions on values, then as the object.
 */
module VSize {
  import opened Seqs
  import opened RangeTree
  import opened BTree

  const IGNORE_FILE_HOLE_BYTES: int := 1024 * 1024 * 10

  /** Reads and writes have separate trees but share one byte count. */
  datatype Side = Reads | Writes

  datatype Sizes = Sizes(bytes: int, readTree: Option<Tree>, writeTree: Option<Tree>)
  {
    function Ranges(side: Side): Option<Tree> { if side.Reads? then readTree else writeTree }

    function WithRanges(side: Side, t: Tree): Sizes {
      if side.Reads? then this.(readTree := Some(t)) else this.(writeTree := Some(t))
    }
  }

  const FRESH: Sizes := Sizes(0, None, None)

  // ---------------------------------------------------------------- operations

  /** A request at this offset opens a hole after the plain byte count. */
  predicate OpensHole(v: Sizes, offset: int) { offset != 0 && offset > v.bytes }

  /** vsize_ensure_data_range */
  function EnsureData(v: Sizes, side: Side, offset: int, bytes: int): Sizes {
    match v.Ranges(side)
    case Some(t) => v.WithRanges(side, Ensure(t, offset, offset + bytes))
    case None =>
      if offset == 0 then if v.bytes + IGNORE_FILE_HOLE_BYTES < bytes then v.(bytes := bytes) else v
      else if offset <= v.bytes then if v.bytes < bytes then v.(bytes := bytes) else v
      else v.(bytes := -1).WithRanges(side, Ensure(Insert(Leaf, 0, v.bytes), offset, offset + bytes))
  }

  /** The file already holds what is read because it was written before. */
  predicate AlreadyWritten(v: Sizes, offset: int, bytes: int) {
    v.writeTree.Some? && Has(v.writeTree.value, offset, offset + bytes)
  }

  /** vsize_read */
  function ReadData(v: Sizes, offset: int, bytes: int): Sizes {
    if AlreadyWritten(v, offset, bytes) then v else EnsureData(v, Reads, offset, bytes)
  }

  datatype Access = Access(side: Side, offset: int, bytes: int)

  /** vsize_read or vsize_write at the offset of the descriptor. */
  function Perform(v: Sizes, a: Access): Sizes {
    if a.side.Reads? then ReadData(v, a.offset, a.bytes) else EnsureData(v, Writes, a.offset, a.bytes)
  }

  function PerformAll(v: Sizes, accesses: seq<Access>): Sizes {
    if accesses == [] then v else Perform(PerformAll(v, accesses[..|accesses| - 1]), accesses[|accesses| - 1])
  }

  /** Byte x is in a data range of this side's tree. */
  predicate Holds(v: Sizes, side: Side, x: int) { v.Ranges(side).Some? && Covers(v.Ranges(side).value, x) }

  // ---------------------------------------------------------------- from size to tree

  /** When a hole appears, the tree holds exactly the old bytes and the new range, and the byte count is given up. */
  lemma HoleStartsTree(v: Sizes, side: Side, offset: int, bytes: int, x: int)
    requires v.Ranges(side).None? && OpensHole(v, offset)
    ensures var v' := EnsureData(v, side, offset, bytes);
            && v'.Ranges(side).Some? && Sorted(v'.Ranges(side).value) && v'.bytes == -1
            && (Holds(v', side, x) <==> In(x, 0, v.bytes) || In(x, offset, offset + bytes))
  {
    var root := Insert(Leaf, 0, v.bytes);
    EnsureIsExact(root, offset, offset + bytes, x);
    EnsureKeepsOrder(root, offset, offset + bytes);
  }

  /** From then on a request adds exactly its range, and the other side never changes. */
  lemma TreeGrowsExactly(v: Sizes, side: Side, offset: int, bytes: int, x: int)
    requires v.Ranges(side).Some?
    ensures var v' := EnsureData(v, side, offset, bytes);
            && (Holds(v', side, x) <==> Holds(v, side, x) || In(x, offset, offset + bytes))
            && (forall other: Side :: other != side ==> v'.Ranges(other) == v.Ranges(other))
            && v'.bytes == v.bytes
  {
    EnsureIsExact(v.Ranges(side).value, offset, offset + bytes, x);
  }

  /** Exactly when the plain byte count reaches the end of the range it was asked for. */
  lemma PlainSizeCovers(v: Sizes, side: Side, offset: int, bytes: int)
    requires v.Ranges(side).None? && !OpensHole(v, offset) && offset >= 0
    ensures EnsureData(v, side, offset, bytes).Ranges(side).None?
    ensures EnsureData(v, side, offset, bytes).bytes >= offset + bytes <==>
              if offset == 0 then bytes <= v.bytes || v.bytes + IGNORE_FILE_HOLE_BYTES < bytes
              else offset + bytes <= v.bytes
  {
  }

  /**
   Without a hole there is still no tree, and the size becomes the count of the request itself,
   not its end: if that is larger, and at the start of the file only if it is larger by more
   than 10 MiB.
   */
  lemma PlainSizeIs(v: Sizes, side: Side, offset: int, bytes: int)
    requires v.Ranges(side).None? && !OpensHole(v, offset)
    ensures var v' := EnsureData(v, side, offset, bytes);
            && v'.readTree == v.readTree && v'.writeTree == v.writeTree && v'.bytes >= v.bytes
            && (offset != 0 ==> v'.bytes >= bytes && (v'.bytes == v.bytes || v'.bytes == bytes))
            && (offset == 0 ==> if bytes > v.bytes + 10485760 then v'.bytes == bytes else v'.bytes == v.bytes)
  {
  }

  // ---------------------------------------------------------------- what was written before

  lemma {:induction false} ShorterIsReported(t: Tree, start: int, end: int, end': int)
    requires Has(t, start, end) && end' <= end
    ensures Has(t, start, end')
  {
    match t
    case Node(l, _, _, r) =>
      if Has(l, start, end) { ShorterIsReported(l, start, end, end'); }
      if Has(r, start, end) { ShorterIsReported(r, start, end, end'); }
  }

  lemma PerformKeepsReported(v: Sizes, a: Access, offset: int, bytes: int)
    requires AlreadyWritten(v, offset, bytes)
    ensures AlreadyWritten(Perform(v, a), offset, bytes)
  {
    hide Has, Ensure;
    EnsureKeepsHas(v.writeTree.value, a.offset, a.offset + a.bytes, offset, offset + bytes);
  }

  lemma {:induction false} ReportedForEver(v: Sizes, later: seq<Access>, offset: int, bytes: int)
    requires AlreadyWritten(v, offset, bytes)
    ensures AlreadyWritten(PerformAll(v, later), offset, bytes)
    decreases |later|
  {
    hide AlreadyWritten, Perform;
    if later == [] {
    } else {
      ReportedForEver(v, later[..|later| - 1], offset, bytes);
      PerformKeepsReported(PerformAll(v, later[..|later| - 1]), later[|later| - 1], offset, bytes);
    }
  }

  lemma WriteIsReported(v: Sizes, offset: int, bytes: int)
    requires EnsureData(v, Writes, offset, bytes).writeTree.Some?
    ensures AlreadyWritten(EnsureData(v, Writes, offset, bytes), offset, bytes)
  {
    hide Has, Ensure, Insert;
    var root := Insert(Leaf, 0, v.bytes);
    HasAfterEnsure(if v.writeTree.Some? then v.writeTree.value else root, offset, offset + bytes);
  }

  /**
   What the program wrote itself is not asked of the initialiser: once writes go to a tree, a
   read of what a write started with changes nothing, whatever happened in between.
   */
  lemma ReadOfWrittenIsFree(v: Sizes, offset: int, bytes: int, later: seq<Access>, bytes': int)
    requires EnsureData(v, Writes, offset, bytes).writeTree.Some? && bytes' <= bytes
    ensures var v' := PerformAll(EnsureData(v, Writes, offset, bytes), later);
            ReadData(v', offset, bytes') == v'
  {
    hide Has, EnsureData, PerformAll;
    var v1 := EnsureData(v, Writes, offset, bytes);
    var v' := PerformAll(v1, later);
    WriteIsReported(v, offset, bytes);
    ReportedForEver(v1, later, offset, bytes);
    ShorterIsReported(v'.writeTree.value, offset, offset + bytes, offset + bytes');
  }

  /** A read with a byte nobody wrote is recorded in full. */
  lemma ReadOfUnwrittenIsRecorded(v: Sizes, offset: int, bytes: int, hole: int, x: int)
    requires In(hole, offset, offset + bytes) && !Holds(v, Writes, hole)
    ensures ReadData(v, offset, bytes) == EnsureData(v, Reads, offset, bytes)
    ensures v.readTree.Some? && In(x, offset, offset + bytes) ==> Holds(ReadData(v, offset, bytes), Reads, x)
  {
    hide Has, Ensure;
    if AlreadyWritten(v, offset, bytes) {
      HasIsSound(v.writeTree.value, offset, offset + bytes, hole);
    }
    if v.readTree.Some? {
      EnsureIsExact(v.readTree.value, offset, offset + bytes, x);
    }
  }

  // ---------------------------------------------------------------- every run

  lemma PerformKeepsTree(v: Sizes, a: Access, side: Side, x: int)
    requires v.Ranges(side).Some? && Sorted(v.Ranges(side).value)
    ensures var v' := Perform(v, a);
            && v'.Ranges(side).Some? && Sorted(v'.Ranges(side).value)
            && (Holds(v, side, x) ==> Holds(v', side, x))
            && (Holds(v', side, x) ==> Holds(v, side, x) || (a.side == side && In(x, a.offset, a.offset + a.bytes)))
  {
    EnsureIsExact(v.Ranges(side).value, a.offset, a.offset + a.bytes, x);
    EnsureKeepsOrder(v.Ranges(side).value, a.offset, a.offset + a.bytes);
  }

  /** Byte x was asked for on this side. */
  ghost predicate Asked(accesses: seq<Access>, side: Side, x: int) {
    exists i :: 0 <= i < |accesses| && accesses[i].side == side
      && In(x, accesses[i].offset, accesses[i].offset + accesses[i].bytes)
  }

  /** A tree stays a search tree, forgets no byte and never holds a byte nobody asked for. */
  lemma {:induction false} TreeOnlyGrows(v: Sizes, accesses: seq<Access>, side: Side, x: int)
    requires v.Ranges(side).Some? && Sorted(v.Ranges(side).value)
    ensures var v' := PerformAll(v, accesses);
            && v'.Ranges(side).Some? && Sorted(v'.Ranges(side).value)
            && (Holds(v, side, x) ==> Holds(v', side, x))
            && (Holds(v', side, x) ==> Holds(v, side, x) || Asked(accesses, side, x))
    decreases |accesses|
  {
    if accesses == [] {
    } else {
      var front, last := accesses[..|accesses| - 1], accesses[|accesses| - 1];
      TreeOnlyGrows(v, front, side, x);
      PerformKeepsTree(PerformAll(v, front), last, side, x);
      if Asked(front, side, x) {
        var i :| 0 <= i < |front| && front[i].side == side && In(x, front[i].offset, front[i].offset + front[i].bytes);
        assert accesses[i] == front[i];
      }
      assert accesses[|accesses| - 1] == last;
    }
  }

  /**
   What a read needs is there when the file is created, or is written before it: once the
   read side is a tree, every byte of a read is in a read range or a write range, and stays
   there whatever is read and written later.
   */
  lemma ReadIsServed(v: Sizes, offset: int, bytes: int, later: seq<Access>, x: int)
    requires v.readTree.Some? && Sorted(v.readTree.value) && (v.writeTree.Some? ==> Sorted(v.writeTree.value))
    requires In(x, offset, offset + bytes)
    ensures var v' := PerformAll(ReadData(v, offset, bytes), later); Holds(v', Reads, x) || Holds(v', Writes, x)
  {
    var v1 := ReadData(v, offset, bytes);
    if AlreadyWritten(v, offset, bytes) {
      HasIsSound(v.writeTree.value, offset, offset + bytes, x);
      TreeOnlyGrows(v1, later, Writes, x);
    } else {
      EnsureIsExact(v.readTree.value, offset, offset + bytes, x);
      EnsureKeepsOrder(v.readTree.value, offset, offset + bytes);
      TreeOnlyGrows(v1, later, Reads, x);
    }
  }

  // ---------------------------------------------------------------- the init section

  /** generate_write_init_cb for a required regular file. */
  function InitLines(v: Sizes): seq<Range> {
    if v.readTree.Some? then Written(v.readTree.value)
    else if v.bytes >= 0 then [Range(0, v.bytes)]
    else []
  }

  /** The init lines cover exactly the bytes of the read tree; without one, the bytes below the plain size. */
  lemma InitLinesAreExact(v: Sizes, x: int)
    ensures InSome(InitLines(v), x) <==> if v.readTree.Some? then Holds(v, Reads, x) else In(x, 0, v.bytes)
  {
    if v.readTree.Some? {
      WrittenIsExact(v.readTree.value, x);
    } else if v.bytes >= 0 {
      assert InitLines(v)[0] == Range(0, v.bytes);
    }
  }

  /** The i-th access is a read of byte x, and when it comes no write tree reports the range it asks for. */
  predicate ReadUnwritten(v: Sizes, accesses: seq<Access>, i: nat, x: int)
    requires i < |accesses|
  {
    var a := accesses[i];
    && a.side.Reads? && In(x, a.offset, a.offset + a.bytes)
    && match PerformAll(v, accesses[..i]).writeTree {
         case Some(t) => !Has(t, a.offset, a.offset + a.bytes)
         case None => true
       }
  }

  ghost predicate SomeReadUnwritten(v: Sizes, accesses: seq<Access>, x: int) {
    exists i :: 0 <= i < |accesses| && ReadUnwritten(v, accesses, i, x)
  }

  /** One access enters a byte into the read tree exactly if it reads it and its range is not reported as written. */
  lemma ReadIsRecorded(v: Sizes, a: Access, x: int)
    requires v.readTree.Some?
    ensures var v' := Perform(v, a);
            var asked := a.side.Reads? && In(x, a.offset, a.offset + a.bytes);
            && v'.readTree.Some?
            && (Holds(v', Reads, x) <==> Holds(v, Reads, x) || (asked && !AlreadyWritten(v, a.offset, a.bytes)))
  {
    hide Has, Ensure;
    EnsureIsExact(v.readTree.value, a.offset, a.offset + a.bytes, x);
  }

  lemma SnocUnwritten(v: Sizes, front: seq<Access>, last: Access, x: int)
    ensures SomeReadUnwritten(v, front + [last], x)
         == (SomeReadUnwritten(v, front, x) || ReadUnwritten(v, front + [last], |front|, x))
  {
    hide PerformAll, AlreadyWritten;
    var all := front + [last];
    forall i | 0 <= i < |front|
      ensures ReadUnwritten(v, all, i, x) <==> ReadUnwritten(v, front, i, x)
    {
      assert all[..i] == front[..i] && all[i] == front[i];
    }
    if SomeReadUnwritten(v, front, x) {
      var i :| 0 <= i < |front| && ReadUnwritten(v, front, i, x);
      assert ReadUnwritten(v, all, i, x);
    }
  }

  /** A read tree gains exactly the bytes of the reads that were not reported as written when they came. */
  lemma {:induction false} ReadTreeExactly(v: Sizes, accesses: seq<Access>, x: int)
    requires v.readTree.Some?
    ensures var v' := PerformAll(v, accesses);
            && v'.readTree.Some?
            && (Holds(v', Reads, x) <==> Holds(v, Reads, x) || SomeReadUnwritten(v, accesses, x))
    decreases |accesses|
  {
    hide Perform, Holds, Has, SomeReadUnwritten;
    if accesses == [] {
      NoReads(v, x);
    } else {
      var front, last := accesses[..|accesses| - 1], accesses[|accesses| - 1];
      assert accesses == front + [last];
      assert accesses[..|front|] == front;
      ReadTreeExactly(v, front, x);
      ReadIsRecorded(PerformAll(v, front), last, x);
      SnocUnwritten(v, front, last, x);
    }
  }

  lemma NoReads(v: Sizes, x: int)
    ensures !SomeReadUnwritten(v, [], x)
  {
  }

  /**
   From the first hole to the init section: a byte is created exactly if it was there before
   the hole, or lies in the range that opened it, or in a later read that was not reported as
   written when it came.
   */
  lemma HoleToInit(v: Sizes, offset: int, bytes: int, later: seq<Access>, x: int)
    requires v.readTree.None? && OpensHole(v, offset)
    ensures var v1 := EnsureData(v, Reads, offset, bytes);
            var created := InSome(InitLines(PerformAll(v1, later)), x);
            created <==> In(x, 0, v.bytes) || In(x, offset, offset + bytes) || SomeReadUnwritten(v1, later, x)
  {
    hide EnsureData, InitLines, Holds, SomeReadUnwritten, InSome;
    var v1 := EnsureData(v, Reads, offset, bytes);
    HoleStartsTree(v, Reads, offset, bytes, x);
    ReadTreeExactly(v1, later, x);
    InitLinesAreExact(PerformAll(v1, later), x);
  }

  // ---------------------------------------------------------------- the object

  class Vfd {
    var offset: int

    constructor ()
      ensures offset == 0
    {
      offset := 0;
    }
  }

  /** A new tree with a root range and one more. */
  method NewRanges(bytes: int, start: int, end: int) returns (tree: BTree)
    ensures tree.Valid() && fresh(tree.Repr)
    ensures tree.Model() == Ensure(Insert(Leaf, 0, bytes), start, end)
  {
    tree := new BTree();
    var _ := tree.Insert(0, bytes);
    tree.EnsureRange(start, end);
  }

  class Vsize {
    var bytes: int
    var readRanges: BTree?
    var writeRanges: BTree?
    var required: bool
    var updates: nat

    ghost predicate Valid()
      reads this, readRanges, writeRanges,
            if readRanges == null then {} else readRanges.Repr,
            if writeRanges == null then {} else writeRanges.Repr
    {
      && (readRanges != null ==> readRanges.Valid() && this !in readRanges.Repr)
      && (writeRanges != null ==> writeRanges.Valid() && this !in writeRanges.Repr)
      && (readRanges != null && writeRanges != null ==> readRanges.Repr !! writeRanges.Repr)
    }

    /** The objects the virtual size consists of. */
    ghost function Repr(): set<object>
      reads this, readRanges, writeRanges
    {
      {this}
      + (if readRanges == null then {} else readRanges.Repr)
      + (if writeRanges == null then {} else writeRanges.Repr)
    }

    ghost function Content(tree: BTree?): Option<Tree>
      reads tree, if tree == null || tree.root == null then {} else {tree.root}
    {
      if tree == null then None else Some(tree.Model())
    }

    ghost function Value(): Sizes
      reads this, readRanges, writeRanges
      reads if readRanges == null || readRanges.root == null then {} else {readRanges.root}
      reads if writeRanges == null || writeRanges.root == null then {} else {writeRanges.root}
    {
      Sizes(bytes, Content(readRanges), Content(writeRanges))
    }

    constructor ()
      ensures Valid() && Value() == FRESH && fresh(Repr()) && !required && updates == 0
    {
      bytes, readRanges, writeRanges, required, updates := 0, null, null, false, 0;
    }

    /** A tree for the old bytes and the range after the hole; the byte count is not used any more. */
    method StartTree(side: Side, offset: int, count: int)
      requires Valid() && (if side.Reads? then readRanges == null else writeRanges == null)
      modifies this
      ensures Valid() && fresh(Repr() - old(Repr()))
      ensures var t := Ensure(Insert(Leaf, 0, old(bytes)), offset, offset + count);
              Value() == old(Value()).(bytes := -1).WithRanges(side, t)
      ensures required == old(required) && updates == old(updates)
    {
      hide Ensure, RangeTree.Insert;
      var root := NewRanges(bytes, offset, offset + count);
      bytes := -1;
      if side.Reads? {
        readRanges := root;
      } else {
        writeRanges := root;
      }
    }

    /** vsize_ensure_data_range on one of the two trees. */
    method EnsureDataRange(side: Side, offset: int, count: int)
      requires Valid()
      modifies Repr()
      ensures Valid() && fresh(Repr() - old(Repr()))
      ensures Value() == EnsureData(old(Value()), side, offset, count)
      ensures required == old(required) && updates == old(updates)
    {
      hide Ensure, RangeTree.Insert;
      var tree := if side.Reads? then readRanges else writeRanges;
      if tree != null {
        tree.EnsureRange(offset, offset + count);
      } else if offset == 0 {
        if bytes + IGNORE_FILE_HOLE_BYTES < count {
          bytes := count;
        }
      } else if offset <= bytes {
        if bytes < count {
          bytes := count;
        }
      } else {
        StartTree(side, offset, count);
      }
    }

    method IsWritten(offset: int, count: int) returns (written: bool)
      requires Valid()
      ensures written == AlreadyWritten(Value(), offset, count)
    {
      if writeRanges == null {
        return false;
      }
      written := writeRanges.HasRange(offset, offset + count);
    }

    method Advance(vfd: Vfd, count: int)
      requires Valid() && vfd !in Repr()
      modifies this`updates, vfd
      ensures Valid() && Repr() == old(Repr()) && Value() == old(Value()) && required == old(required)
      ensures vfd.offset == old(vfd.offset) + count && updates == old(updates) + 1
    {
      vfd.offset := vfd.offset + count;
      updates := updates + 1;
    }

    /** What is read must exist before the replay. */
    method Require()
      requires Valid()
      modifies this`required
      ensures Valid() && Repr() == old(Repr()) && Value() == old(Value()) && required
    {
      required := true;
    }

    /** vsize_read */
    method Read(vfd: Vfd, count: int)
      requires Valid() && vfd !in Repr()
      modifies Repr(), vfd
      ensures Valid() && fresh(Repr() - old(Repr()))
      ensures var v, start := old(Value()), old(vfd.offset);
              if v.writeTree.Some? && Has(v.writeTree.value, start, start + count)
              then Value() == v && required == old(required)
              else Value() == EnsureData(v, Reads, start, count) && required
      ensures Value() == ReadData(old(Value()), old(vfd.offset), count)
      ensures vfd.offset == old(vfd.offset) + count && updates == old(updates) + 1
    {
      hide EnsureData, Has;
      var written := IsWritten(vfd.offset, count);
      if !written {
        EnsureDataRange(Reads, vfd.offset, count);
        Require();
      }
      Advance(vfd, count);
    }

    /** vsize_write */
    method Write(vfd: Vfd, count: int)
      requires Valid() && vfd !in Repr()
      modifies Repr(), vfd
      ensures Valid() && fresh(Repr() - old(Repr()))
      ensures Value() == EnsureData(old(Value()), Writes, old(vfd.offset), count)
      ensures required == old(required)
      ensures vfd.offset == old(vfd.offset) + count && updates == old(updates) + 1
    {
      hide EnsureData;
      EnsureDataRange(Writes, vfd.offset, count);
      Advance(vfd, count);
    }

    /** vsize_seek */
    method Seek(vfd: Vfd, newOffset: int)
      requires Valid() && vfd !in Repr()
      modifies this`updates, vfd
      ensures Valid() && Value() == old(Value()) && required == old(required)
      ensures vfd.offset == newOffset && updates == old(updates) + 1
    {
      vfd.offset := newOffset;
      updates := updates + 1;
    }

    /** generate_write_init_cb: the ranges of a required regular file. */
    method WriteInit() returns (lines: seq<Range>)
      requires Valid()
      ensures lines == if required then InitLines(Value()) else []
    {
      if !required {
        return [];
      }
      if readRanges != null {
        lines := [];
        if readRanges.root != null {
          lines := readRanges.root.WriteRanges();
        }
      } else if bytes >= 0 {
        lines := [Range(0, bytes)];
      } else {
        lines := [];
      }
    }
  }

  // ---------------------------------------------------------------- a range the plain size misses

  /** After 20 MiB read from the start, 10 MiB read from 15 MiB on: the size stays at 20 MiB. */
  method ReadBehindSeekIsMissed() returns (v: Vsize, vfd: Vfd)
    ensures v.Valid() && v.Value() == Sizes(20 * 1024 * 1024, None, None) && vfd.offset == 25 * 1024 * 1024
  {
    var mb := 1024 * 1024;
    v := new Vsize();
    vfd := new Vfd();
    v.Read(vfd, 20 * mb);
    v.Seek(vfd, 15 * mb);
    v.Read(vfd, 10 * mb);
  }
}
