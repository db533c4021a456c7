/** Exactly when two captured paths are moved to the same replay path (mounts.c). */
module Collisions {
  import opened Seqs
  import opened Paths
  import opened Mounts

  /** The replay root of a mount point. */
  function Root(mp: string, name: string): string { Base(mp) + Marker(name) }

  /**
   The replay root of mount point i is where the one of mount point j begins: the path below i
   that is moved onto the replay root of j.
   */
  function Lower(m: MountTable, name: string, i: nat, j: nat): string
    requires i < |m.mps| && j < |m.mps| && Root(m.mps[i], name) <= Root(m.mps[j], name)
  {
    Base(m.mps[i]) + Root(m.mps[j], name)[|Root(m.mps[i], name)|..]
  }

  /** mounts_transform_path leaves the string as it is and picks mount point i for it. */
  ghost predicate Picks(m: MountTable, path: string, i: nat) {
    StackNormal(path) == path && !IgnorePath(m, path) && Match(m, path, |m.mps|) == Some(i)
  }

  /** Two replay roots, one the beginning of the other, whose two candidate paths are both moved. */
  ghost predicate Clash(m: MountTable, name: string, i: nat, j: nat) {
    && i < |m.mps| && j < |m.mps| && Base(m.mps[i]) != Base(m.mps[j])
    && Root(m.mps[i], name) <= Root(m.mps[j], name)
    && Picks(m, Lower(m, name, i, j), i) && Picks(m, m.mps[j], j)
  }

  ghost predicate Injective(m: MountTable, name: string) {
    forall a, b :: Transform(m, name, a).Mapped? && Transform(m, name, a) == Transform(m, name, b) ==>
      StackNormal(a) == StackNormal(b)
  }

  ghost predicate NormalTable(m: MountTable) { forall i :: 0 <= i < |m.mps| ==> StackNormal(m.mps[i]) == m.mps[i] }

  // ---------------------------------------------------------------- a clash is a collision

  lemma PickedIsMoved(m: MountTable, name: string, path: string, i: nat)
    requires Picks(m, path, i)
    ensures i < |m.mps| && m.mps[i] <= path
    ensures Transform(m, name, path) == Mapped(Root(m.mps[i], name) + Rest(m.mps[i], path))
  {
    hide StackNormal, IgnorePath;
  }

  lemma ClashCollides(m: MountTable, name: string, i: nat, j: nat)
    requires Clash(m, name, i, j)
    ensures !Injective(m, name)
  {
    hide StackNormal, IgnorePath, Match, Transform, Picks;
    var x, y := m.mps[i], m.mps[j];
    var a := Lower(m, name, i, j);
    PickedIsMoved(m, name, a, i);
    PickedIsMoved(m, name, y, j);
    RestAfterBase(x, a, Root(y, name)[|Root(x, name)|..]);
    assert Root(x, name) + Root(y, name)[|Root(x, name)|..] == Root(y, name);
    assert y != "/" by {
      assert |Base(x)| <= |Base(y)|;
    }
    assert Rest(y, y) == "";
    assert Transform(m, name, a) == Transform(m, name, y);
    assert StackNormal(a) == a && StackNormal(y) == y by {
      PickedIsNormal(m, a, i);
      PickedIsNormal(m, y, j);
    }
    if a == y {
      PickedOnce(m, a, i, j);
    }
  }

  lemma PickedIsNormal(m: MountTable, path: string, i: nat)
    requires Picks(m, path, i)
    ensures StackNormal(path) == path
  {
  }

  lemma RestAfterBase(mp: string, path: string, rest: string)
    requires mp <= path && path == Base(mp) + rest
    ensures Rest(mp, path) == rest
  {
  }

  lemma PickedOnce(m: MountTable, path: string, i: nat, j: nat)
    requires Picks(m, path, i) && Picks(m, path, j)
    ensures i == j
  {
  }

  /** Two replay roots can overlap by a part of the marker, when the name begins like ".ioriot". */
  lemma ShortNameClashes(m: MountTable)
    requires m == MountTable(["/mnt", "/mnt/.ioriot"], [])
    ensures Clash(m, ".i", 0, 1) && Lower(m, ".i", 0, 1) == "/mntoriot/.i"
  {
    hide StackNormal, Match;
    assert Root(m.mps[0], ".i") == "/mnt/.ioriot/.i" && Root(m.mps[1], ".i") == "/mnt/.ioriot/.ioriot/.i";
    assert Root(m.mps[1], ".i")[|Root(m.mps[0], ".i")|..] == "oriot/.i";
    var a, b := "/mntoriot/.i", "/mnt/.ioriot";
    assert "/mnt" + "oriot/.i" == a;
    NoDots(a);
    NoDots(b);
    Differ("/tmp/namespace-", a, 1);
    Differ("/tmp/namespace-", b, 1);
    Differ(b, a, 4);
    OnlyRootMatches(m, a);
    LastMatches(m, b, 1);
  }

  // ---------------------------------------------------------------- a collision is a clash

  lemma {:induction false} MatchShorter(m: MountTable, x: string, y: string, n: nat)
    requires n <= |m.mps| && x <= y && Match(m, y, n).Some? && m.mps[Match(m, y, n).value] <= x
    ensures Match(m, x, n) == Match(m, y, n)
  {
    if m.mps[n - 1] <= y {
      assert Match(m, y, n) == Some(n - 1);
    } else {
      assert !(m.mps[n - 1] <= x);
      MatchShorter(m, x, y, n - 1);
    }
  }

  /** A slash inside a marker stands at its start or before the name. */
  lemma SlashesOf(name: string, k: nat)
    requires Part(name) && k < |Marker(name)| && Marker(name)[k] == '/'
    ensures k == 0 || k == 8
  {
    assert |INSERT| == 9 && INSERT[1..8] == ".ioriot";
    assert forall x :: 1 <= x < 8 ==> INSERT[x] == INSERT[1..8][x - 1];
    assert forall x :: 9 <= x < |Marker(name)| ==> Marker(name)[x] == name[x - 9] && name[x - 9] in name;
  }

  /** A marker that begins with itself, shifted by `gap`, is shifted by more than the name. */
  lemma ShiftIsLong(gap: string, name: string)
    requires Part(name) && gap != "" && Marker(name) <= gap + Marker(name)
    ensures |gap| > |name|
  {
    var marker := Marker(name);
    if |gap| <= |name| {
      assert (gap + marker)[|gap|] == marker[0] == '/';
      assert marker[|gap|] == '/';
      SlashesOf(name, |gap|);
      assert marker[8] == '/' && (gap + marker)[16] == marker[8];
      assert marker[16] == '/';
      SlashesOf(name, 16);
      assert false;
    }
  }

  /** A slash in a clean path ends a component. */
  lemma {:induction false} SplitAtSlash(parts: seq<string>, x: string, rest: string) returns (k: nat)
    requires AllParts(parts) && Abs(parts) == x + "/" + rest
    ensures k <= |parts| && x == Abs(parts[..k])
    decreases |parts|
  {
    if x == "" {
      k := 0;
      assert parts[..0] == [];
    } else {
      var first, tail := parts[0], Abs(parts[1..]);
      var s := Abs(parts);
      assert s == "/" + first + tail;
      assert s[|x|] == '/';
      assert forall i :: 1 <= i <= |first| ==> s[i] == first[i - 1] && first[i - 1] in first;
      assert x == s[..|x|];
      var x' := x[1 + |first|..];
      assert x == "/" + first + x';
      assert tail == s[1 + |first|..] == x' + "/" + rest;
      var k' := SplitAtSlash(parts[1..], x', rest);
      k := k' + 1;
      assert parts[..k][0] == first && parts[..k][1..] == parts[1..][..k'];
    }
  }

  /** Cutting a normal path behind a clean component leaves a normal path. */
  lemma CutIsNormal(path: string, x: string, name: string)
    requires StackNormal(path) == path && Clean([name]) && x + "/" + name <= path
    ensures StackNormal(x + "/" + name) == x + "/" + name
  {
    hide Abs, Stacked, Tokenised;
    var cut := x + "/" + name;
    assert Part(name) && name != "." && name != ".." by {
      assert [name][0] == name;
    }
    if Tokenised(path) {
      assert path != "." by {
        DotIsNotTokenised();
      }
      var parts := Stacked(path);
      var rest := path[|x| + 1..];
      assert path == x + "/" + rest;
      var k := SplitAtSlash(parts, x, rest);
      AbsSnoc(parts[..k], name);
      assert Clean(parts[..k] + [name]);
      CleanIsNormal(parts[..k] + [name]);
    } else {
      ShorterIsNotTokenised(cut, path);
    }
  }

  lemma DotIsNotTokenised()
    ensures !Tokenised(".")
  {
    assert |"."| < |".."| && |"."| < |"//"|;
  }

  lemma ShorterIsNotTokenised(x: string, y: string)
    requires x <= y && !Tokenised(y)
    ensures !Tokenised(x)
  {
    NotContained(x, y, "..");
    NotContained(x, y, "//");
  }

  lemma NotContained(x: string, y: string, sub: string)
    requires x <= y && !Contains(y, sub)
    ensures !Contains(x, sub)
  {
    forall i | 0 <= i <= |x|
      ensures !(sub <= x[i..])
    {
      assert x[i..] <= y[i..];
    }
  }

  lemma ShorterIsNotIgnored(m: MountTable, x: string, y: string)
    requires x <= y && !IgnorePath(m, y)
    ensures !IgnorePath(m, x)
  {
  }

  /** Two moved paths with one result: what the longer base adds to the shorter one. */
  lemma SplitGap(x: string, y: string, marker: string, u: string, v: string) returns (gap: string)
    requires |x| < |y| && x + marker + u == y + marker + v
    ensures y == x + gap && gap != "" && marker + u == gap + marker + v
  {
    var r := x + (marker + u);
    assert r == x + marker + u == y + (marker + v);
    assert r[..|x|] == x && r[..|y|] == y && r[|x|..] == marker + u;
    gap := y[|x|..];
    assert y == x + gap;
    assert r == x + (gap + (marker + v));
    assert r[|x|..] == gap + (marker + v);
  }

  /** What follows the first replay root in the second one. */
  lemma SplitTail(gap: string, marker: string, u: string, v: string) returns (tail: string)
    requires marker + u == gap + marker + v
    ensures gap + marker == marker + tail && u == tail + v && |tail| == |gap|
  {
    var r := marker + u;
    tail := u[..|gap|];
    assert r[..|gap| + |marker|] == gap + marker;
    assert r[..|gap| + |marker|] == marker + tail;
    assert r[|gap| + |marker|..] == v && r[|gap| + |marker|..] == u[|gap|..];
  }

  /** It ends with the name as a whole component. */
  lemma TailEnds(gap: string, name: string, tail: string)
    requires Part(name) && gap != "" && gap + Marker(name) == Marker(name) + tail
    ensures |tail| > |name| && tail == tail[..|tail| - |name| - 1] + "/" + name
  {
    var marker := Marker(name);
    assert marker <= gap + marker;
    ShiftIsLong(gap, name);
    assert |tail| == |gap|;
    assert marker[8..] == "/" + name;
    var r := gap + marker;
    assert r[|r| - |name| - 1..] == "/" + name;
    assert r[|r| - |name| - 1..] == tail[|tail| - |name| - 1..];
  }

  lemma LowerIs(m: MountTable, name: string, i: nat, j: nat, gap: string, tail: string)
    requires i < |m.mps| && j < |m.mps| && Base(m.mps[j]) == Base(m.mps[i]) + gap
    requires gap + Marker(name) == Marker(name) + tail
    ensures Root(m.mps[i], name) <= Root(m.mps[j], name) && Lower(m, name, i, j) == Base(m.mps[i]) + tail
  {
    hide Base, Marker;
    var x, marker := Base(m.mps[i]), Marker(name);
    assert Root(m.mps[j], name) == x + (gap + marker) == (x + marker) + tail;
  }

  lemma BaseAndRest(mp: string, path: string)
    requires mp <= path
    ensures path == Base(mp) + Rest(mp, path)
  {
  }

  lemma StillBelow(mp: string, path: string, cut: string)
    requires mp <= path && cut <= path && |Base(mp)| < |cut|
    ensures mp <= cut
  {
  }

  /** A beginning of a picked path that still reaches into its mount point and ends with the name is picked too. */
  lemma CutIsPicked(m: MountTable, name: string, path: string, i: nat, front: string)
    requires Picks(m, path, i) && i < |m.mps| && Clean([name]) && m.mps[i] <= path
    requires front + "/" + name <= path && |Base(m.mps[i])| < |front + "/" + name|
    ensures Picks(m, front + "/" + name, i)
  {
    hide StackNormal, IgnorePath, Match, Clean, Base;
    CutIsNormal(path, front, name);
    ShorterIsNotIgnored(m, front + "/" + name, path);
    StillBelow(m.mps[i], path, front + "/" + name);
    MatchShorter(m, front + "/" + name, path, |m.mps|);
  }

  lemma MountIsPicked(m: MountTable, path: string, j: nat)
    requires NormalTable(m) && Picks(m, path, j) && j < |m.mps| && m.mps[j] <= path
    ensures Picks(m, m.mps[j], j)
  {
    hide StackNormal, IgnorePath, Match;
    ShorterIsNotIgnored(m, m.mps[j], path);
    MatchShorter(m, m.mps[j], path, |m.mps|);
  }

  /** From two paths with one replay path to a clash, when the first has the shorter base. */
  lemma CollisionClashes(m: MountTable, name: string, p: string, q: string, i: nat, j: nat)
    requires NormalTable(m) && Clean([name]) && Picks(m, p, i) && Picks(m, q, j) && i < |m.mps| && j < |m.mps|
    requires m.mps[i] <= p && m.mps[j] <= q
    requires Root(m.mps[i], name) + Rest(m.mps[i], p) == Root(m.mps[j], name) + Rest(m.mps[j], q)
    requires |Base(m.mps[i])| < |Base(m.mps[j])|
    ensures Clash(m, name, i, j)
  {
    hide Picks, Marker, NormalTable, Clean, Base, Rest, Lower;
    var x, y := m.mps[i], m.mps[j];
    var gap := SplitGap(Base(x), Base(y), Marker(name), Rest(x, p), Rest(y, q));
    var tail := SplitTail(gap, Marker(name), Rest(x, p), Rest(y, q));
    NameIsPart(name);
    TailEnds(gap, name, tail);
    LowerIs(m, name, i, j, gap, tail);
    BaseAndRest(x, p);
    var front := Base(x) + tail[..|tail| - |name| - 1];
    assert Base(x) + tail == front + "/" + name;
    assert p == (Base(x) + tail) + Rest(y, q);
    CutIsPicked(m, name, p, i, front);
    MountIsPicked(m, q, j);
  }

  lemma NameIsPart(name: string)
    requires Clean([name])
    ensures Part(name)
  {
    assert [name][0] == name;
  }

  // ---------------------------------------------------------------- the condition

  /** Two different paths have one replay path if and only if two replay roots of the table clash. */
  lemma InjectiveExactly(m: MountTable, name: string)
    requires NormalTable(m) && Clean([name])
    ensures Injective(m, name) <==> forall i: nat, j: nat :: !Clash(m, name, i, j)
  {
    hide StackNormal, Transform, Clash, NormalTable, Clean;
    forall i: nat, j: nat | Clash(m, name, i, j)
      ensures !Injective(m, name)
    {
      ClashCollides(m, name, i, j);
    }
    if forall i: nat, j: nat :: !Clash(m, name, i, j) {
      forall a, b | Transform(m, name, a).Mapped? && Transform(m, name, a) == Transform(m, name, b)
        ensures StackNormal(a) == StackNormal(b)
      {
        NoClashNoCollision(m, name, a, b);
      }
    }
  }

  /** What mounts_transform_path picked for a path it moves. */
  lemma MovedIsPicked(m: MountTable, name: string, path: string) returns (i: nat)
    requires Transform(m, name, path).Mapped?
    ensures var p := StackNormal(path);
            && i < |m.mps| && Picks(m, p, i) && m.mps[i] <= p
            && Transform(m, name, path) == Mapped(Root(m.mps[i], name) + Rest(m.mps[i], p))
  {
    hide StackNormal, IgnorePath;
    StackNormalIdempotent(path);
    i := Match(m, StackNormal(path), |m.mps|).value;
  }

  /** Paths below one base stay apart, whatever its components. */
  lemma SameBaseNoCollision(m: MountTable, name: string, a: string, b: string, i: nat, j: nat)
    requires Transform(m, name, a).Mapped? && Transform(m, name, a) == Transform(m, name, b)
    requires Match(m, StackNormal(a), |m.mps|) == Some(i) && Match(m, StackNormal(b), |m.mps|) == Some(j)
    requires |Base(m.mps[i])| == |Base(m.mps[j])|
    ensures StackNormal(a) == StackNormal(b)
  {
    hide StackNormal, IgnorePath, Match;
    var p, q := StackNormal(a), StackNormal(b);
    var x, y := Base(m.mps[i]), Base(m.mps[j]);
    var r := Root(m.mps[i], name) + Rest(m.mps[i], p);
    assert x == r[..|x|] == y;
    assert Rest(m.mps[i], p) == r[|x| + |Marker(name)|..] == Rest(m.mps[j], q);
    assert p == x + Rest(m.mps[i], p) && q == y + Rest(m.mps[j], q);
  }

  /** A single mount point never collides with itself, even with a .ioriot component. */
  lemma OneMountIsInjective(m: MountTable, name: string)
    requires |m.mps| == 1
    ensures Injective(m, name)
  {
    hide StackNormal, IgnorePath;
    forall a, b | Transform(m, name, a).Mapped? && Transform(m, name, a) == Transform(m, name, b)
      ensures StackNormal(a) == StackNormal(b)
    {
      SameBaseNoCollision(m, name, a, b, 0, 0);
    }
  }

  lemma NoClashNoCollision(m: MountTable, name: string, a: string, b: string)
    requires NormalTable(m) && Clean([name]) && forall i: nat, j: nat :: !Clash(m, name, i, j)
    requires Transform(m, name, a).Mapped? && Transform(m, name, a) == Transform(m, name, b)
    ensures StackNormal(a) == StackNormal(b)
  {
    hide StackNormal, Transform, Clash, Picks, NormalTable, Clean;
    var p, q := StackNormal(a), StackNormal(b);
    var i := MovedIsPicked(m, name, a);
    var j := MovedIsPicked(m, name, b);
    var x, y := Base(m.mps[i]), Base(m.mps[j]);
    if |x| < |y| {
      CollisionClashes(m, name, p, q, i, j);
      assert false;
    } else if |y| < |x| {
      CollisionClashes(m, name, q, p, j, i);
      assert false;
    } else {
      assert Match(m, p, |m.mps|) == Some(i) && Match(m, q, |m.mps|) == Some(j) by {
        PickedMatches(m, p, i);
        PickedMatches(m, q, j);
      }
      SameBaseNoCollision(m, name, a, b, i, j);
    }
  }

  lemma PickedMatches(m: MountTable, path: string, i: nat)
    requires Picks(m, path, i)
    ensures Match(m, path, |m.mps|) == Some(i)
  {
  }
}
