/** Moving captured paths below "<mount point>/.ioriot/NAME" (mounts.c). */
module Mounts {
  import opened Seqs
  import opened Paths

  const INSERT := "/.ioriot/"

  /** Supported and ignored mount points, in the order of /proc/mounts. */
  datatype MountTable = MountTable(mps: seq<string>, ignored: seq<string>)

  /** Outcome of mounts_transform_path: refused, left alone because no mount point matches, or moved. */
  datatype Transformed = Refused | Unmapped | Mapped(path: string)

  // ---------------------------------------------------------------- the transformation

  /** mounts_ignore_path */
  predicate IgnorePath(m: MountTable, path: string) {
    "/tmp/namespace-" <= path || exists i :: 0 <= i < |m.ignored| && m.ignored[i] <= path
  }

  /** The last of the first n mount points that is a string prefix of the path. */
  function Match(m: MountTable, path: string, n: nat): (i: Option<nat>)
    requires n <= |m.mps|
    ensures i.Some? ==> i.value < n && m.mps[i.value] <= path
    ensures i.Some? ==> forall j :: i.value < j < n ==> !(m.mps[j] <= path)
    ensures i.None? ==> forall j :: 0 <= j < n ==> !(m.mps[j] <= path)
  {
    if n == 0 then None else if m.mps[n - 1] <= path then Some(n - 1) else Match(m, path, n - 1)
  }

  function Marker(name: string): string { INSERT + name }

  /** What the marker is put behind; nothing for the root mount point. */
  function Base(mp: string): string { if mp == "/" then "" else mp }

  function Rest(mp: string, path: string): string
    requires mp <= path
  {
    if mp == "/" then path else path[|mp|..]
  }

  /** mounts_transform_path */
  function Transform(m: MountTable, name: string, path: string): Transformed {
    var p := StackNormal(path);
    if IgnorePath(m, p) then Refused
    else
      match Match(m, p, |m.mps|)
      case None => Unmapped
      case Some(i) => Mapped(Base(m.mps[i]) + Marker(name) + Rest(m.mps[i], p))
  }

  // ---------------------------------------------------------------- which outcome

  /** A path is refused exactly if the namespace directory or an ignored mount point begins its normal form. */
  lemma RefusedExactly(m: MountTable, name: string, path: string)
    ensures var p, refused := StackNormal(path), Transform(m, name, path).Refused?;
            refused <==> "/tmp/namespace-" <= p || exists i :: 0 <= i < |m.ignored| && m.ignored[i] <= p
  {
    hide StackNormal;
  }

  /** Any other path is left alone exactly if no mount point begins its normal form. */
  lemma UnmappedExactly(m: MountTable, name: string, path: string)
    ensures var p, r := StackNormal(path), Transform(m, name, path);
            r.Unmapped? <==> !r.Refused? && forall i :: 0 <= i < |m.mps| ==> !(m.mps[i] <= p)
  {
    hide StackNormal, IgnorePath;
  }

  /** And it is moved below the last mount point that begins it; the root adds nothing to the replay root. */
  lemma MappedBelowLast(m: MountTable, name: string, path: string, i: nat)
    requires i < |m.mps| && m.mps[i] <= StackNormal(path)
    requires forall j :: i < j < |m.mps| ==> !(m.mps[j] <= StackNormal(path))
    requires !Transform(m, name, path).Refused?
    ensures var p, mp := StackNormal(path), m.mps[i];
            Transform(m, name, path) == Mapped(if mp == "/" then "/.ioriot/" + name + p
                                               else mp + "/.ioriot/" + name + p[|mp|..])
  {
    hide StackNormal, IgnorePath;
    var p, mp := StackNormal(path), m.mps[i];
    assert Match(m, p, |m.mps|) == Some(i);
    assert mp != "/" ==> mp + Marker(name) + p[|mp|..] == mp + "/.ioriot/" + name + p[|mp|..];
    assert "" + Marker(name) + p == "/.ioriot/" + name + p;
  }

  // ---------------------------------------------------------------- getting the path back

  /** The path without its first marker. */
  function Recover(name: string, path: string): Option<string> {
    match Find(path, Marker(name), 0)
    case None => None
    case Some(i) => Some(path[..i] + path[i + |Marker(name)|..])
  }

  /** No component of the mount point is ".ioriot". */
  predicate MarkerFree(mp: string) { !Contains(mp + "/", INSERT) }

  /** An occurrence of the marker that starts inside the mount point lies inside it. */
  lemma InsideMount(base: string, tail: string, i: nat)
    requires i < |base| && INSERT <= (base + INSERT + tail)[i..]
    ensures INSERT <= (base + "/")[i..]
  {
    var s := base + INSERT + tail;
    assert s[|base|] == '/';
    assert forall k :: 0 <= k < 9 ==> s[i..][k] == s[i + k] == INSERT[k];
    assert INSERT[1..8] == ".ioriot";
    assert forall k :: 1 <= k < 8 ==> INSERT[k] != '/';
    assert forall k :: 0 <= k <= |base| ==> (base + "/")[k] == s[k];
    assert forall k :: 0 <= k < 9 ==> (base + "/")[i..][k] == INSERT[k];
  }

  /** The first marker of a moved path is the one that was inserted. */
  lemma FirstMarker(base: string, name: string, rest: string)
    requires MarkerFree(base)
    ensures Find(base + Marker(name) + rest, Marker(name), 0) == Some(|base|)
  {
    hide Find, MarkerFree;
    var s := base + Marker(name) + rest;
    assert s[|base|..] == Marker(name) + rest;
    assert Marker(name) <= s[|base|..];
    forall i | 0 <= i < |base|
      ensures !(Marker(name) <= s[i..])
    {
      NotBefore(base, name, rest, i);
    }
  }

  lemma NotBefore(base: string, name: string, rest: string, i: nat)
    requires MarkerFree(base) && i < |base|
    ensures !(Marker(name) <= (base + Marker(name) + rest)[i..])
  {
    var s := base + Marker(name) + rest;
    if Marker(name) <= s[i..] {
      assert s == base + INSERT + (name + rest);
      assert INSERT <= s[i..];
      InsideMount(base, name + rest, i);
      assert false;
    }
  }

  lemma EmptyIsMarkerFree()
    ensures MarkerFree("")
  {
    var s := "" + "/";
    assert |s| == 1;
    assert forall i :: 0 <= i <= |s| ==> !(INSERT <= s[i..]);
  }

  lemma BaseIsMarkerFree(mp: string)
    requires MarkerFree(mp)
    ensures MarkerFree(Base(mp))
  {
    EmptyIsMarkerFree();
  }

  /** The first marker of a moved path recovers mount point and remainder, hence the normalised path. */
  lemma RecoverTransformed(m: MountTable, name: string, path: string)
    requires Transform(m, name, path).Mapped?
    requires forall i :: 0 <= i < |m.mps| ==> MarkerFree(m.mps[i])
    ensures Recover(name, Transform(m, name, path).path) == Some(StackNormal(path))
  {
    hide StackNormal, Find;
    var p := StackNormal(path);
    var mp := m.mps[Match(m, p, |m.mps|).value];
    var r := Transform(m, name, path).path;
    BaseIsMarkerFree(mp);
    FirstMarker(Base(mp), name, Rest(mp, p));
    assert r[..|Base(mp)|] == Base(mp);
    assert r[|Base(mp)| + |Marker(name)|..] == Rest(mp, p);
    assert Base(mp) + Rest(mp, p) == p;
  }

  /** Rewriting is injective: two paths that get the same replay path have the same normal form. */
  lemma TransformIsInjective(m: MountTable, name: string, a: string, b: string)
    requires forall i :: 0 <= i < |m.mps| ==> MarkerFree(m.mps[i])
    requires Transform(m, name, a).Mapped? && Transform(m, name, b) == Transform(m, name, a)
    ensures StackNormal(a) == StackNormal(b)
  {
    RecoverTransformed(m, name, a);
    RecoverTransformed(m, name, b);
  }

  /** Without that condition two different normalised paths can collide. */
  lemma NestedReplayRootCollides(m: MountTable, a: string, b: string)
    requires m == MountTable(["/", "/.ioriot/n/a"], [])
    requires a == "/a/.ioriot/n/x" && b == "/.ioriot/n/a/x"
    ensures a != b && StackNormal(a) == a && StackNormal(b) == b
    ensures Transform(m, "n", a).Mapped? && Transform(m, "n", a) == Transform(m, "n", b)
  {
    hide StackNormal, Transform, Match, Find;
    NoDots(a);
    NoDots(b);
    UnderRoot(m, a);
    UnderNested(m, b);
  }

  lemma UnderRoot(m: MountTable, a: string)
    requires m == MountTable(["/", "/.ioriot/n/a"], []) && a == "/a/.ioriot/n/x" && StackNormal(a) == a
    ensures Transform(m, "n", a) == Mapped("/.ioriot/n/a/.ioriot/n/x")
  {
    hide StackNormal, Transform, Match;
    Differ(m.mps[1], a, 1);
    Differ("/tmp/namespace-", a, 1);
    OnlyRootMatches(m, a);
    Moved(m, "n", a, 0);
    assert Base(m.mps[0]) + Marker("n") + Rest(m.mps[0], a) == "/.ioriot/n" + a;
  }

  lemma Differ(x: string, y: string, i: nat)
    requires i < |x| && i < |y| && x[i] != y[i]
    ensures !(x <= y)
  {
  }

  lemma UnderNested(m: MountTable, b: string)
    requires m == MountTable(["/", "/.ioriot/n/a"], []) && b == "/.ioriot/n/a/x" && StackNormal(b) == b
    ensures Transform(m, "n", b) == Mapped("/.ioriot/n/a/.ioriot/n/x")
  {
    hide StackNormal, Transform, Match;
    LastMatches(m, b, 1);
    Moved(m, "n", b, 1);
    assert Marker("n") == "/.ioriot/n";
    assert b[|m.mps[1]|..] == "/x";
  }

  lemma LastMatches(m: MountTable, path: string, i: nat)
    requires |m.mps| == i + 1 && m.mps[i] <= path
    ensures Match(m, path, |m.mps|) == Some(i)
  {
  }

  lemma OnlyRootMatches(m: MountTable, path: string)
    requires |m.mps| == 2 && m.mps[0] <= path && !(m.mps[1] <= path)
    ensures Match(m, path, |m.mps|) == Some(0)
  {
    assert Match(m, path, 1) == Some(0);
  }

  lemma Moved(m: MountTable, name: string, path: string, i: nat)
    requires StackNormal(path) == path && m.ignored == [] && !("/tmp/namespace-" <= path)
    requires Match(m, path, |m.mps|) == Some(i)
    ensures Transform(m, name, path) == Mapped(Base(m.mps[i]) + Marker(name) + Rest(m.mps[i], path))
  {
  }

  lemma NoDots(p: string)
    requires forall i :: 0 <= i < |p| - 1 ==> !(p[i] == '.' && p[i + 1] == '.') && !(p[i] == '/' && p[i + 1] == '/')
    ensures StackNormal(p) == p
  {
    forall i | 0 <= i <= |p|
      ensures !(".." <= p[i..]) && !("//" <= p[i..])
    {
      if |p[i..]| >= 2 {
        assert p[i..][0] == p[i] && p[i..][1] == p[i + 1];
      }
    }
  }
}
