/**
 Symbolic links across the two programs: the generator computes a relative target
 (mounts_transform_symlink_target), the initialiser resolves it again and checks that it stays
 inside the replay root (ensure_relative_symlink_exists).
 */
module Symlinks {
  import opened Seqs
  import opened Paths
  import opened Mounts

  // ---------------------------------------------------------------- dirname_r

  function StripSlashes(s: string): (t: string)
    ensures t <= s && (t == "" || t[|t| - 1] != '/')
  {
    if s == "" || s[|s| - 1] != '/' then s else StripSlashes(s[..|s| - 1])
  }

  function LastSlash(s: string): (i: Option<nat>)
    ensures i.Some? ==> i.value < |s| && s[i.value] == '/' && '/' !in s[i.value + 1..]
    ensures i.None? ==> '/' !in s
  {
    if s == "" then None
    else if s[|s| - 1] == '/' then Some(|s| - 1)
    else
      var i := LastSlash(s[..|s| - 1]);
      assert s == s[..|s| - 1] + [s[|s| - 1]];
      assert i.Some? ==> s[i.value + 1..] == s[..|s| - 1][i.value + 1..] + [s[|s| - 1]];
      i
  }

  /** dirname_r of a non-empty path. The parent of "/a" comes out empty. */
  function Dirname(path: string): string
    requires path != ""
  {
    if path == ".." || path == "/" then path
    else
      var stripped := StripSlashes(path);
      match LastSlash(stripped)
      case Some(i) => stripped[..i]
      case None => if stripped != path then stripped else "."
  }

  lemma {:induction false} LastSlashAfter(front: string, p: string)
    requires '/' !in p
    ensures LastSlash(front + "/" + p) == Some(|front|)
    decreases |p|
  {
    var s := front + "/" + p;
    if p == "" {
      assert s[|s| - 1] == '/';
    } else {
      assert s[|s| - 1] == p[|p| - 1];
      assert s[..|s| - 1] == front + "/" + p[..|p| - 1];
      LastSlashAfter(front, p[..|p| - 1]);
    }
  }

  lemma DirnameOfJoin(front: string, last: string)
    requires Part(last)
    ensures Dirname(front + "/" + last) == front
  {
    hide LastSlash;
    var s := front + "/" + last;
    assert s[|front|] == '/';
    assert s[|s| - 1] == last[|last| - 1] && last[|last| - 1] in last;
    LastSlashAfter(front, last);
    assert StripSlashes(s) == s;
  }

  function Slashes(n: nat): (s: string)
    ensures |s| == n && forall i :: 0 <= i < n ==> s[i] == '/'
  {
    seq(n, i => '/')
  }

  lemma {:induction false} StripsAll(stem: string, n: nat)
    requires stem == "" || stem[|stem| - 1] != '/'
    ensures StripSlashes(stem + Slashes(n)) == stem
    decreases n
  {
    var s := stem + Slashes(n);
    if n == 0 {
      assert s == stem;
    } else {
      assert s[|s| - 1] == '/';
      assert s[..|s| - 1] == stem + Slashes(n - 1);
      StripsAll(stem, n - 1);
    }
  }

  lemma NoSlash(last: string)
    requires '/' !in last
    ensures LastSlash(last).None?
  {
  }

  lemma DirnameBelow(front: string, last: string, n: nat)
    requires Part(last)
    ensures Dirname(front + "/" + last + Slashes(n)) == front
  {
    hide LastSlash, StripSlashes;
    var stem := front + "/" + last;
    var s := stem + Slashes(n);
    assert s[|front|] == '/' && |s| >= 2;
    assert stem[|stem| - 1] == last[|last| - 1] && last[|last| - 1] in last;
    StripsAll(stem, n);
    LastSlashAfter(front, last);
    assert stem[..|front|] == front;
  }

  lemma DirnameAlone(last: string, n: nat)
    requires Part(last)
    ensures Dirname(last + Slashes(n)) == if n > 0 then last else if last == ".." then ".." else "."
  {
    hide LastSlash, StripSlashes;
    var s := last + Slashes(n);
    assert last[|last| - 1] in last && s[0] == last[0] && last[0] in last;
    StripsAll(last, n);
    NoSlash(last);
    if n == 0 {
      assert s == last;
    } else {
      assert s[|s| - 1] == '/';
    }
  }

  lemma OnlySlashes(n: nat)
    requires n > 0
    ensures Dirname(Slashes(n)) == if n == 1 then "/" else ""
  {
    hide LastSlash, StripSlashes;
    assert "" + Slashes(n) == Slashes(n);
    StripsAll("", n);
    NoSlash("");
    assert Slashes(n)[0] == '/';
    assert n == 1 ==> Slashes(n) == "/";
  }

  /** What dirname_r makes of every non-empty string: by its last component, and by what surrounds it. */
  lemma DirnameOf(front: string, last: string, n: nat)
    requires Part(last)
    ensures Dirname(front + "/" + last + Slashes(n)) == front
    ensures Dirname(last + Slashes(n)) == if n > 0 then last else if last == ".." then ".." else "."
    ensures n > 0 ==> Dirname(Slashes(n)) == if n == 1 then "/" else ""
  {
    hide Dirname;
    DirnameBelow(front, last, n);
    DirnameAlone(last, n);
    if n > 0 {
      OnlySlashes(n);
    }
  }

  /** dirname_r drops the last component. */
  lemma DirnameOfAbs(parts: seq<string>)
    requires AllParts(parts) && parts != []
    ensures Dirname(Abs(parts)) == Abs(parts[..|parts| - 1])
  {
    hide Dirname, Abs;
    var front, last := parts[..|parts| - 1], parts[|parts| - 1];
    assert parts == front + [last];
    AbsSnoc(front, last);
    DirnameOfJoin(Abs(front), last);
  }

  // ---------------------------------------------------------------- _mounts_relative_path

  function Capped(toks: seq<string>): (r: seq<string>)
    ensures |r| <= PARTS
  {
    if |toks| > PARTS then toks[..PARTS] else toks
  }

  /** The length of the longest common prefix. */
  function Common(a: seq<string>, b: seq<string>): (n: nat)
    ensures n <= |a| && n <= |b| && a[..n] == b[..n]
    ensures n < |a| && n < |b| ==> a[n] != b[n]
  {
    if a == [] || b == [] || a[0] != b[0] then 0
    else
      var n := 1 + Common(a[1..], b[1..]);
      assert a[..n] == [a[0]] + a[1..][..n - 1] && b[..n] == [b[0]] + b[1..][..n - 1];
      n
  }

  function Ups(n: nat): string { if n == 0 then "" else "../" + Ups(n - 1) }

  function Relative(fromDir: string, toPath: string): string {
    var from, to := Capped(Tokens(fromDir)), Capped(Tokens(toPath));
    var c := Common(from, to);
    if c == |from| && c == |to| then "." else Ups(|from| - c) + Rel(to[c..])
  }

  function Dots(n: nat): (r: seq<string>)
    ensures |r| == n && forall i :: 0 <= i < n ==> r[i] == ".."
  {
    seq(n, i => "..")
  }

  lemma {:induction false} TokensOfUps(n: nat, rest: string)
    ensures Tokens(Ups(n) + rest) == Dots(n) + Tokens(rest)
  {
    hide Tokens;
    if n == 0 {
      assert Ups(n) + rest == rest;
    } else {
      assert Ups(n) + rest == ".." + ("/" + (Ups(n - 1) + rest));
      TokensOfPart("..", "/" + (Ups(n - 1) + rest));
      TokensSlash(Ups(n - 1) + rest);
      TokensOfUps(n - 1, rest);
      assert Dots(n) == [".."] + Dots(n - 1);
    }
  }

  lemma {:induction false} ResolveDots(parts: seq<string>, n: nat, cap: nat)
    requires n <= |parts| < cap
    ensures Resolve(parts, Dots(n), cap) == parts[..|parts| - n]
    decreases n
  {
    if n == 0 {
      assert parts[..|parts|] == parts;
    } else {
      assert Dots(n)[1..] == Dots(n - 1);
      ResolveDots(parts[..|parts| - 1], n - 1, cap);
      assert parts[..|parts| - 1][..|parts| - n] == parts[..|parts| - n];
    }
  }

  lemma RelativeOfAbs(f: seq<string>, t: seq<string>)
    requires Clean(f) && Clean(t) && |f| <= PARTS && |t| <= PARTS
    ensures var c := Common(f, t);
            Relative(Abs(f), Abs(t)) == if c == |f| && c == |t| then "." else Ups(|f| - c) + Rel(t[c..])
  {
    hide Tokens, Abs, Rel, Ups, Common;
    TokensOfAbs(f);
    TokensOfAbs(t);
  }

  lemma {:induction false} CommonOfJoin(c: seq<string>, f: seq<string>, t: seq<string>)
    requires f == [] || t == [] || f[0] != t[0]
    ensures Common(c + f, c + t) == |c|
    decreases |c|
  {
    if c == [] {
      assert c + f == f && c + t == t;
    } else {
      assert (c + f)[1..] == c[1..] + f && (c + t)[1..] == c[1..] + t;
      CommonOfJoin(c[1..], f, t);
    }
  }

  /** The relative path goes up once for each component of the directory that the target does not share, not further. */
  lemma RelativeIsShort(c: seq<string>, f: seq<string>, t: seq<string>)
    requires Clean(c + f) && Clean(c + t) && |c + f| <= PARTS && |c + t| <= PARTS
    requires f == [] || t == [] || f[0] != t[0]
    ensures Relative(Abs(c + f), Abs(c + t)) == if f == [] && t == [] then "." else Ups(|f|) + Rel(t)
  {
    hide Abs, Rel, Ups, Common, Relative, Clean;
    RelativeOfAbs(c + f, c + t);
    CommonOfJoin(c, f, t);
    assert (c + t)[|c|..] == t;
  }

  lemma RelativeTokens(f: seq<string>, t: seq<string>)
    requires Clean(f) && Clean(t) && |f| <= PARTS && |t| <= PARTS
    ensures var c := Common(f, t);
            Tokens(Relative(Abs(f), Abs(t))) == if c == |f| && c == |t| then ["."] else Dots(|f| - c) + t[c..]
  {
    hide Tokens, Abs, Rel, Ups, Common, Relative, Part;
    RelativeOfAbs(f, t);
    var c := Common(f, t);
    if c == |f| && c == |t| {
      SpecialTokens();
    } else {
      TokensOfUps(|f| - c, Rel(t[c..]));
      TokensOfRel(t[c..]);
    }
  }

  /** The computed target is relative and not empty. */
  lemma RelativeIsRelative(f: seq<string>, t: seq<string>)
    requires Clean(f) && Clean(t) && |f| <= PARTS && |t| <= PARTS
    ensures Relative(Abs(f), Abs(t)) != "" && Relative(Abs(f), Abs(t))[0] != '/'
  {
    hide Tokens, Abs;
    TokensOfAbs(f);
    TokensOfAbs(t);
    var c := Common(f, t);
    if c == |f| && c < |t| {
      assert Rel(t[c..])[0] == t[c][0];
    }
  }

  /** Going up from f to the common prefix and down again gives t. */
  lemma UpAndDown(f: seq<string>, t: seq<string>, c: nat)
    requires Clean(f) && Clean(t) && |f| < PARTS && |t| <= PARTS
    requires c <= |f| && c <= |t| && f[..c] == t[..c]
    ensures Resolve(f, Dots(|f| - c) + t[c..], PARTS) == t
  {
    hide Resolve, Clean, Dots;
    ResolveConcat(f, Dots(|f| - c), t[c..], PARTS);
    ResolveDots(f, |f| - c, PARTS);
    assert f[..|f| - (|f| - c)] == f[..c];
    assert f[..c] + t[c..] == t;
    SuffixClean(f[..c], t[c..]);
    ResolveClean(f[..c], t[c..], PARTS);
  }

  lemma StayHere(f: seq<string>)
    requires |f| < PARTS
    ensures Resolve(f, ["."], PARTS) == f
  {
    assert Resolve(f, ["."], PARTS) == Resolve(f, [], PARTS);
  }

  /** Resolving the components of the directory and then those of the relative target ends at the target. */
  lemma WalkArrives(f: seq<string>, t: seq<string>)
    requires Clean(f) && Clean(t) && |f| < PARTS && |t| <= PARTS
    ensures Resolve([], f + Tokens(Relative(Abs(f), Abs(t))), PARTS) == t
  {
    hide Tokens, Abs, Resolve, Relative, Clean, Dots;
    var rel := Relative(Abs(f), Abs(t));
    var c := Common(f, t);
    RelativeTokens(f, t);
    ResolveConcat([], f, Tokens(rel), PARTS);
    ResolveClean([], f, PARTS);
    assert [] + f == f;
    if c == |f| && c == |t| {
      assert f == f[..c] == t[..c] == t;
      StayHere(f);
    } else {
      UpAndDown(f, t, c);
    }
  }

  /** Following the relative target from the link's directory leads to the target. */
  lemma RelativeResolves(f: seq<string>, t: seq<string>)
    requires Clean(f) && Clean(t) && |f| < PARTS && |t| <= PARTS && t != []
    ensures ArrayNormal(Abs(f) + "/" + Relative(Abs(f), Abs(t))) == Abs(t)
  {
    hide Tokens, Abs, Resolve, Relative, Clean;
    var rel := Relative(Abs(f), Abs(t));
    TokensJoin(Abs(f), rel);
    CleanAreParts(f);
    TokensOfAbs(f);
    WalkArrives(f, t);
    assert Collected(Abs(f) + "/" + rel) == t;
    StartsWithSlash(f, rel);
  }

  lemma StartsWithSlash(f: seq<string>, rest: string)
    ensures (Abs(f) + "/" + rest)[0] == '/'
  {
  }

  // ---------------------------------------------------------------- generator and initialiser

  /** _mounts_replay_root_from_transformed */
  function RootOf(path: string, name: string): Option<string> {
    match Find(path, Marker(name), 0)
    case None => None
    case Some(i) => Some(path[..i + |Marker(name)|])
  }

  /** The captured target as an absolute path. */
  function TargetPath(link: string, target: string): string
    requires link != ""
  {
    if target != "" && target[0] == '/' then StackNormal(target) else StackNormal(Dirname(link) + "/" + target)
  }

  /** mounts_transform_symlink_target; None where it refuses, or where no mount point matches the target. */
  function SymlinkTarget(m: MountTable, name: string, link: string, linkR: string, target: string): Option<string>
    requires link != "" && linkR != ""
  {
    match Transform(m, name, TargetPath(link, target))
    case Refused => None
    case Unmapped => None
    case Mapped(targetR) =>
      if RootOf(linkR, name).None? || RootOf(linkR, name) != RootOf(targetR, name) then None
      else Some(Relative(Dirname(linkR), targetR))
  }

  /** _replay_root_from_path */
  function ReplayRoot(path: string): Option<string> {
    match Find(path, INSERT, 0)
    case None => None
    case Some(i) =>
      match Find(path, "/", i + |INSERT|)
      case None => None
      case Some(j) => Some(path[..j])
  }

  /** _path_within_dir */
  predicate Within(path: string, dir: string) { dir <= path && (|path| == |dir| || path[|dir|] == '/') }

  /** The checks of ensure_relative_symlink_exists before it creates the link. */
  predicate InitAccepts(path: string, target: string)
    requires path != ""
  {
    && target != "" && target[0] != '/'
    && ReplayRoot(path).Some?
    && Within(ArrayNormal(Dirname(path) + "/" + target), ReplayRoot(path).value)
  }

  // ---------------------------------------------------------------- where a moved path lies

  /** An absolute path without "." and ".." components and without superfluous slashes. */
  predicate IsClean(path: string) { path != "" && path == Abs(Tokens(path)) && Clean(Tokens(path)) }

  predicate GoodMount(mp: string) { (mp == "/" || IsClean(mp)) && MarkerFree(mp) }

  /** The mount point ends where a component of the path ends. */
  predicate Aligned(mp: string, path: string) {
    mp == "/" || (mp <= path && (|path| == |mp| || path[|mp|] == '/'))
  }

  /** The components of a moved path: mount point, ".ioriot", name, remainder. */
  function MovedParts(mp: string, name: string, path: string): seq<string>
    requires mp <= path
  {
    Tokens(Base(mp)) + [".ioriot", name] + Tokens(Rest(mp, path))
  }

  lemma BaseOf(mp: string)
    requires mp == "/" || IsClean(mp)
    ensures Base(mp) == Abs(Tokens(Base(mp))) && Clean(Tokens(Base(mp)))
  {
  }

  lemma RestOf(mp: string, path: string)
    requires (mp == "/" || IsClean(mp)) && IsClean(path) && mp <= path && Aligned(mp, path)
    ensures Rest(mp, path) == Abs(Tokens(Rest(mp, path))) && Clean(Tokens(Rest(mp, path)))
  {
    hide Tokens, Abs;
    if mp != "/" {
      var rest := path[|mp|..];
      assert path == mp + rest;
      if rest == "" {
        NothingLeft();
      } else {
        var tail := rest[1..];
        assert rest == "/" + tail && path == mp + "/" + tail;
        TokensJoin(mp, tail);
        TokensSlash(tail);
        AbsConcat(Tokens(mp), Tokens(tail));
        assert mp + rest == mp + Abs(Tokens(tail));
        assert (mp + rest)[|mp|..] == rest;
        assert (mp + Abs(Tokens(tail)))[|mp|..] == Abs(Tokens(tail));
        assert Clean(Tokens(mp) + Tokens(tail));
        SuffixClean(Tokens(mp), Tokens(tail));
      }
    }
  }

  lemma NothingLeft()
    ensures Tokens("") == [] && Abs([]) == ""
  {
  }

  lemma SuffixClean(a: seq<string>, b: seq<string>)
    requires Clean(a + b)
    ensures Clean(b)
  {
    forall i | 0 <= i < |b|
      ensures Part(b[i]) && b[i] != "." && b[i] != ".."
    {
      assert (a + b)[|a| + i] == b[i];
    }
  }

  lemma MarkerIsTwoParts(name: string)
    ensures Abs([".ioriot", name]) == Marker(name)
  {
    var parts := [".ioriot", name];
    assert parts[1..] == [name] && [name][1..] == [];
    assert Abs([name]) == "/" + name;
  }

  /** A moved path is the clean path of its components. */
  lemma MovedIsClean(mp: string, name: string, path: string)
    requires (mp == "/" || IsClean(mp)) && IsClean(path) && mp <= path && Aligned(mp, path) && Clean([name])
    ensures Clean(MovedParts(mp, name, path))
    ensures Base(mp) + Marker(name) + Rest(mp, path) == Abs(MovedParts(mp, name, path))
  {
    hide Tokens, Abs;
    BaseOf(mp);
    RestOf(mp, path);
    var b, x := Tokens(Base(mp)), Tokens(Rest(mp, path));
    MarkerIsTwoParts(name);
    AbsConcat(b, [".ioriot", name]);
    AbsConcat(b + [".ioriot", name], x);
    assert Clean([".ioriot", name]) by {
      assert [name][0] == name;
    }
  }

  // ---------------------------------------------------------------- the two programs agree

  lemma RootOfMoved(base: string, name: string, rest: string)
    requires MarkerFree(base)
    ensures RootOf(base + Marker(name) + rest, name) == Some(base + Marker(name))
  {
    hide Find;
    FirstMarker(base, name, rest);
    assert (base + Marker(name) + rest)[..|base| + |Marker(name)|] == base + Marker(name);
  }

  /** The initialiser finds the same replay root, unless nothing follows it. */
  lemma ReplayRootOfMoved(base: string, name: string, rest: string)
    requires MarkerFree(base) && Part(name) && (rest == "" || rest[0] == '/')
    ensures ReplayRoot(base + Marker(name) + rest) == if rest == "" then None else Some(base + Marker(name))
  {
    hide Find;
    var s := base + Marker(name) + rest;
    FirstMarker(base, "", name + rest);
    assert Marker("") == INSERT;
    assert s == base + Marker("") + (name + rest);
    var from := |base| + |INSERT|;
    assert s[from..] == name + rest;
    SlashAfterName(s, from, name, rest);
    assert from + |name| == |base| + |Marker(name)|;
    assert rest != "" ==> s[..from + |name|] == base + Marker(name);
  }

  lemma SlashAfterName(s: string, from: nat, name: string, rest: string)
    requires from <= |s| && s[from..] == name + rest && Part(name) && (rest == "" || rest[0] == '/')
    ensures Find(s, "/", from) == if rest == "" then None else Some(from + |name|)
  {
    hide Find;
    var at := Find(s, "/", from);
    forall i | from <= i < |s|
      ensures "/" <= s[i..] <==> (name + rest)[i - from] == '/'
    {
      assert s[i..][0] == s[i] == s[from..][i - from];
    }
    assert forall k :: 0 <= k < |name| ==> (name + rest)[k] == name[k] && name[k] in name;
    assert |s| == from + |name| + |rest|;
    assert rest != "" ==> (name + rest)[|name|] == '/' && "/" <= s[from + |name|..];
    assert at.Some? ==> at.value < |s| && (name + rest)[at.value - from] == '/';
  }

  /** The mount point that mounts_transform_path picks. */
  function MountOf(m: MountTable, path: string): string
    requires Match(m, path, |m.mps|).Some?
  {
    m.mps[Match(m, path, |m.mps|).value]
  }

  /** The path is clean, lies on a mount point component by component, and is moved to `moved`. */
  ghost predicate Moves(m: MountTable, name: string, path: string, moved: string) {
    && IsClean(path) && Match(m, path, |m.mps|).Some? && Aligned(MountOf(m, path), path)
    && Transform(m, name, path) == Mapped(moved)
  }

  ghost predicate GoodTable(m: MountTable) { forall i :: 0 <= i < |m.mps| ==> GoodMount(m.mps[i]) }

  lemma CleanPathIsNormal(path: string)
    requires IsClean(path)
    ensures StackNormal(path) == path
  {
    hide StackNormal;
    NothingLeft();
    CleanIsNormal(Tokens(path));
  }

  lemma MovedForm(m: MountTable, name: string, path: string, moved: string)
    requires GoodTable(m) && Clean([name]) && Moves(m, name, path, moved)
    ensures var mp := MountOf(m, path);
            && moved == Base(mp) + Marker(name) + Rest(mp, path)
            && moved == Abs(MovedParts(mp, name, path)) && Clean(MovedParts(mp, name, path))
            && MarkerFree(Base(mp)) && (Rest(mp, path) == "" || Rest(mp, path)[0] == '/')
  {
    hide StackNormal, Tokens, Abs, Match, Find;
    var mp := MountOf(m, path);
    CleanPathIsNormal(path);
    MovedIsClean(mp, name, path);
    BaseIsMarkerFree(mp);
    StartsAtSlash(mp, path);
  }

  lemma StartsAtSlash(mp: string, path: string)
    requires IsClean(path) && mp <= path && Aligned(mp, path)
    ensures Rest(mp, path) == "" || Rest(mp, path)[0] == '/'
  {
  }

  /** With the root as the only mount point every clean path is moved, unless it is ignored. */
  lemma RootMovesEverything(m: MountTable, name: string, parts: seq<string>)
    requires m.mps == ["/"] && Clean([name]) && Clean(parts) && parts != []
    ensures GoodTable(m)
    ensures IgnorePath(m, Abs(parts)) || Moves(m, name, Abs(parts), Marker(name) + Abs(parts))
  {
    hide Tokens, StackNormal, Abs, Find;
    var path := Abs(parts);
    TokensOfAbs(parts);
    CleanPathIsNormal(path);
    SlashIsMarkerFree();
    assert Match(m, path, |m.mps|) == Some(0);
    assert Base("/") + Marker(name) + Rest("/", path) == Marker(name) + path;
  }

  lemma SlashIsMarkerFree()
    ensures MarkerFree("/")
  {
    var s := "/" + "/";
    assert |s| == 2;
    assert forall i :: 0 <= i <= |s| ==> !(INSERT <= s[i..]);
  }

  /**
   The generator accepts a target exactly if it is moved below the replay root of the link, and
   then makes it relative.
   */
  lemma AcceptedAt(m: MountTable, name: string, link: string, linkR: string, target: string, targetR: string)
    requires GoodTable(m) && Clean([name]) && link != "" && linkR != "" && Moves(m, name, link, linkR)
    requires Moves(m, name, TargetPath(link, target), targetR)
    ensures SymlinkTarget(m, name, link, linkR, target)
              == if Base(MountOf(m, link)) == Base(MountOf(m, TargetPath(link, target)))
                 then Some(Relative(Dirname(linkR), targetR)) else None
  {
    hide StackNormal, Tokens, Abs, Match, Find, TargetPath, Dirname, Relative;
    var target1 := TargetPath(link, target);
    var a, b := Base(MountOf(m, link)), Base(MountOf(m, target1));
    MovedForm(m, name, link, linkR);
    MovedForm(m, name, target1, targetR);
    RootOfMoved(a, name, Rest(MountOf(m, link), link));
    RootOfMoved(b, name, Rest(MountOf(m, target1), target1));
    SameSuffix(a, b, Marker(name));
  }

  lemma SameSuffix(a: string, b: string, tail: string)
    ensures a + tail == b + tail <==> a == b
  {
    if a + tail == b + tail {
      assert a == (a + tail)[..|a|] && b == (b + tail)[..|a|];
    }
  }

  /**
   Following the relative target of an accepted link from the directory of the moved link leads
   to the moved target, and the initialiser accepts the link exactly when it is not a mount
   point itself.
   */
  lemma SurvivesAt(m: MountTable, name: string, link: string, linkR: string, target: string, targetR: string)
    requires GoodTable(m) && Clean([name]) && link != "" && linkR != "" && Moves(m, name, link, linkR)
    requires Moves(m, name, TargetPath(link, target), targetR)
    requires |Tokens(linkR)| <= PARTS && |Tokens(targetR)| <= PARTS
    requires Base(MountOf(m, link)) == Base(MountOf(m, TargetPath(link, target)))
    ensures SymlinkTarget(m, name, link, linkR, target).Some?
    ensures var rel := SymlinkTarget(m, name, link, linkR, target).value;
            && ArrayNormal(Dirname(linkR) + "/" + rel) == targetR
            && (InitAccepts(linkR, rel) <==> Rest(MountOf(m, link), link) != "")
  {
    hide StackNormal, Tokens, Abs, Match, Find, TargetPath, Dirname, Relative, ArrayNormal, RootOf, ReplayRoot,
      SymlinkTarget;
    var target1 := TargetPath(link, target);
    var mp, mp1 := MountOf(m, link), MountOf(m, target1);
    AcceptedAt(m, name, link, linkR, target, targetR);
    MovedForm(m, name, link, linkR);
    MovedForm(m, name, target1, targetR);
    var from, to := MovedParts(mp, name, link), MovedParts(mp1, name, target1);
    LinkResolves(from, to, linkR, targetR);
    assert Part(name) by {
      assert [name][0] == name;
    }
    ReplayRootOfMoved(Base(mp), name, Rest(mp, link));
    InsideRoot(Base(mp) + Marker(name), Rest(mp1, target1), targetR);
  }

  lemma InsideRoot(root: string, rest: string, path: string)
    requires path == root + rest && (rest == "" || rest[0] == '/')
    ensures Within(path, root)
  {
  }

  lemma LinkResolves(from: seq<string>, to: seq<string>, linkR: string, targetR: string)
    requires Clean(from) && Clean(to) && from != [] && to != [] && linkR == Abs(from) && targetR == Abs(to)
    requires |Tokens(linkR)| <= PARTS && |Tokens(targetR)| <= PARTS
    ensures ArrayNormal(Dirname(linkR) + "/" + Relative(Dirname(linkR), targetR)) == targetR
    ensures var rel := Relative(Dirname(linkR), targetR); rel != "" && rel[0] != '/'
  {
    hide Tokens, Abs, Dirname, Relative, ArrayNormal;
    TokensOfAbs(from);
    TokensOfAbs(to);
    DirnameOfAbs(from);
    RelativeResolves(from[..|from| - 1], to);
    RelativeIsRelative(from[..|from| - 1], to);
  }

  // ---------------------------------------------------------------- a link the two programs disagree on

  lemma BelowMount(m: MountTable, name: string, parts: seq<string>, more: seq<string>)
    requires m == MountTable([Abs(parts)], []) && Clean([name]) && Clean(parts + more) && parts != []
    requires !("/tmp/namespace-" <= Abs(parts + more)) && Abs(parts) != "/"
    ensures Moves(m, name, Abs(parts + more), Abs(parts) + Marker(name) + Abs(more))
    ensures MountOf(m, Abs(parts + more)) == Abs(parts) && Rest(Abs(parts), Abs(parts + more)) == Abs(more)
  {
    hide Tokens, StackNormal, Abs, Find;
    var path := Abs(parts + more);
    AbsConcat(parts, more);
    TokensOfAbs(parts + more);
    CleanPathIsNormal(path);
    StartsWithSlashOrEnds(more);
    assert Match(m, path, |m.mps|) == Some(0);
    assert path[|Abs(parts)|..] == Abs(more);
  }

  lemma StartsWithSlashOrEnds(parts: seq<string>)
    ensures Abs(parts) == "" || Abs(parts)[0] == '/'
  {
  }

  lemma ShortIsMarkerFree(mp: string)
    requires |mp| < 8
    ensures MarkerFree(mp)
  {
    var s := mp + "/";
    assert |s| < |INSERT|;
    assert forall i :: 0 <= i <= |s| ==> !(INSERT <= s[i..]);
  }

  /** The two paths of the example, component by component. */
  lemma ExamplePaths()
    ensures Abs(["a"]) == "/a" && Abs(["a"] + ["b"]) == "/a/b" && Abs(["b"]) == "/b" && Abs([]) == ""
    ensures Clean(["a"]) && Clean(["a"] + ["b"]) && Clean(["n"])
  {
    assert ["a"][1..] == [] && ["b"][1..] == [] && (["a"] + ["b"])[1..] == ["b"];
  }

  lemma ExampleMoves(m: MountTable)
    requires m == MountTable(["/a"], [])
    ensures GoodTable(m) && Moves(m, "n", "/a", "/a/.ioriot/n") && Moves(m, "n", "/a/b", "/a/.ioriot/n/b")
    ensures MountOf(m, "/a") == "/a" && MountOf(m, "/a/b") == "/a" && Rest("/a", "/a") == ""
    ensures TargetPath("/a", "/a/b") == "/a/b"
  {
    hide Tokens, StackNormal, Abs, Match, Find, Moves, Clean, MarkerFree, MountOf;
    ExamplePaths();
    assert ["a"] + [] == ["a"];
    BelowMount(m, "n", ["a"], []);
    BelowMount(m, "n", ["a"], ["b"]);
    assert "/a" + Marker("n") + "" == "/a/.ioriot/n" && "/a" + Marker("n") + "/b" == "/a/.ioriot/n/b";
    ShortIsMarkerFree("/a");
    CleanAbs(["a"]);
    CleanAbs(["a"] + ["b"]);
    CleanPathIsNormal("/a/b");
  }

  /**
   The link "/a" is the mount point "/a": the generator accepts its target "/a/b", the
   initialiser refuses the link.
   */
  lemma MountPointLinkRefused()
    ensures var rel := SymlinkTarget(MountTable(["/a"], []), "n", "/a", "/a/.ioriot/n", "/a/b");
            rel.Some? && !InitAccepts("/a/.ioriot/n", rel.value)
  {
    hide Tokens, StackNormal, Abs, Match, Find, SymlinkTarget, InitAccepts, Moves, GoodTable, TargetPath, MountOf,
      Clean;
    ExamplePaths();
    ExampleMoves(MountTable(["/a"], []));
    FewTokens("/a/.ioriot/n");
    FewTokens("/a/.ioriot/n/b");
    SurvivesAt(MountTable(["/a"], []), "n", "/a", "/a/.ioriot/n", "/a/b", "/a/.ioriot/n/b");
  }

  lemma CleanAbs(parts: seq<string>)
    requires Clean(parts) && parts != []
    ensures IsClean(Abs(parts))
  {
    TokensOfAbs(parts);
  }

  /** A string has no more tokens than characters. */
  lemma {:induction false} FewTokens(s: string)
    ensures |Tokens(s)| <= |s|
    decreases |s|
  {
    if s == "" {
    } else if s[0] == '/' {
      FewTokens(s[1..]);
    } else {
      FewTokens(s[Run(s)..]);
    }
  }
}
