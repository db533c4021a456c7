/**
 The loops of mounts.c and utils/futils.c that build path strings, against the functions of
 Paths, Mounts and Symlinks. strtok_r is the function Tokens.
 */
module PathLoops {
  import opened Seqs
  import opened Paths
  import opened Mounts
  import opened Symlinks

  function Reverse(s: seq<string>): (r: seq<string>)
    ensures |r| == |s|
  {
    if s == [] then [] else [s[|s| - 1]] + Reverse(s[..|s| - 1])
  }

  lemma PushStep(parts: seq<string>, toks: seq<string>, i: nat, cap: nat)
    requires i < |toks| && |parts| < cap
    ensures Resolve(parts, toks[i..], cap) == Resolve(Push(parts, toks[i]), toks[i + 1..], cap)
  {
    assert toks[i..][1..] == toks[i + 1..];
  }

  /** _mounts_normalize_path: push onto a stack, reverse it, and pop the components off. */
  method NormalizeWithStack(path: string) returns (normal: string)
    ensures normal == StackNormal(path)
  {
    if !Tokenised(path) {
      return path;
    }
    var toks := Tokens(path);
    var stack: seq<string> := [];
    assert toks[0..] == toks;
    for i := 0 to |toks|
      invariant |stack| <= i && Resolve(stack, toks[i..], |toks|) == Stacked(path)
    {
      PushStep(stack, toks, i, |toks|);
      if toks[i] == ".." {
        if stack != [] {
          stack := stack[..|stack| - 1];
        }
      } else if toks[i] != "." {
        stack := stack + [toks[i]];
      }
    }
    assert stack == Stacked(path);
    if stack == [] {
      return ".";
    }
    normal := PopAll(stack);
  }

  method PopAll(parts: seq<string>) returns (s: string)
    ensures s == Abs(parts)
  {
    var stack, reversed: seq<string> := parts, [];
    while stack != []
      invariant stack + Reverse(reversed) == parts
      decreases |stack|
    {
      var top := stack[|stack| - 1];
      assert (reversed + [top])[..|reversed|] == reversed;
      assert stack == stack[..|stack| - 1] + [top];
      reversed, stack := reversed + [top], stack[..|stack| - 1];
    }
    s := "";
    assert Reverse(reversed) == parts && "" + Abs(parts) == Abs(parts);
    while reversed != []
      invariant s + Abs(Reverse(reversed)) == Abs(parts)
      decreases |reversed|
    {
      var top := reversed[|reversed| - 1];
      ghost var rest := Reverse(reversed[..|reversed| - 1]);
      assert Reverse(reversed) == [top] + rest && ([top] + rest)[1..] == rest;
      assert s + ("/" + top + Abs(rest)) == (s + "/" + top) + Abs(rest);
      s := s + "/" + top;
      reversed := reversed[..|reversed| - 1];
    }
    assert s + "" == s;
  }

  /** Appending a component, with a slash unless the string is empty or ends in one. */
  method AppendPart(s: string, part: string) returns (r: string)
    ensures r == if s != "" && s[|s| - 1] != '/' then s + "/" + part else s + part
  {
    r := s;
    if |r| > 0 && r[|r| - 1] != '/' {
      r := r + "/";
    }
    r := r + part;
  }

  lemma RelSnoc(front: seq<string>, last: string)
    requires front != []
    ensures Rel(front + [last]) == Rel(front) + "/" + last
  {
    AbsSnoc(front[1..], last);
    assert (front + [last])[1..] == front[1..] + [last];
  }

  lemma EndsInPart(parts: seq<string>)
    requires AllParts(parts) && parts != []
    ensures Abs(parts) != "" && Abs(parts)[|Abs(parts)| - 1] != '/'
    ensures Rel(parts) != "" && Rel(parts)[|Rel(parts)| - 1] != '/'
  {
    var front, last := parts[..|parts| - 1], parts[|parts| - 1];
    assert parts == front + [last];
    AbsSnoc(front, last);
    assert last[|last| - 1] in last;
    if front == [] {
      assert Rel(parts) == last + "";
    } else {
      RelSnoc(front, last);
    }
  }

  /** What is in the buffer after some components. */
  function Built(absolute: bool, parts: seq<string>): string {
    if absolute then if parts == [] then "/" else Abs(parts) else Rel(parts)
  }

  lemma BuiltSnoc(absolute: bool, front: seq<string>, part: string)
    requires AllParts(front + [part])
    ensures var s := Built(absolute, front);
            Built(absolute, front + [part]) == if s != "" && s[|s| - 1] != '/' then s + "/" + part else s + part
  {
    AbsSnoc(front, part);
    if front == [] {
      assert Built(absolute, [part]) == (if absolute then "/" else "") + part + "";
    } else {
      assert forall i :: 0 <= i < |front| ==> front[i] == (front + [part])[i];
      EndsInPart(front);
      RelSnoc(front, part);
    }
  }

  /** _normalize_path: collect components in a fixed array with a moving count. */
  method NormalizeWithArray(path: string) returns (normal: string)
    ensures normal == ArrayNormal(path)
  {
    var toks := Tokens(path);
    var parts := new string[PARTS];
    var count, i := 0, 0;
    assert toks[0..] == toks && parts[..0] == [];
    while i < |toks| && count < PARTS
      invariant 0 <= i <= |toks| && 0 <= count <= PARTS
      invariant Resolve(parts[..count], toks[i..], PARTS) == Collected(path)
    {
      PushStep(parts[..count], toks, i, PARTS);
      if toks[i] == ".." {
        if count > 0 {
          assert parts[..count][..count - 1] == parts[..count - 1];
          count := count - 1;
        }
      } else if toks[i] != "." {
        parts[count] := toks[i];
        assert parts[..count + 1] == parts[..count] + [toks[i]];
        count := count + 1;
      }
      i := i + 1;
    }
    assert parts[..count] == Collected(path);
    normal := BuildString(path != "" && path[0] == '/', parts[..count]);
  }

  lemma BuiltEmpty(absolute: bool, parts: seq<string>)
    requires AllParts(parts)
    ensures Built(absolute, []) == if absolute then "/" else ""
    ensures Built(absolute, parts) == "" <==> parts == [] && !absolute
  {
  }

  method BuildString(absolute: bool, parts: seq<string>) returns (s: string)
    requires AllParts(parts)
    ensures s == if parts == [] && !absolute then "." else Built(absolute, parts)
  {
    hide Built, Part;
    BuiltEmpty(absolute, parts);
    s := if absolute then "/" else "";
    for i := 0 to |parts|
      invariant s == Built(absolute, parts[..i])
    {
      assert parts[..i + 1] == parts[..i] + [parts[i]];
      BuiltSnoc(absolute, parts[..i], parts[i]);
      s := AppendPart(s, parts[i]);
    }
    assert parts[..|parts|] == parts;
    if |s| == 0 {
      s := ".";
    }
  }

  // ---------------------------------------------------------------- _mounts_relative_path

  lemma UpsSnoc(n: nat)
    ensures Ups(n + 1) == Ups(n) + "../"
  {
    if n > 0 {
      UpsSnoc(n - 1);
    }
  }

  method GoUp(n: nat) returns (r: string)
    ensures r == Ups(n)
  {
    r := "";
    for i := 0 to n
      invariant r == Ups(i)
    {
      UpsSnoc(i);
      r := r + "../";
    }
  }

  method RelativePath(fromDir: string, toPath: string) returns (r: string)
    ensures r == Relative(fromDir, toPath)
  {
    hide Tokens, Rel, Abs, Ups, Common;
    var from, to := Capped(Tokens(fromDir)), Capped(Tokens(toPath));
    var common := 0;
    while common < |from| && common < |to| && from[common] == to[common]
      invariant common <= |from| && common <= |to|
      invariant from[..common] == to[..common]
    {
      common := common + 1;
    }
    OneCommon(from, to, common);
    if common == |from| && common == |to| {
      return ".";
    }
    r := GoUp(|from| - common);
    r := AppendAll(r, |from| - common, to[common..]);
  }

  lemma OneCommon(a: seq<string>, b: seq<string>, n: nat)
    requires n <= |a| && n <= |b| && a[..n] == b[..n] && (n < |a| && n < |b| ==> a[n] != b[n])
    ensures Common(a, b) == n
  {
    var c := Common(a, b);
    assert forall k :: 0 <= k < n ==> a[k] == a[..n][k] && b[k] == b[..n][k];
    assert forall k :: 0 <= k < c ==> a[k] == a[..c][k] && b[k] == b[..c][k];
  }

  lemma UpsEnd(n: nat)
    requires n > 0
    ensures Ups(n)[|Ups(n)| - 1] == '/'
  {
    UpsSnoc(n - 1);
  }

  method AppendAll(start: string, n: nat, parts: seq<string>) returns (r: string)
    requires start == Ups(n) && AllParts(parts)
    ensures r == Ups(n) + Rel(parts)
  {
    r := start;
    assert Rel([]) == "" && start + "" == start;
    for i := 0 to |parts|
      invariant r == Ups(n) + Rel(parts[..i])
    {
      assert parts[..i + 1] == parts[..i] + [parts[i]];
      NextPart(n, parts[..i], parts[i]);
      r := AppendPart(r, parts[i]);
    }
    assert parts[..|parts|] == parts;
  }

  /** Whether a separator is needed before the next part. */
  predicate NeedsSlash(s: string) { s != "" && s[|s| - 1] != '/' }

  lemma NextPart(n: nat, front: seq<string>, part: string)
    requires AllParts(front + [part])
    ensures var s := Ups(n) + Rel(front);
            Ups(n) + Rel(front + [part]) == if NeedsSlash(s) then s + "/" + part else s + part
  {
    hide Ups, Rel, Abs;
    if front == [] {
      FirstPart(n, part);
    } else {
      assert forall i :: 0 <= i < |front| ==> front[i] == (front + [part])[i];
      EndsInPart(front);
      RelSnoc(front, part);
      AppendedEnd(Ups(n), Rel(front));
      assert Ups(n) + (Rel(front) + "/" + part) == (Ups(n) + Rel(front)) + "/" + part;
    }
  }

  lemma FirstPart(n: nat, part: string)
    ensures Ups(n) + Rel([] + [part]) == Ups(n) + Rel([]) + part && !NeedsSlash(Ups(n) + Rel([]))
  {
    assert [] + [part] == [part] && Rel([part]) == part + "" && Rel([]) == "";
    if n > 0 {
      UpsEnd(n);
    }
  }

  lemma AppendedEnd(a: string, b: string)
    requires NeedsSlash(b)
    ensures NeedsSlash(a + b)
  {
  }

  // ---------------------------------------------------------------- mounts_transform_path

  /** mounts_ignore_path: the namespace directory first, then the ignored mount points from the last to the first. */
  method IgnorePath(m: MountTable, path: string) returns (ignored: bool)
    ensures ignored == ("/tmp/namespace-" <= path || exists i :: 0 <= i < |m.ignored| && m.ignored[i] <= path)
  {
    if "/tmp/namespace-" <= path {
      return true;
    }
    var i := |m.ignored| - 1;
    while i >= 0
      invariant -1 <= i < |m.ignored|
      invariant forall j :: i < j < |m.ignored| ==> !(m.ignored[j] <= path)
    {
      if m.ignored[i] <= path {
        return true;
      }
      i := i - 1;
    }
    return false;
  }

  method TransformPath(m: MountTable, name: string, path: string) returns (r: Transformed)
    ensures r == Transform(m, name, path)
  {
    hide StackNormal;
    var p := NormalizeWithStack(path);
    var ignored := IgnorePath(m, p);
    if ignored {
      return Refused;
    }
    var i := |m.mps| - 1;
    while i >= 0
      invariant -1 <= i < |m.mps|
      invariant Match(m, p, |m.mps|) == Match(m, p, i + 1)
    {
      var mp := m.mps[i];
      if mp <= p {
        if mp == "/" {
          r := Mapped(INSERT + name + p);
          assert "" + Marker(name) + p == INSERT + name + p;
        } else {
          r := Mapped(mp + INSERT + name + p[|mp|..]);
          assert mp + Marker(name) + p[|mp|..] == mp + INSERT + name + p[|mp|..];
        }
        return;
      }
      i := i - 1;
    }
    return Unmapped;
  }

  // ---------------------------------------------------------------- dirname_r

  /** The string in a buffer: what stands before the first NUL. */
  function CString(buffer: seq<char>): (s: string)
    ensures s <= buffer && '\0' !in s && (|s| < |buffer| ==> buffer[|s|] == '\0')
  {
    if buffer == [] || buffer[0] == '\0' then [] else [buffer[0]] + CString(buffer[1..])
  }

  lemma CStringIs(buffer: seq<char>, n: nat)
    requires n < |buffer| && buffer[n] == '\0' && '\0' !in buffer[..n]
    ensures CString(buffer) == buffer[..n]
  {
    var s := CString(buffer);
    assert forall k :: 0 <= k < n ==> buffer[k] in buffer[..n];
    assert forall k :: 0 <= k < |s| ==> s[k] == buffer[k] && s[k] in s;
  }

  lemma Stripped(s: string, n: nat)
    requires n <= |s| && (forall i :: n <= i < |s| ==> s[i] == '/') && (n == 0 || s[n - 1] != '/')
    ensures StripSlashes(s) == s[..n]
    decreases |s|
  {
    if n < |s| {
      Stripped(s[..|s| - 1], n);
      assert s[..|s| - 1][..n] == s[..n];
    } else {
      assert s[..n] == s;
    }
  }

  /** Overwrite trailing slashes. */
  method CutTail(path: array<char>, len: nat) returns (end: nat)
    requires len < path.Length && path[len] == '\0'
    modifies path
    ensures end <= len && path[end] == '\0'
    ensures path[..end] == StripSlashes(old(path[..len])) == old(path[..end])
  {
    ghost var s := path[..len];
    end := len;
    while end > 0 && path[end - 1] == '/'
      invariant end <= len && path[end] == '\0'
      invariant forall k :: 0 <= k < end ==> path[k] == s[k]
      invariant forall k :: end <= k < len ==> s[k] == '/'
    {
      end := end - 1;
      path[end] := '\0';
    }
    Stripped(s, end);
    assert path[..end] == s[..end];
  }

  /** Cut the string at its last slash. */
  method CutAtSlash(path: array<char>, end: nat) returns (cut: Option<nat>)
    requires end < path.Length
    modifies path
    ensures cut == LastSlash(old(path[..end]))
    ensures cut.None? ==> path[..] == old(path[..])
    ensures cut.Some? ==> path[..cut.value] == old(path[..cut.value]) && path[cut.value] == '\0'
  {
    ghost var s := path[..end];
    var i := end - 1;
    while i >= 0 && path[i] != '/'
      invariant -1 <= i < end || end == 0
      invariant -1 <= i && path[..end] == s && forall k :: i < k < end ==> s[k] != '/'
    {
      i := i - 1;
    }
    UniqueSlash(s, i);
    if i < 0 {
      return None;
    }
    path[i] := '\0';
    return Some(i);
  }

  lemma UniqueSlash(s: string, i: int)
    requires -1 <= i < |s| && (i >= 0 ==> s[i] == '/') && forall k :: i < k < |s| ==> s[k] != '/'
    ensures LastSlash(s) == if i < 0 then None else Some(i)
  {
    var j := LastSlash(s);
    assert j.Some? ==> forall k :: j.value < k < |s| ==> s[k] in s[j.value + 1..];
    assert i >= 0 ==> s[i] in s;
  }

  /** Truncate the string in place: trailing slashes first, then everything from the last slash on. */
  method DirnameInPlace(path: array<char>)
    requires '\0' in path[..] && CString(path[..]) != ""
    modifies path
    ensures '\0' in path[..] && CString(path[..]) == Dirname(old(CString(path[..])))
  {
    hide StripSlashes, LastSlash;
    ghost var s := CString(path[..]);
    var len := StringLength(path);
    if len == 2 && path[0] == '.' && path[1] == '.' {
      return;
    }
    if len == 1 && path[0] == '/' {
      return;
    }
    assert s != "/" && s != "..";
    var end := CutTail(path, len);
    ghost var stripped := path[..end];
    assert end == len <==> stripped == s;
    var cut := CutAtSlash(path, end);
    if cut.Some? {
      assert path[..cut.value] == stripped[..cut.value];
      CStringIs(path[..], cut.value);
    } else if end == len {
      path[0] := '.';
      path[1] := '\0';
      CStringIs(path[..], 1);
      assert path[..1] == ".";
    } else {
      CStringIs(path[..], end);
    }
  }

  /** strlen */
  method StringLength(a: array<char>) returns (n: nat)
    requires '\0' in a[..]
    ensures n < a.Length && n == |CString(a[..])|
    ensures a[n] == '\0' && CString(a[..]) == a[..n] && '\0' !in a[..n]
  {
    n := 0;
    while a[n] != '\0'
      invariant n < a.Length && '\0' !in a[..n] && '\0' in a[n..]
      decreases a.Length - n
    {
      assert a[n..] == [a[n]] + a[n + 1..];
      n := n + 1;
      assert a[..n] == a[..n - 1] + [a[n - 1]];
    }
    CStringIs(a[..], n);
  }
}
