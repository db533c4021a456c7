/**
 Path strings as the generator (mounts.c) and the initialiser (utils/futils.c) see them: token
 lists, the two normalisers, relative paths and dirname_r.
 */
module Paths {
  import opened Seqs

  // ---------------------------------------------------------------- strings

  /** The position of the first occurrence of `sub` in `s` at or after `from` (strstr). */
  function Find(s: string, sub: string, from: nat): (at: Option<nat>)
    requires from <= |s|
    ensures at.Some? ==> from <= at.value <= |s| - |sub| && sub <= s[at.value..]
    ensures at.Some? ==> forall i :: from <= i < at.value ==> !(sub <= s[i..])
    ensures at.None? ==> forall i :: from <= i <= |s| ==> !(sub <= s[i..])
    decreases |s| - from
  {
    if sub <= s[from..] then Some(from)
    else if from == |s| then None
    else Find(s, sub, from + 1)
  }

  predicate Contains(s: string, sub: string) { Find(s, sub, 0).Some? }

  /** The number of characters before the first slash. */
  function Run(s: string): (n: nat)
    ensures n <= |s| && '/' !in s[..n] && (n < |s| ==> s[n] == '/')
  {
    if s == "" || s[0] == '/' then 0
    else
      var n := 1 + Run(s[1..]);
      assert s[..n] == [s[0]] + s[1..][..n - 1];
      n
  }

  /** The tokens strtok_r yields with "/" as delimiter. */
  function Tokens(s: string): (toks: seq<string>)
    ensures AllParts(toks)
    decreases |s|
  {
    if s == "" then []
    else if s[0] == '/' then Tokens(s[1..])
    else [s[..Run(s)]] + Tokens(s[Run(s)..])
  }

  /** A path component. */
  predicate Part(p: string) { p != "" && '/' !in p }

  predicate AllParts(parts: seq<string>) { forall i :: 0 <= i < |parts| ==> Part(parts[i]) }

  /** Components that normalisation keeps. */
  predicate Clean(parts: seq<string>) {
    forall i :: 0 <= i < |parts| ==> Part(parts[i]) && parts[i] != "." && parts[i] != ".."
  }

  lemma CleanAreParts(f: seq<string>)
    requires Clean(f)
    ensures AllParts(f)
  {
  }

  /** Every component with a slash before it. */
  function Abs(parts: seq<string>): (s: string)
    ensures parts != [] ==> s != "" && s[0] == '/'
  {
    if parts == [] then "" else "/" + parts[0] + Abs(parts[1..])
  }

  /** The components separated by slashes. */
  function Rel(parts: seq<string>): string {
    if parts == [] then "" else parts[0] + Abs(parts[1..])
  }

  lemma RunOfPart(p: string, rest: string)
    requires Part(p) && (rest == "" || rest[0] == '/')
    ensures Run(p + rest) == |p|
  {
    var n := Run(p + rest);
    assert forall i :: 0 <= i < |p| ==> (p + rest)[i] == p[i];
    assert rest != "" ==> (p + rest)[|p|] == '/';
    assert forall i :: 0 <= i < n ==> (p + rest)[i] in (p + rest)[..n];
  }

  lemma TokensOfPart(p: string, rest: string)
    requires Part(p) && (rest == "" || rest[0] == '/')
    ensures Tokens(p + rest) == [p] + Tokens(rest)
  {
    RunOfPart(p, rest);
    assert (p + rest)[0] == p[0];
    assert (p + rest)[..|p|] == p && (p + rest)[|p|..] == rest;
  }

  lemma TokensSlash(rest: string)
    ensures Tokens("/" + rest) == Tokens(rest)
  {
    assert ("/" + rest)[1..] == rest;
  }

  lemma {:induction false} TokensOfAbs(parts: seq<string>)
    requires AllParts(parts)
    ensures Tokens(Abs(parts)) == parts
    decreases |parts|
  {
    if parts == [] {
    } else {
      assert Abs(parts) == "/" + (parts[0] + Abs(parts[1..]));
      TokensSlash(parts[0] + Abs(parts[1..]));
      TokensOfPart(parts[0], Abs(parts[1..]));
      TokensOfAbs(parts[1..]);
    }
  }

  lemma TokensOfRel(parts: seq<string>)
    requires AllParts(parts)
    ensures Tokens(Rel(parts)) == parts
  {
    if parts != [] {
      TokensOfPart(parts[0], Abs(parts[1..]));
      TokensOfAbs(parts[1..]);
    }
  }

  /** Tokens of two strings joined by a slash. */
  lemma {:induction false} TokensJoin(a: string, b: string)
    ensures Tokens(a + "/" + b) == Tokens(a) + Tokens(b)
    decreases |a|
  {
    if a == "" {
      assert a + "/" + b == "/" + b;
      TokensSlash(b);
    } else if a[0] == '/' {
      assert a + "/" + b == "/" + (a[1..] + "/" + b);
      TokensSlash(a[1..] + "/" + b);
      TokensJoin(a[1..], b);
    } else {
      var n := Run(a);
      assert a + "/" + b == a[..n] + (a[n..] + "/" + b);
      TokensOfPart(a[..n], a[n..] + "/" + b);
      TokensJoin(a[n..], b);
    }
  }

  lemma {:induction false} AbsConcat(a: seq<string>, b: seq<string>)
    ensures Abs(a + b) == Abs(a) + Abs(b)
    decreases |a|
  {
    if a == [] {
      assert a + b == b;
    } else {
      assert (a + b)[1..] == a[1..] + b;
      AbsConcat(a[1..], b);
    }
  }

  lemma {:induction false} AbsSnoc(front: seq<string>, last: string)
    ensures Abs(front + [last]) == Abs(front) + "/" + last
    decreases |front|
  {
    if front == [] {
      assert (front + [last])[1..] == [];
    } else {
      assert (front + [last])[1..] == front[1..] + [last];
      AbsSnoc(front[1..], last);
    }
  }

  // ---------------------------------------------------------------- resolving "." and ".."

  /** One token against the components so far. */
  function Push(parts: seq<string>, tok: string): seq<string> {
    if tok == ".." then if parts == [] then [] else parts[..|parts| - 1]
    else if tok != "." then parts + [tok]
    else parts
  }

  /** The tokens pushed one after another onto `parts`; nothing is pushed any more once `cap` are held. */
  function Resolve(parts: seq<string>, toks: seq<string>, cap: nat): seq<string>
    decreases |toks|
  {
    if toks == [] || |parts| >= cap then parts else Resolve(Push(parts, toks[0]), toks[1..], cap)
  }

  lemma {:induction false} ResolveIsClean(parts: seq<string>, toks: seq<string>, cap: nat)
    requires Clean(parts) && AllParts(toks)
    ensures Clean(Resolve(parts, toks, cap))
    ensures |parts| <= cap ==> |Resolve(parts, toks, cap)| <= cap
    decreases |toks|
  {
    if toks == [] || |parts| >= cap {
    } else {
      ResolveIsClean(Push(parts, toks[0]), toks[1..], cap);
    }
  }

  /** Clean components are kept as they are. */
  lemma {:induction false} ResolveClean(parts: seq<string>, toks: seq<string>, cap: nat)
    requires Clean(toks) && |parts| + |toks| <= cap
    ensures Resolve(parts, toks, cap) == parts + toks
    decreases |toks|
  {
    if toks == [] {
      assert parts + toks == parts;
    } else {
      ResolveClean(parts + [toks[0]], toks[1..], cap);
      assert parts + [toks[0]] + toks[1..] == parts + toks;
    }
  }

  /** A cap that is never reached makes no difference. */
  lemma {:induction false} CapUnreached(parts: seq<string>, toks: seq<string>, cap: nat, cap': nat)
    requires |parts| + |toks| <= cap && |parts| + |toks| <= cap'
    ensures Resolve(parts, toks, cap) == Resolve(parts, toks, cap')
    decreases |toks|
  {
    if toks == [] {
    } else {
      CapUnreached(Push(parts, toks[0]), toks[1..], cap, cap');
    }
  }

  lemma {:induction false} ResolveConcat(parts: seq<string>, a: seq<string>, b: seq<string>, cap: nat)
    ensures Resolve(parts, a + b, cap) == Resolve(Resolve(parts, a, cap), b, cap)
    decreases |a|
  {
    if a == [] {
      assert a + b == b;
    } else if |parts| < cap {
      assert (a + b)[1..] == a[1..] + b;
      ResolveConcat(Push(parts, a[0]), a[1..], b, cap);
    }
  }

  // ---------------------------------------------------------------- the two normalisers

  const PARTS: nat := 1024

  predicate Tokenised(path: string) { Contains(path, "..") || Contains(path, "//") }

  /** The components the stack of mounts.c ends up with. */
  function Stacked(path: string): (parts: seq<string>)
    ensures Clean(parts)
  {
    ResolveIsClean([], Tokens(path), |Tokens(path)|);
    Resolve([], Tokens(path), |Tokens(path)|)
  }

  /** _mounts_normalize_path */
  function StackNormal(path: string): string {
    if !Tokenised(path) then path
    else if Stacked(path) == [] then "."
    else Abs(Stacked(path))
  }

  /** The components the array of futils.c ends up with. */
  function Collected(path: string): (parts: seq<string>)
    ensures Clean(parts) && |parts| <= PARTS
  {
    ResolveIsClean([], Tokens(path), PARTS);
    Resolve([], Tokens(path), PARTS)
  }

  /** _normalize_path */
  function ArrayNormal(path: string): string {
    var parts := Collected(path);
    if path != "" && path[0] == '/' then if parts == [] then "/" else Abs(parts)
    else if parts == [] then "." else Rel(parts)
  }

  lemma StackedAbs(parts: seq<string>)
    requires Clean(parts)
    ensures Stacked(Abs(parts)) == parts
  {
    TokensOfAbs(parts);
    ResolveClean([], parts, |parts|);
    assert [] + parts == parts;
  }

  lemma CollectedParts(parts: seq<string>)
    requires Clean(parts) && |parts| <= PARTS
    ensures Collected(Abs(parts)) == parts && Collected(Rel(parts)) == parts
  {
    TokensOfAbs(parts);
    TokensOfRel(parts);
    ResolveClean([], parts, PARTS);
    assert [] + parts == parts;
  }

  /** An absolute path of clean components is its own normal form. */
  lemma CleanIsNormal(parts: seq<string>)
    requires Clean(parts) && parts != []
    ensures StackNormal(Abs(parts)) == Abs(parts)
    ensures |parts| <= PARTS ==> ArrayNormal(Abs(parts)) == Abs(parts)
  {
    StackedAbs(parts);
    if |parts| <= PARTS {
      CollectedParts(parts);
    }
  }

  /** Both normalisers are idempotent, on every string. */
  lemma StackNormalIdempotent(path: string)
    ensures StackNormal(StackNormal(path)) == StackNormal(path)
  {
    if Tokenised(path) {
      if Stacked(path) == [] {
        assert |"."| < |".."|;
      } else {
        CleanIsNormal(Stacked(path));
      }
    }
  }

  lemma ArrayNormalIdempotent(path: string)
    ensures ArrayNormal(ArrayNormal(path)) == ArrayNormal(path)
  {
    var parts := Collected(path);
    CollectedParts(parts);
    if parts == [] {
      SpecialTokens();
    } else {
      assert Rel(parts)[0] == parts[0][0];
    }
  }

  lemma SpecialTokens()
    ensures Tokens("/") == [] && Tokens(".") == ["."]
    ensures Collected("/") == [] && Collected(".") == []
  {
    TokensSlash("");
    assert "/" + "" == "/";
    TokensOfPart(".", "");
    assert "." + "" == ".";
    assert Push([], ".") == [];
  }

  /**
   Where mounts.c tokenises a path of at most 1024 components, the two normalisers agree
   exactly on absolute paths with something left, and on relative paths with nothing left.
   */
  lemma NormalisersAgree(path: string)
    requires (Contains(path, "..") || Contains(path, "//")) && |Tokens(path)| <= PARTS
    ensures (StackNormal(path) == ArrayNormal(path))
         == ((path != "" && path[0] == '/') == (StackNormal(path) != "."))
  {
    CapUnreached([], Tokens(path), |Tokens(path)|, PARTS);
    var parts := Stacked(path);
    if parts != [] {
      assert Rel(parts)[0] == parts[0][0] && parts[0][0] != '/';
    }
  }
}
