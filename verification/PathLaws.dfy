/** The laws that determine what the two normalisers make of a path. */
module PathLaws {
  import opened Paths

  // ---------------------------------------------------------------- lists of components

  /** Enough room for all components, whatever the list. */
  lemma AnyCap(toks: seq<string>, cap: nat)
    requires |toks| <= cap
    ensures Resolve([], toks, |toks|) == Resolve([], toks, cap)
  {
    CapUnreached([], toks, |toks|, cap);
  }

  lemma {:induction false} NeverFull(parts: seq<string>, toks: seq<string>, cap: nat)
    ensures |Resolve(parts, toks, cap)| <= |parts| + |toks|
    decreases |toks|
  {
    if toks == [] || |parts| >= cap {
    } else {
      NeverFull(Push(parts, toks[0]), toks[1..], cap);
    }
  }

  /** A component and the ".." after it. */
  lemma UpAgain(parts: seq<string>, x: string, cap: nat)
    requires x != "." && x != ".." && |parts| + 1 < cap
    ensures Resolve(parts, [x, ".."], cap) == parts
  {
    assert [x, ".."][1..] == [".."] && [".."][1..] == [];
    assert Push(Push(parts, x), "..") == parts;
  }

  lemma Cancels(a: seq<string>, x: string, b: seq<string>)
    requires x != "." && x != ".."
    ensures var before := a + [x, ".."] + b; Resolve([], before, |before|) == Resolve([], a + b, |a + b|)
  {
    hide Resolve;
    var cap := |a| + |b| + 3;
    AnyCap(a + [x, ".."] + b, cap);
    AnyCap(a + b, cap);
    ResolveConcat([], a + [x, ".."], b, cap);
    ResolveConcat([], a, [x, ".."], cap);
    ResolveConcat([], a, b, cap);
    NeverFull([], a, cap);
    UpAgain(Resolve([], a, cap), x, cap);
  }

  lemma DotVanishes(a: seq<string>, b: seq<string>)
    ensures var before := a + ["."] + b; Resolve([], before, |before|) == Resolve([], a + b, |a + b|)
  {
    hide Resolve;
    var cap := |a| + |b| + 3;
    AnyCap(a + ["."] + b, cap);
    AnyCap(a + b, cap);
    ResolveConcat([], a + ["."], b, cap);
    ResolveConcat([], a, ["."], cap);
    ResolveConcat([], a, b, cap);
    NeverFull([], a, cap);
    Stays(Resolve([], a, cap), cap);
  }

  lemma Stays(parts: seq<string>, cap: nat)
    requires |parts| < cap
    ensures Resolve(parts, ["."], cap) == parts
  {
    assert Resolve(parts, ["."], cap) == Resolve(parts, [], cap);
  }

  lemma TopStays(b: seq<string>)
    ensures var before := [".."] + b; Resolve([], before, |before|) == Resolve([], b, |b|)
  {
    var cap := |b| + 1;
    AnyCap(b, cap);
    assert ([".."] + b)[1..] == b;
  }

  // ---------------------------------------------------------------- strings

  /** A path with these components that mounts.c tokenises in any case. */
  function Slashed(toks: seq<string>): string { "//" + Rel(toks) }

  lemma SlashedIsTokenised(toks: seq<string>)
    ensures Contains(Slashed(toks), "//")
  {
    assert Slashed(toks)[0..] == Slashed(toks);
  }

  lemma TokensOfSlashed(toks: seq<string>)
    requires AllParts(toks)
    ensures Tokens(Slashed(toks)) == toks
  {
    assert Slashed(toks) == "/" + ("/" + Rel(toks));
    TokensSlash("/" + Rel(toks));
    TokensSlash(Rel(toks));
    TokensOfRel(toks);
  }

  /** The components of the normal form; "." stands for none. */
  function Left(toks: seq<string>): seq<string> {
    var normal := StackNormal(Slashed(toks));
    if normal == "." then [] else Tokens(normal)
  }

  lemma LeftIs(toks: seq<string>)
    requires AllParts(toks)
    ensures Left(toks) == Resolve([], toks, |toks|) && Clean(Left(toks))
    ensures StackNormal(Slashed(toks)) == if Left(toks) == [] then "." else Abs(Left(toks))
  {
    SlashedIsTokenised(toks);
    TokensOfSlashed(toks);
    var parts := Stacked(Slashed(toks));
    TokensOfAbs(parts);
  }

  /** A path without ".." and "//" stays as it is, whatever else is in it. */
  lemma NothingToDo(path: string)
    requires !Contains(path, "..") && !Contains(path, "//")
    ensures StackNormal(path) == path
  {
  }

  /** In any other path only the components count. */
  lemma ComponentsDecide(path: string)
    requires Contains(path, "..") || Contains(path, "//")
    ensures StackNormal(path) == StackNormal(Slashed(Tokens(path)))
  {
    hide Find;
    SlashedIsTokenised(Tokens(path));
    TokensOfSlashed(Tokens(path));
  }

  /** Clean components are kept; the empty path is written ".". */
  lemma CleanIsKept(parts: seq<string>)
    requires Clean(parts)
    ensures StackNormal(Slashed(parts)) == if parts == [] then "." else Abs(parts)
  {
    hide StackNormal, Left;
    LeftIs(parts);
    ResolveClean([], parts, |parts|);
    assert [] + parts == parts;
  }

  /** ".." takes away the component before it. */
  lemma UpCancels(a: seq<string>, x: string, b: seq<string>)
    requires AllParts(a) && Part(x) && x != "." && x != ".." && AllParts(b)
    ensures StackNormal(Slashed(a + [x, ".."] + b)) == StackNormal(Slashed(a + b))
  {
    hide StackNormal, Left, Resolve, Slashed;
    LeftIs(a + [x, ".."] + b);
    LeftIs(a + b);
    Cancels(a, x, b);
  }

  /** At the top ".." takes nothing away. */
  lemma TopIsItsOwnParent(b: seq<string>)
    requires AllParts(b)
    ensures StackNormal(Slashed([".."] + b)) == StackNormal(Slashed(b))
  {
    hide StackNormal, Left, Resolve, Slashed;
    LeftIs([".."] + b);
    LeftIs(b);
    TopStays(b);
  }

  /** "." stays where it is. */
  lemma DotMeansHere(a: seq<string>, b: seq<string>)
    requires AllParts(a) && AllParts(b)
    ensures StackNormal(Slashed(a + ["."] + b)) == StackNormal(Slashed(a + b))
  {
    hide StackNormal, Left, Resolve, Slashed;
    LeftIs(a + ["."] + b);
    LeftIs(a + b);
    DotVanishes(a, b);
  }

  // ---------------------------------------------------------------- absolute paths

  lemma HasUp(a: seq<string>, b: seq<string>)
    ensures Contains(Abs(a + [".."] + b), "..")
  {
    AbsConcat(a + [".."], b);
    AbsSnoc(a, "..");
    assert Abs(a + [".."] + b)[|Abs(a)| + 1..] == ".." + Abs(b);
  }

  /** A clean absolute path with one step down and up again: both components go. */
  lemma DownAndUp(a: seq<string>, x: string, b: seq<string>)
    requires Clean(a + [x] + b)
    ensures StackNormal(Abs(a + [x, ".."] + b)) == if a + b == [] then "." else Abs(a + b)
  {
    hide StackNormal, Slashed, Abs, Find;
    CleanPieces(a, x, b);
    assert a + [x] + [".."] + b == a + [x, ".."] + b;
    HasUp(a + [x], b);
    TokensOfAbs(a + [x, ".."] + b);
    ComponentsDecide(Abs(a + [x, ".."] + b));
    UpCancels(a, x, b);
    CleanIsKept(a + b);
  }

  lemma CleanPieces(a: seq<string>, x: string, b: seq<string>)
    requires Clean(a + [x] + b)
    ensures Clean(a + b) && AllParts(a) && AllParts(b) && Part(x) && x != "." && x != ".."
  {
    var all := a + [x] + b;
    assert all[|a|] == x;
    assert forall i :: 0 <= i < |a| ==> a[i] == all[i];
    assert forall i :: 0 <= i < |b| ==> b[i] == all[|a| + 1 + i];
  }

  /** ".." at the front of an absolute path goes. */
  lemma UpAtTheTop(b: seq<string>)
    requires Clean(b)
    ensures StackNormal(Abs([".."] + b)) == if b == [] then "." else Abs(b)
  {
    hide StackNormal, Slashed, Abs, Find;
    assert [] + [".."] + b == [".."] + b;
    HasUp([], b);
    TokensOfAbs([".."] + b);
    ComponentsDecide(Abs([".."] + b));
    TopIsItsOwnParent(b);
    CleanIsKept(b);
  }

  /** Two slashes in a row count as one. */
  lemma DoubleSlash(a: seq<string>, b: seq<string>)
    requires Clean(a) && Clean(b) && b != []
    ensures StackNormal(Abs(a) + "/" + Abs(b)) == Abs(a + b)
  {
    hide StackNormal, Slashed, Abs, Find, Tokens;
    var path := Abs(a) + "/" + Abs(b);
    assert path[|Abs(a)|] == '/' && path[|Abs(a)| + 1] == Abs(b)[0];
    assert "//" <= path[|Abs(a)|..];
    assert Contains(path, "//");
    TokensJoin(Abs(a), Abs(b));
    CleanAreParts(a);
    CleanAreParts(b);
    TokensOfAbs(a);
    TokensOfAbs(b);
    ComponentsDecide(path);
    assert Clean(a + b);
    CleanIsKept(a + b);
  }

  // ---------------------------------------------------------------- every normal form

  lemma FoundInside(s: string, t: string, from: nat, sub: string)
    requires from + |t| <= |s| && s[from..from + |t|] == t && Contains(t, sub)
    ensures Contains(s, sub)
  {
    var i := Find(t, sub, 0).value;
    assert s[from + i..][..|sub|] == t[i..][..|sub|] == sub;
  }

  ghost predicate SomeDots(toks: seq<string>) { exists i :: 0 <= i < |toks| && Contains(toks[i], "..") }

  lemma SomeDotsCons(tok: string, toks: seq<string>)
    ensures SomeDots([tok] + toks) <==> Contains(tok, "..") || SomeDots(toks)
  {
    var all := [tok] + toks;
    if SomeDots(all) {
      var i :| 0 <= i < |all| && Contains(all[i], "..");
      assert i > 0 ==> all[i] == toks[i - 1];
    }
    if Contains(tok, "..") {
      assert all[0] == tok;
    }
    if SomeDots(toks) {
      var i :| 0 <= i < |toks| && Contains(toks[i], "..");
      assert all[i + 1] == toks[i];
    }
  }

  /** ".." stands in a path exactly if it stands in one of its components. */
  lemma {:induction false} DotsAreInAToken(s: string)
    ensures Contains(s, "..") <==> SomeDots(Tokens(s))
    decreases |s|
  {
    hide Find, SomeDots;
    if s == "" {
      NoDots();
    } else if s[0] == '/' {
      DotsAreInAToken(s[1..]);
      TailContains(s);
    } else {
      var n := Run(s);
      DotsAreInAToken(s[n..]);
      HeadContains(s, n);
      SomeDotsCons(s[..n], Tokens(s[n..]));
    }
  }

  lemma NoDots()
    ensures !SomeDots([])
  {
  }

  lemma TailContains(s: string)
    requires s != "" && s[0] == '/'
    ensures Contains(s, "..") <==> Contains(s[1..], "..")
  {
    if Contains(s, "..") {
      var i := Find(s, "..", 0).value;
      assert s[i..][0] == s[i];
      assert s[1..][i - 1..] == s[i..];
    }
    if Contains(s[1..], "..") {
      FoundInside(s, s[1..], 1, "..");
    }
  }

  lemma HeadContains(s: string, n: nat)
    requires n <= |s| && (n < |s| ==> s[n] == '/')
    ensures Contains(s, "..") <==> Contains(s[..n], "..") || Contains(s[n..], "..")
  {
    if Contains(s, "..") {
      var i := Find(s, "..", 0).value;
      assert s[i..][0] == s[i] && s[i..][1] == s[i + 1];
      if i >= n {
        assert s[n..][i - n..] == s[i..];
      } else {
        assert s[..n][i..][..2] == s[i..][..2];
      }
    }
    if Contains(s[..n], "..") {
      FoundInside(s, s[..n], 0, "..");
    }
    if Contains(s[n..], "..") {
      FoundInside(s, s[n..], n, "..");
    }
  }

  lemma {:induction false} AbsHasNoDoubleSlash(parts: seq<string>, i: nat)
    requires AllParts(parts) && i < |Abs(parts)| - 1
    ensures !(Abs(parts)[i] == '/' && Abs(parts)[i + 1] == '/')
    decreases |parts|
  {
    if parts != [] {
      var p, tail := parts[0], Abs(parts[1..]);
      var s := Abs(parts);
      assert s == "/" + p + tail;
      assert forall k :: 1 <= k <= |p| ==> s[k] == p[k - 1] && p[k - 1] in p;
      if i > |p| {
        assert s[i] == tail[i - |p| - 1] && s[i + 1] == tail[i - |p|];
        AbsHasNoDoubleSlash(parts[1..], i - |p| - 1);
      }
    }
  }

  /** No normal form has a component ".." or two slashes in a row; this holds of every string. */
  lemma NormalIsNormal(path: string)
    ensures var normal := StackNormal(path); !Contains(normal, "//") && ".." !in Tokens(normal)
  {
    hide Find;
    if Contains(path, "..") || Contains(path, "//") {
      ResultIsNormal(path);
    } else {
      DotsAreInAToken(path);
      if ".." in Tokens(path) {
        var i :| 0 <= i < |Tokens(path)| && Tokens(path)[i] == "..";
        Itself("..");
      }
    }
  }

  lemma Itself(s: string)
    ensures Contains(s, s)
  {
    assert s[0..] == s;
  }

  lemma ResultIsNormal(path: string)
    requires Contains(path, "..") || Contains(path, "//")
    ensures var normal := StackNormal(path); !Contains(normal, "//") && ".." !in Tokens(normal)
  {
    hide Find;
    var normal, parts := StackNormal(path), Stacked(path);
    if parts == [] {
      SpecialTokens();
      assert |"."| < |"//"|;
    } else {
      TokensOfAbs(parts);
      if Contains(normal, "//") {
        var i := Find(normal, "//", 0).value;
        assert normal[i..][0] == normal[i] && normal[i..][1] == normal[i + 1];
        AbsHasNoDoubleSlash(parts, i);
      }
    }
  }

  /** Two dots inside a component are no "..": they stay, although they make mounts.c tokenise the path. */
  lemma DotsInsideStay()
    ensures StackNormal("/a..b") == "/a..b" && Contains("/a..b", "..")
  {
    var parts := ["a..b"];
    assert parts[1..] == [];
    assert Abs(parts) == "/a..b";
    CleanIsNormal(parts);
    assert "/a..b"[2..][..2] == "..";
  }

  // ---------------------------------------------------------------- the array of futils.c

  /** Before the array is full it holds what the stack would hold. */
  lemma {:induction false} CappedPrefix(toks: seq<string>, k: nat)
    requires AllParts(toks) && k <= |toks| && forall j :: 0 <= j < k ==> |Left(toks[..j])| < PARTS
    ensures Resolve([], toks[..k], PARTS) == Left(toks[..k])
  {
    hide Left, Resolve;
    LeftIs(toks[..k]);
    if k == 0 {
      assert Resolve([], [], PARTS) == [] == Resolve([], [], 0) by { ResolveNothing(); }
    } else {
      var front, last := toks[..k - 1], toks[k - 1];
      assert toks[..k] == front + [last];
      CappedPrefix(toks, k - 1);
      LeftIs(front);
      ResolveConcat([], front, [last], PARTS);
      ResolveOne(Left(front), last, PARTS);
      AnyCap(front, k + 1);
      AnyCap(front + [last], k + 1);
      ResolveConcat([], front, [last], k + 1);
      NeverFull([], front, k + 1);
      ResolveOne(Left(front), last, k + 1);
    }
  }

  lemma ResolveNothing()
    ensures forall cap :: Resolve([], [], cap) == []
  {
  }

  lemma ResolveOne(parts: seq<string>, tok: string, cap: nat)
    requires |parts| < cap
    ensures Resolve(parts, [tok], cap) == Push(parts, tok)
  {
    assert [tok][1..] == [];
    assert Resolve(parts, [tok], cap) == Resolve(Push(parts, tok), [], cap);
  }

  /**
   _normalize_path keeps what the stack keeps of the first k components, where the k-th is the
   first to fill the array, or the last one. A relative path gets no slash in front.
   */
  lemma ArrayFollowsStack(path: string, k: nat)
    requires k <= |Tokens(path)| && forall j :: 0 <= j < k ==> |Left(Tokens(path)[..j])| < PARTS
    requires k == |Tokens(path)| || |Left(Tokens(path)[..k])| == PARTS
    ensures var left := Left(Tokens(path)[..k]); var absolute := path != "" && path[0] == '/';
            ArrayNormal(path) == if absolute then (if left == [] then "/" else Abs(left))
                                 else if left == [] then "." else Rel(left)
  {
    hide Left, Tokens, Abs, Rel;
    var toks := Tokens(path);
    CappedPrefix(toks, k);
    assert toks == toks[..k] + toks[k..];
    ResolveConcat([], toks[..k], toks[k..], PARTS);
    assert Resolve(Left(toks[..k]), toks[k..], PARTS) == Left(toks[..k]);
    assert Collected(path) == Left(toks[..k]);
  }

  /** There is always such a component. */
  lemma FirstFull(path: string) returns (k: nat)
    ensures k <= |Tokens(path)| && forall j :: 0 <= j < k ==> |Left(Tokens(path)[..j])| < PARTS
    ensures k == |Tokens(path)| || |Left(Tokens(path)[..k])| == PARTS
  {
    hide Left, Tokens;
    var toks := Tokens(path);
    k := 0;
    while k < |toks| && |Left(toks[..k])| < PARTS
      invariant k <= |toks| && forall j :: 0 <= j < k ==> |Left(toks[..j])| < PARTS
    {
      k := k + 1;
    }
    if k < |toks| {
      CappedPrefix(toks, k);
      ResolveIsClean([], toks[..k], PARTS);
    }
  }
}
