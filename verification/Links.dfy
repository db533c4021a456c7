/**
 Symbolic links by what they mean: a link in directory `d`, a target that names a place from the
 root or from `d`. Which links the generator accepts, where they lead in the replay, which ones
 the initialiser creates.
 */
module Links {
  import opened Seqs
  import opened Paths
  import opened PathLaws
  import opened Mounts
  import opened Symlinks

  // ---------------------------------------------------------------- targets

  /** A captured target: an absolute path, or some levels up and then down. */
  datatype Target = FromRoot(parts: seq<string>) | FromHere(ups: nat, parts: seq<string>)
  {
    predicate Valid() { Clean(parts) && (if FromRoot? then parts != [] else ups > 0 || parts != []) }

    function Text(): string { if FromRoot? then Abs(parts) else Rel(Dots(ups) + parts) }

    /** The place it names in a directory. At the root, up stays at the root. */
    function Meant(d: seq<string>): seq<string> {
      if FromRoot? then parts else (if ups < |d| then d[..|d| - ups] else []) + parts
    }
  }

  lemma DotsAreParts(n: nat, parts: seq<string>)
    requires Clean(parts)
    ensures AllParts(Dots(n) + parts)
  {
  }

  /** A target with a slash in front is taken as it is, normalised; the link plays no part. */
  lemma AbsoluteTarget(link: string, target: string)
    requires link != "" && target != "" && target[0] == '/'
    ensures TargetPath(link, target) == StackNormal(target)
  {
  }

  /** Any other target is looked up in the directory of the link. */
  lemma RelativeTarget(d: seq<string>, l: string, target: string)
    requires Clean(d + [l]) && (target == "" || target[0] != '/')
    ensures TargetPath(Abs(d + [l]), target) == StackNormal(Abs(d) + "/" + target)
  {
    hide Dirname, Abs, StackNormal;
    CleanAreParts(d + [l]);
    DirnameOfAbs(d + [l]);
    assert (d + [l])[..|d|] == d;
  }

  lemma FromHereText(ups: nat, parts: seq<string>)
    requires Clean(parts) && (ups > 0 || parts != [])
    ensures var target := Rel(Dots(ups) + parts); target != "" && target[0] != '/'
  {
    DotsAreParts(ups, parts);
    var toks := Dots(ups) + parts;
    assert toks[0] != "" && Rel(toks)[0] == toks[0][0] && toks[0][0] in toks[0];
  }

  lemma JoinedText(d: seq<string>, toks: seq<string>)
    requires toks != []
    ensures Abs(d) + "/" + Rel(toks) == Abs(d + toks)
  {
    hide Abs;
    AbsConcat(d, toks);
    AbsIsSlashRel(toks);
    assert Abs(d) + ("/" + Rel(toks)) == Abs(d) + "/" + Rel(toks);
  }

  lemma AbsIsSlashRel(toks: seq<string>)
    requires toks != []
    ensures Abs(toks) == "/" + Rel(toks)
  {
    assert "/" + (toks[0] + Abs(toks[1..])) == "/" + toks[0] + Abs(toks[1..]);
  }

  /** Levels up from a clean directory. */
  lemma {:induction false} UpsFromClean(d: seq<string>, k: nat, t: seq<string>)
    requires Clean(d) && Clean(t)
    ensures StackNormal(Slashed(d + Dots(k) + t)) == StackNormal(Slashed((if k < |d| then d[..|d| - k] else []) + t))
    decreases k
  {
    hide StackNormal, Slashed, Clean;
    if k == 0 {
      assert d + Dots(0) + t == d + t && d[..|d|] == d;
      assert |d| == 0 ==> d + t == [] + t;
    } else if d == [] {
      assert d + Dots(k) + t == [".."] + (Dots(k - 1) + t);
      DotsAreParts(k - 1, t);
      TopIsItsOwnParent(Dots(k - 1) + t);
      assert [] + Dots(k - 1) + t == Dots(k - 1) + t;
      UpsFromClean([], k - 1, t);
    } else {
      var front, last := d[..|d| - 1], d[|d| - 1];
      assert d == front + [last];
      OneUp(front, last, k, t);
      assert k < |d| ==> front[..|front| - (k - 1)] == d[..|d| - k];
      UpsFromClean(front, k - 1, t);
    }
  }

  lemma OneUp(front: seq<string>, last: string, k: nat, t: seq<string>)
    requires Clean(front + [last]) && Clean(t) && k > 0
    ensures StackNormal(Slashed(front + [last] + Dots(k) + t)) == StackNormal(Slashed(front + Dots(k - 1) + t))
    ensures Clean(front)
  {
    hide StackNormal, Slashed;
    DotsAreParts(k - 1, t);
    assert (front + [last])[|front|] == last;
    assert forall i :: 0 <= i < |front| ==> (front + [last])[i] == front[i];
    assert front + [last] + Dots(k) + t == front + [last, ".."] + (Dots(k - 1) + t);
    assert front + (Dots(k - 1) + t) == front + Dots(k - 1) + t;
    UpCancels(front, last, Dots(k - 1) + t);
  }

  /** The generator takes a target for the place it means. */
  lemma TargetIsMeant(d: seq<string>, l: string, target: Target)
    requires Clean(d + [l]) && target.Valid()
    ensures var meant := target.Meant(d);
            TargetPath(Abs(d + [l]), target.Text()) == if meant == [] then "." else Abs(meant)
  {
    hide StackNormal, TargetPath, Dirname, Abs, Rel, Slashed;
    if target.FromRoot? {
      AbsoluteTarget(Abs(d + [l]), target.Text());
      CleanIsNormal(target.parts);
    } else {
      FromHereText(target.ups, target.parts);
      RelativeTarget(d, l, target.Text());
      JoinedText(d, Dots(target.ups) + target.parts);
      CleanFront(d, l);
      assert d + (Dots(target.ups) + target.parts) == d + Dots(target.ups) + target.parts;
      JoinedNormal(d, target.ups, target.parts);
    }
  }

  lemma CleanFront(d: seq<string>, l: string)
    requires Clean(d + [l])
    ensures Clean(d)
  {
    assert forall i :: 0 <= i < |d| ==> (d + [l])[i] == d[i];
  }

  lemma JoinedNormal(d: seq<string>, ups: nat, t: seq<string>)
    requires Clean(d) && Clean(t) && (ups > 0 || t != [])
    ensures var meant := FromHere(ups, t).Meant(d);
            StackNormal(Abs(d + Dots(ups) + t)) == if meant == [] then "." else Abs(meant)
  {
    hide StackNormal, Abs, Slashed, Find;
    var meant := FromHere(ups, t).Meant(d);
    assert Clean(meant);
    if ups == 0 {
      assert d + Dots(0) + t == d + t;
      assert d == [] ==> meant == d + t;
      assert d[..|d|] == d;
      CleanIsNormal(d + t);
    } else {
      assert d + Dots(ups - 1) + [".."] + t == d + Dots(ups) + t;
      HasUp(d + Dots(ups - 1), t);
      DotsAreParts(ups, t);
      assert AllParts(d + Dots(ups) + t);
      TokensOfAbs(d + Dots(ups) + t);
      ComponentsDecide(Abs(d + Dots(ups) + t));
      UpsFromClean(d, ups, t);
      CleanIsKept(meant);
    }
  }

  // ---------------------------------------------------------------- the generator

  /**
   A target that is moved is accepted exactly if it is moved below the replay root of the link,
   and is then made relative to the directory of the moved link.
   */
  lemma AcceptedExactly(m: MountTable, name: string, d: seq<string>, l: string, linkR: string,
                        target: Target, targetR: string)
    requires GoodTable(m) && Clean([name]) && Clean(d + [l]) && target.Valid() && target.Meant(d) != []
    requires linkR != "" && Moves(m, name, Abs(d + [l]), linkR) && Moves(m, name, Abs(target.Meant(d)), targetR)
    ensures SymlinkTarget(m, name, Abs(d + [l]), linkR, target.Text())
         == if Base(MountOf(m, Abs(d + [l]))) == Base(MountOf(m, Abs(target.Meant(d))))
            then Some(Relative(Dirname(linkR), targetR)) else None
  {
    hide GoodTable, Clean, Abs, Moves, TargetPath, SymlinkTarget, Relative, Dirname, Base;
    TargetIsMeant(d, l, target);
    AcceptedAt(m, name, Abs(d + [l]), linkR, target.Text(), targetR);
  }

  /** A target that is not moved is refused; so is the root directory. */
  lemma NotMovedIsRefused(m: MountTable, name: string, d: seq<string>, l: string, linkR: string, target: Target)
    requires GoodTable(m) && Clean(d + [l]) && target.Valid() && linkR != ""
    requires target.Meant(d) == [] || !Transform(m, name, Abs(target.Meant(d))).Mapped?
    ensures SymlinkTarget(m, name, Abs(d + [l]), linkR, target.Text()) == None
  {
    hide Abs, Transform, TargetPath, GoodTable, Clean;
    TargetIsMeant(d, l, target);
    if target.Meant(d) == [] {
      DotIsNotMoved(m, name);
    }
  }

  lemma DotIsNotMoved(m: MountTable, name: string)
    requires GoodTable(m)
    ensures !Transform(m, name, ".").Mapped?
  {
    hide Find;
    assert |"."| < |".."| && |"."| < |"//"|;
    assert StackNormal(".") == ".";
    assert forall i :: 0 <= i < |m.mps| ==> m.mps[i] != "" && m.mps[i][0] == '/';
  }

  /**
   Following the relative target of an accepted link from the directory of the moved link leads
   to the moved form of the place that was meant, and the initialiser accepts the link exactly
   when it is not a mount point itself.
   */
  lemma LinkSurvives(m: MountTable, name: string, d: seq<string>, l: string, linkR: string,
                     target: Target, targetR: string)
    requires GoodTable(m) && Clean([name]) && Clean(d + [l]) && target.Valid() && target.Meant(d) != []
    requires linkR != "" && Moves(m, name, Abs(d + [l]), linkR) && Moves(m, name, Abs(target.Meant(d)), targetR)
    requires |Tokens(linkR)| <= PARTS && |Tokens(targetR)| <= PARTS
    requires Base(MountOf(m, Abs(d + [l]))) == Base(MountOf(m, Abs(target.Meant(d))))
    ensures SymlinkTarget(m, name, Abs(d + [l]), linkR, target.Text()).Some?
    ensures var rel := SymlinkTarget(m, name, Abs(d + [l]), linkR, target.Text()).value;
            && ArrayNormal(Dirname(linkR) + "/" + rel) == targetR
            && (InitAccepts(linkR, rel) <==> Rest(MountOf(m, Abs(d + [l])), Abs(d + [l])) != "")
  {
    hide GoodTable, Clean, Abs, Moves, TargetPath, SymlinkTarget, Relative, Dirname, Base, Rest, InitAccepts,
         ArrayNormal, Tokens;
    TargetIsMeant(d, l, target);
    SurvivesAt(m, name, Abs(d + [l]), linkR, target.Text(), targetR);
  }

  // ---------------------------------------------------------------- the initialiser

  /** One path lies in the directory of another exactly if its components start with those of the other. */
  lemma WithinIsPrefix(parts: seq<string>, root: seq<string>)
    requires AllParts(parts) && AllParts(root)
    ensures Within(Abs(parts), Abs(root)) <==> root <= parts
  {
    hide Abs;
    if root <= parts {
      var tail := parts[|root|..];
      assert parts == root + tail;
      AbsConcat(root, tail);
      StartsWithSlashOrEnds(tail);
    }
    if Within(Abs(parts), Abs(root)) {
      var r := Abs(parts)[|Abs(root)|..];
      TokensOfAbs(parts);
      TokensOfAbs(root);
      assert Abs(parts) == Abs(root) + r;
      if r == "" {
        assert Abs(parts) == Abs(root);
      } else {
        assert Abs(parts) == Abs(root) + "/" + r[1..];
        TokensJoin(Abs(root), r[1..]);
      }
    }
  }

  /**
   Where the target leads: the components of the link's directory and of the target, as far as
   the array takes them.
   */
  predicate LeadsTo(dir: seq<string>, target: string, k: nat) {
    var toks := dir + Tokens(target);
    && k <= |toks| && (forall j :: 0 <= j < k ==> |Left(toks[..j])| < PARTS)
    && (k == |toks| || |Left(toks[..k])| == PARTS)
  }

  lemma Joined(dir: seq<string>, target: string, k: nat)
    requires Clean(dir) && LeadsTo(dir, target, k)
    ensures var left := Left((dir + Tokens(target))[..k]);
            ArrayNormal(Abs(dir) + "/" + target) == if left == [] then "/" else Abs(left)
  {
    hide Left, Abs, Tokens, ArrayNormal;
    CleanAreParts(dir);
    TokensOfAbs(dir);
    TokensJoin(Abs(dir), target);
    StartsWithSlash(dir, target);
    ArrayFollowsStack(Abs(dir) + "/" + target, k);
  }

  /**
   The initialiser creates a link below a replay root exactly if its target is relative and
   leads to a place below the same root.
   */
  lemma InitAcceptsExactly(base: seq<string>, name: string, dir: seq<string>, l: string, target: string, k: nat)
    requires Clean(base + [".ioriot", name] + dir + [l]) && MarkerFree(Abs(base))
    requires LeadsTo(base + [".ioriot", name] + dir, target, k)
    ensures var root := base + [".ioriot", name];
            var left := Left((root + dir + Tokens(target))[..k]);
            InitAccepts(Abs(root + dir + [l]), target) == (target != "" && target[0] != '/' && root <= left)
  {
    hide Left, Abs, Tokens, ArrayNormal, ReplayRoot, Within, Dirname, MarkerFree;
    var root := base + [".ioriot", name];
    var link := root + dir + [l];
    CleanAreParts(link);
    DirnameOfAbs(link);
    assert link[..|link| - 1] == root + dir;
    CleanFront(root + dir, l);
    Joined(root + dir, target, k);
    RootOfLink(base, name, dir, l);
    var left := Left((root + dir + Tokens(target))[..k]);
    LeftIsParts(root + dir, Tokens(target), k);
    assert forall i :: 0 <= i < |root| ==> link[i] == root[i];
    WithinIsPrefix(left, root);
    if left == [] {
      SlashIsOutside(base, name);
    }
  }

  lemma LeftIsParts(a: seq<string>, b: seq<string>, k: nat)
    requires Clean(a) && AllParts(b) && k <= |a + b|
    ensures AllParts(Left((a + b)[..k]))
  {
    hide Left;
    CleanAreParts(a);
    assert forall i :: 0 <= i < k ==> (a + b)[..k][i] == (a + b)[i];
    LeftIs((a + b)[..k]);
    CleanAreParts(Left((a + b)[..k]));
  }

  lemma SlashIsOutside(base: seq<string>, name: string)
    ensures !Within("/", Abs(base + [".ioriot", name]))
  {
    MarkerIsTwoParts(name);
    AbsConcat(base, [".ioriot", name]);
    assert |Abs(base + [".ioriot", name])| > 1;
  }

  lemma RootOfLink(base: seq<string>, name: string, dir: seq<string>, l: string)
    requires Clean(base + [".ioriot", name] + dir + [l]) && MarkerFree(Abs(base))
    ensures ReplayRoot(Abs(base + [".ioriot", name] + dir + [l])) == Some(Abs(base + [".ioriot", name]))
  {
    hide Abs, ReplayRoot, MarkerFree;
    var root := base + [".ioriot", name];
    assert root + dir + [l] == root + (dir + [l]);
    AbsConcat(root, dir + [l]);
    MarkerIsTwoParts(name);
    AbsConcat(base, [".ioriot", name]);
    StartsWithSlashOrEnds(dir + [l]);
    NotEmpty(dir, l);
    assert Part(name) by {
      assert (root + dir + [l])[|base| + 1] == name;
    }
    ReplayRootOfMoved(Abs(base), name, Abs(dir + [l]));
  }

  lemma NotEmpty(dir: seq<string>, l: string)
    ensures Abs(dir + [l]) != ""
  {
  }
}
