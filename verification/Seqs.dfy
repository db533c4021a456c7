/** Options and filtered sequences, shared by every other module. */
module Seqs {

  datatype Option<+T> = None | Some(value: T)

  /** The elements of `s` that satisfy `keep`, in order. */
  function Filter<T>(s: seq<T>, keep: T -> bool): (r: seq<T>)
    ensures |r| <= |s|
    ensures forall x :: x in r ==> x in s && keep(x)
    ensures forall x :: x in s && keep(x) ==> x in r
  {
    if s == [] then []
    else
      var last := s[|s| - 1];
      assert s == s[..|s| - 1] + [last];
      Filter(s[..|s| - 1], keep) + (if keep(last) then [last] else [])
  }

  lemma FilterSnoc<T>(s: seq<T>, x: T, keep: T -> bool)
    ensures Filter(s + [x], keep) == Filter(s, keep) + (if keep(x) then [x] else [])
  {
    assert (s + [x])[..|s|] == s;
  }

  lemma FilterDrops<T>(s: seq<T>, x: T, keep: T -> bool)
    requires !keep(x)
    ensures Filter(s + [x], keep) == Filter(s, keep)
  {
    FilterSnoc(s, x, keep);
  }

  lemma {:induction false} FilterConcat<T>(s: seq<T>, t: seq<T>, keep: T -> bool)
    ensures Filter(s + t, keep) == Filter(s, keep) + Filter(t, keep)
    decreases |t|
  {
    if t == [] {
      assert s + t == s;
    } else {
      var front, last := t[..|t| - 1], t[|t| - 1];
      assert s + t == (s + front) + [last];
      FilterSnoc(s + front, last, keep);
      FilterConcat(s, front, keep);
    }
  }

  /** Filtering keeps prefixes. */
  lemma FilterPrefix<T>(s: seq<T>, t: seq<T>, keep: T -> bool)
    requires s <= t
    ensures Filter(s, keep) <= Filter(t, keep)
  {
    assert t == s + t[|s|..];
    FilterConcat(s, t[|s|..], keep);
  }

  /** Filtering by a condition and then by a stronger one is filtering by the stronger one. */
  lemma {:induction false} FilterTwice<T>(s: seq<T>, p: T -> bool, q: T -> bool)
    requires forall x :: x in s && q(x) ==> p(x)
    ensures Filter(Filter(s, p), q) == Filter(s, q)
    decreases |s|
  {
    if s == [] {
    } else {
      var front, last := s[..|s| - 1], s[|s| - 1];
      FilterTwice(front, p, q);
      FilterConcat(Filter(front, p), if p(last) then [last] else [], q);
    }
  }

  lemma {:induction false} FilterAll<T>(s: seq<T>, p: T -> bool)
    requires forall x :: x in s ==> p(x)
    ensures Filter(s, p) == s
    decreases |s|
  {
    if s == [] {
    } else {
      assert s == s[..|s| - 1] + [s[|s| - 1]];
      FilterAll(s[..|s| - 1], p);
    }
  }

  lemma {:induction false} FilterNone<T>(s: seq<T>, p: T -> bool)
    requires forall x :: x in s ==> !p(x)
    ensures Filter(s, p) == []
    decreases |s|
  {
    if s == [] {
    } else {
      FilterNone(s[..|s| - 1], p);
    }
  }

  /** Multiplicities survive a filter that keeps the element. */
  lemma {:induction false} FilterMultiset<T>(s: seq<T>, p: T -> bool, x: T)
    requires p(x)
    ensures multiset(Filter(s, p))[x] == multiset(s)[x]
    decreases |s|
  {
    if s == [] {
    } else {
      assert s == s[..|s| - 1] + [s[|s| - 1]];
      FilterMultiset(s[..|s| - 1], p, x);
    }
  }

  function Map<A, B>(s: seq<A>, f: A -> B): (r: seq<B>)
    ensures |r| == |s|
    ensures forall i :: 0 <= i < |s| ==> r[i] == f(s[i])
  {
    seq(|s|, i requires 0 <= i < |s| => f(s[i]))
  }

  lemma MapSnoc<A, B>(s: seq<A>, x: A, f: A -> B)
    ensures Map(s + [x], f) == Map(s, f) + [f(x)]
  {
  }

  lemma MapConcat<A, B>(s: seq<A>, t: seq<A>, f: A -> B)
    ensures Map(s + t, f) == Map(s, f) + Map(t, f)
  {
  }

  lemma MapPrefix<A, B>(s: seq<A>, t: seq<A>, f: A -> B)
    requires s <= t
    ensures Map(s, f) <= Map(t, f)
  {
  }

  lemma FilterMapSnoc<A, B>(front: seq<A>, last: A, f: A -> B, p: A -> bool, q: B -> bool)
    requires Map(Filter(front, p), f) == Filter(Map(front, f), q) && p(last) == q(f(last))
    ensures Map(Filter(front + [last], p), f) == Filter(Map(front + [last], f), q)
  {
    hide Filter, Map;
    MapSnoc(front, last, f);
    FilterSnoc(front, last, p);
    FilterSnoc(Map(front, f), f(last), q);
    if p(last) {
      MapSnoc(Filter(front, p), last, f);
    } else {
      FilterDrops(front, last, p);
      FilterDrops(Map(front, f), f(last), q);
    }
  }

  /** Filtering commutes with mapping. */
  lemma {:induction false} FilterMap<A, B>(s: seq<A>, f: A -> B, p: A -> bool, q: B -> bool)
    requires forall x :: x in s ==> p(x) == q(f(x))
    ensures Map(Filter(s, p), f) == Filter(Map(s, f), q)
    decreases |s|
  {
    if s == [] {
    } else {
      var front, last := s[..|s| - 1], s[|s| - 1];
      assert s == front + [last];
      assert forall x :: x in front ==> x in s;
      FilterMap(front, f, p, q);
      FilterMapSnoc(front, last, f, p, q);
    }
  }
}
