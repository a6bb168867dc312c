/** Sequence helpers with the meaning of JavaScript's array methods: `filter`, and a
    left-to-right `reduce` that sums a weight over the elements. */
module Lists {

  /** `Array.prototype.filter`: the elements that satisfy `p`, in their original order. */
  function Filter<T>(s: seq<T>, p: T -> bool): (r: seq<T>)
    ensures |r| <= |s|
    ensures forall i :: 0 <= i < |r| ==> p(r[i])
  {
    if s == [] then [] else Filter(s[..|s| - 1], p) + (if p(s[|s| - 1]) then [s[|s| - 1]] else [])
  }

  /** `r` is `s` with some elements deleted: an increasing choice of positions of `s` spells `r`. */
  ghost predicate IsSubsequence<T>(r: seq<T>, s: seq<T>) {
    exists idx: seq<nat> :: Spells(idx, r, s)
  }

  /** The positions `idx` of `s`, increasing, spell out `r`. */
  ghost predicate Spells<T>(idx: seq<nat>, r: seq<T>, s: seq<T>) {
    && |idx| == |r|
    && (forall k :: 0 <= k < |idx| ==> idx[k] < |s| && r[k] == s[idx[k]])
    && (forall k, l :: 0 <= k < l < |idx| ==> idx[k] < idx[l])
  }

  /** If every element satisfies the predicate, filtering keeps the whole sequence. */
  lemma {:induction false} FilterKeepsAll<T>(s: seq<T>, p: T -> bool)
    requires forall i :: 0 <= i < |s| ==> p(s[i])
    ensures Filter(s, p) == s
  {
    if s != [] {
      FilterKeepsAll(s[..|s| - 1], p);
      assert s[..|s| - 1] + [s[|s| - 1]] == s;
    }
  }

  /** Filtering keeps every occurrence of an element that satisfies the predicate and no
      occurrence of one that does not. */
  lemma {:induction false} FilterMultiplicity<T>(s: seq<T>, p: T -> bool, x: T)
    ensures multiset(Filter(s, p))[x] == if p(x) then multiset(s)[x] else 0
  {
    if s != [] {
      var init, last := s[..|s| - 1], s[|s| - 1];
      FilterMultiplicity(init, p, x);
      assert s == init + [last];
      assert multiset(s) == multiset(init) + multiset{last};
    }
  }

  /** Filtering keeps the original order: its result is a subsequence of its input. */
  lemma {:induction false} FilterIsSubsequence<T>(s: seq<T>, p: T -> bool)
    ensures IsSubsequence(Filter(s, p), s)
  {
    var idx := FilterPositions(s, p);
    assert Spells(idx, Filter(s, p), s);
  }

  /** The positions of `s` that `Filter` keeps, in increasing order. */
  lemma {:induction false} FilterPositions<T>(s: seq<T>, p: T -> bool) returns (idx: seq<nat>)
    ensures Spells(idx, Filter(s, p), s)
    ensures forall k :: 0 <= k < |idx| ==> idx[k] < |s|
  {
    if s == [] {
      idx := [];
    } else {
      var init, last := s[..|s| - 1], s[|s| - 1];
      var prev := FilterPositions(init, p);
      var r := Filter(s, p);
      var ri := Filter(init, p);
      assert r == ri + (if p(last) then [last] else []);
      if p(last) {
        idx := prev + [|s| - 1];
        forall k | 0 <= k < |idx|
          ensures idx[k] < |s| && r[k] == s[idx[k]]
        {
          if k < |prev| {
            assert r[k] == ri[k] == init[prev[k]];
          }
        }
      } else {
        idx := prev;
        forall k | 0 <= k < |idx|
          ensures idx[k] < |s| && r[k] == s[idx[k]]
        {
          assert r[k] == ri[k] == init[prev[k]];
        }
      }
    }
  }

  /** `reduce((total, x) => total + w(x), 0)`, taken from left to right. */
  function SumBy<T>(s: seq<T>, w: T -> int): int {
    if s == [] then 0 else SumBy(s[..|s| - 1], w) + w(s[|s| - 1])
  }

  lemma SumByAppend<T>(s: seq<T>, x: T, w: T -> int)
    ensures SumBy(s + [x], w) == SumBy(s, w) + w(x)
  {
    assert (s + [x])[..|s|] == s;
  }

  lemma {:induction false} SumByNonNegative<T>(s: seq<T>, w: T -> int)
    requires forall i :: 0 <= i < |s| ==> w(s[i]) >= 0
    ensures SumBy(s, w) >= 0
  {
    if s != [] {
      SumByNonNegative(s[..|s| - 1], w);
    }
  }

  /** With non-negative weights, a stronger filter never gives a larger sum. */
  lemma {:induction false} SumByFilterMonotone<T>(s: seq<T>, p: T -> bool, q: T -> bool, w: T -> int)
    requires forall i :: 0 <= i < |s| ==> (p(s[i]) ==> q(s[i]))
    requires forall i :: 0 <= i < |s| ==> w(s[i]) >= 0
    ensures SumBy(Filter(s, p), w) <= SumBy(Filter(s, q), w)
  {
    if s != [] {
      var init, last := s[..|s| - 1], s[|s| - 1];
      SumByFilterMonotone(init, p, q, w);
      var fp, fq := Filter(init, p), Filter(init, q);
      if p(last) {
        SumByAppend(fp, last, w);
        SumByAppend(fq, last, w);
      } else if q(last) {
        SumByAppend(fq, last, w);
        assert Filter(s, p) == fp;
      } else {
        assert Filter(s, p) == fp && Filter(s, q) == fq;
      }
    }
  }

  /** The filtered sum over a prefix grown by one element. */
  lemma SumByFilterStep<T>(s: seq<T>, p: T -> bool, w: T -> int, i: int)
    requires 0 <= i < |s|
    ensures SumBy(Filter(s[..i + 1], p), w) == SumBy(Filter(s[..i], p), w) + (if p(s[i]) then w(s[i]) else 0)
  {
    var t := s[..i + 1];
    assert t[..|t| - 1] == s[..i] && t[|t| - 1] == s[i];
    assert Filter(t, p) == Filter(s[..i], p) + (if p(s[i]) then [s[i]] else []);
    if p(s[i]) {
      SumByAppend(Filter(s[..i], p), s[i], w);
    } else {
      assert Filter(t, p) == Filter(s[..i], p);
    }
  }

  /** No element occurs twice. */
  predicate NoDuplicates<T(==)>(s: seq<T>) {
    forall k, l :: 0 <= k < l < |s| ==> s[k] != s[l]
  }

  /** An element is kept by `Filter` exactly when it occurs in the input and satisfies `p`. */
  lemma FilterMembership<T>(s: seq<T>, p: T -> bool, x: T)
    ensures x in Filter(s, p) <==> x in s && p(x)
  {
    FilterMultiplicity(s, p, x);
  }

  /** The elements of a set, each once, in an order the caller cannot rely on (a directory
      listing, the documents a query returns). */
  method Enumerate<T>(s: set<T>) returns (r: seq<T>)
    ensures forall x :: x in r <==> x in s
    ensures |r| == |s| && NoDuplicates(r)
  {
    r := [];
    var rest := s;
    while rest != {}
      invariant rest <= s
      invariant forall x :: x in r <==> x in s && x !in rest
      invariant |r| + |rest| == |s|
      invariant NoDuplicates(r)
      decreases |rest|
    {
      var x :| x in rest;
      r := r + [x];
      rest := rest - {x};
    }
  }

  /** Growing a prefix by one element. */
  lemma PrefixStep<T>(s: seq<T>, i: int)
    requires 0 <= i < |s|
    ensures s[..i + 1] == s[..i] + [s[i]]
  {
  }

  /** The elements of a sequence grown by one element. */
  lemma ElementsStep<T>(s: seq<T>, x: T)
    ensures (set y | y in s + [x]) == (set y | y in s) + {x}
  {
  }

  /** Appending to the tail of a concatenation. */
  lemma AppendStep<T>(a: seq<T>, b: seq<T>, x: T)
    ensures a + b + [x] == a + (b + [x])
  {
  }

  /** A prefix of a sequence without duplicates has none either. */
  lemma PrefixNoDuplicates<T>(s: seq<T>, i: int)
    requires NoDuplicates(s) && 0 <= i <= |s|
    ensures NoDuplicates(s[..i])
  {
  }

  /** A sequence that holds exactly the elements of a set has that set as its elements. */
  lemma ElementsOfListing<T>(s: set<T>, r: seq<T>)
    requires forall x :: x in r <==> x in s
    ensures (set y | y in r) == s
  {
  }
}
