/**
 * Order-preserving selection from a sequence: Python's `[x for x in s if p(x)]`
 * and the notion of one sequence being a subsequence of another.
 */
module Seqs {

  /** `idx` picks the elements of `r` out of `s` at strictly increasing positions. */
  ghost predicate Embeds<T>(r: seq<T>, s: seq<T>, idx: seq<nat>)
  {
    && |idx| == |r|
    && (forall k :: 0 <= k < |idx| ==> idx[k] < |s| && r[k] == s[idx[k]])
    && (forall k, l :: 0 <= k < l < |idx| ==> idx[k] < idx[l])
  }

  /** `r` is `s` with some elements left out and the rest in their original order. */
  ghost predicate IsSubsequence<T>(r: seq<T>, s: seq<T>)
  {
    exists idx :: Embeds(r, s, idx)
  }

  /** Leaving out elements twice is leaving them out once. */
  lemma SubsequenceTransitive<T>(a: seq<T>, b: seq<T>, c: seq<T>)
    requires IsSubsequence(a, b) && IsSubsequence(b, c)
    ensures IsSubsequence(a, c)
  {
    var ia: seq<nat> :| Embeds(a, b, ia);
    var ib: seq<nat> :| Embeds(b, c, ib);
    var idx: seq<nat> := seq(|ia|, k requires 0 <= k < |ia| => ib[ia[k]]);
    assert Embeds(a, c, idx);
  }

  /**
   * The elements of `s` that satisfy `p`, in the order of `s`. Defined from the
   * end so that it follows a loop that appends to its result.
   */
  function Filter<T>(s: seq<T>, p: T -> bool): (r: seq<T>)
    ensures |r| <= |s|
    ensures forall i :: 0 <= i < |r| ==> r[i] in s && p(r[i])
    ensures forall i :: 0 <= i < |s| && p(s[i]) ==> s[i] in r
  {
    if s == [] then []
    else
      var init := Filter(s[..|s| - 1], p);
      assert forall i :: 0 <= i < |s| - 1 ==> s[..|s| - 1][i] == s[i];
      if p(s[|s| - 1]) then init + [s[|s| - 1]] else init
  }

  /** Filtering a sequence extended by one element extends the filtered sequence by at most that element. */
  lemma FilterSnoc<T>(s: seq<T>, x: T, p: T -> bool)
    ensures Filter(s + [x], p) == Filter(s, p) + (if p(x) then [x] else [])
  {
    assert (s + [x])[..|s|] == s;
  }

  /** Filtering keeps every occurrence of a kept element and none of a dropped one. */
  lemma {:induction false} FilterCount<T>(s: seq<T>, p: T -> bool, x: T)
    ensures multiset(Filter(s, p))[x] == if p(x) then multiset(s)[x] else 0
  {
    if s != [] {
      var init := s[..|s| - 1];
      FilterCount(init, p, x);
      assert s == init + [s[|s| - 1]];
    }
  }

  lemma {:induction false} FilterIsSubsequence<T>(s: seq<T>, p: T -> bool)
    ensures IsSubsequence(Filter(s, p), s)
  {
    if s == [] {
      assert Embeds<T>([], s, []);
    } else {
      var init := s[..|s| - 1];
      FilterIsSubsequence(init, p);
      var idx: seq<nat> :| Embeds(Filter(init, p), init, idx);
      if p(s[|s| - 1]) {
        assert Embeds(Filter(s, p), s, idx + [|s| - 1]);
      } else {
        assert Embeds(Filter(s, p), s, idx);
      }
    }
  }

  /** A predicate that holds nowhere keeps nothing. */
  lemma {:induction false} FilterNone<T>(s: seq<T>, p: T -> bool)
    requires forall i :: 0 <= i < |s| ==> !p(s[i])
    ensures Filter(s, p) == []
  {
    if s != [] {
      FilterNone(s[..|s| - 1], p);
    }
  }

  /** Filtering a sequence with one more element in front. */
  lemma {:induction false} FilterCons<T>(x: T, s: seq<T>, p: T -> bool)
    ensures Filter([x] + s, p) == (if p(x) then [x] else []) + Filter(s, p)
  {
    if s == [] {
      assert [x] + s == [] + [x];
      FilterSnoc([], x, p);
    } else {
      var init, last := s[..|s| - 1], s[|s| - 1];
      assert [x] + s == ([x] + init) + [last];
      assert s == init + [last];
      FilterSnoc([x] + init, last, p);
      FilterSnoc(init, last, p);
      FilterCons(x, init, p);
    }
  }

  /** Python's slice `s[:k]`: a negative `k` counts from the end, and the bounds are clipped. */
  function SliceTo<T>(s: seq<T>, k: int): (r: seq<T>)
    ensures |r| <= |s| && r == s[..|r|]
    ensures k >= 0 ==> |r| == if k < |s| then k else |s|
  {
    if k >= 0 then s[..if k < |s| then k else |s|]
    else if |s| + k > 0 then s[..|s| + k]
    else []
  }

  /** `a` is a prefix of `b`. */
  predicate IsPrefix<T(==)>(a: seq<T>, b: seq<T>)
  {
    |a| <= |b| && a == b[..|a|]
  }

  /** Filtering a prefix gives a prefix of the filtered sequence. */
  lemma {:induction false} FilterOfPrefix<T>(s: seq<T>, n: nat, p: T -> bool)
    requires n <= |s|
    ensures IsPrefix(Filter(s[..n], p), Filter(s, p))
    decreases |s|
  {
    if n < |s| {
      var init := s[..|s| - 1];
      assert init[..n] == s[..n];
      FilterOfPrefix(init, n, p);
    } else {
      assert s[..n] == s;
    }
  }
}
