/**
 * First-occurrence-wins deduplication of a sequence by a key: the loop that keeps
 * an element only when its key has not been seen yet. With the URL path as key it
 * is how the article list loses its duplicates; with the element itself as key it
 * is how one feed's equal records collapse to one.
 */
module Dedup {
  import opened Seqs

  /** The keys of all elements of `s`. */
  function KeysOf<T, K(==)>(s: seq<T>, key: T -> K): set<K>
  {
    set i | 0 <= i < |s| :: key(s[i])
  }

  /** No two elements of `s` have the same key. */
  ghost predicate DistinctKeys<T, K>(s: seq<T>, key: T -> K)
  {
    forall i, j :: 0 <= i < j < |s| ==> key(s[i]) != key(s[j])
  }

  /** Position `i` holds the first element of `s` with its key. */
  ghost predicate FirstWithKey<T, K>(s: seq<T>, key: T -> K, i: int)
  {
    0 <= i < |s| && forall j :: 0 <= j < i ==> key(s[j]) != key(s[i])
  }

  /**
   * The elements of `s` whose key was not carried by an earlier element, in the
   * order of `s`. Defined from the end, like the loop that appends to its result
   * and to its set of seen keys.
   */
  function DedupBy<T, K(==)>(s: seq<T>, key: T -> K): (r: seq<T>)
    ensures |r| <= |s|
  {
    if s == [] then []
    else
      var kept := DedupBy(s[..|s| - 1], key);
      if key(s[|s| - 1]) in KeysOf(kept, key) then kept else kept + [s[|s| - 1]]
  }

  lemma KeysOfSnoc<T, K>(s: seq<T>, x: T, key: T -> K)
    ensures KeysOf(s + [x], key) == KeysOf(s, key) + {key(x)}
  {
    var t := s + [x];
    assert forall i :: 0 <= i < |s| ==> t[i] == s[i];
    assert key(t[|s|]) == key(x);
  }

  /** Deduplication keeps every key of the input, and each key only once. */
  lemma {:induction false} DedupKeys<T, K>(s: seq<T>, key: T -> K)
    ensures KeysOf(DedupBy(s, key), key) == KeysOf(s, key)
    ensures DistinctKeys(DedupBy(s, key), key)
  {
    if s != [] {
      var init, x := s[..|s| - 1], s[|s| - 1];
      assert s == init + [x];
      var kept := DedupBy(init, key);
      DedupKeys(init, key);
      KeysOfSnoc(init, x, key);
      if key(x) !in KeysOf(kept, key) {
        KeysOfSnoc(kept, x, key);
        var r := kept + [x];
        forall i, j | 0 <= i < j < |r| ensures key(r[i]) != key(r[j]) {
          if j == |kept| {
            assert key(r[i]) in KeysOf(kept, key);
          }
        }
      }
    }
  }

  /** `idx` embeds `r` in `s` and points only at first occurrences of keys. */
  ghost predicate FirstOccurrenceWitness<T, K>(r: seq<T>, s: seq<T>, key: T -> K, idx: seq<nat>)
  {
    Embeds(r, s, idx) && forall k :: 0 <= k < |idx| ==> FirstWithKey(s, key, idx[k])
  }

  lemma FirstOccurrenceWitnessSnoc<T, K>(r: seq<T>, s: seq<T>, x: T, key: T -> K, idx: seq<nat>)
    requires FirstOccurrenceWitness(r, s, key, idx)
    ensures FirstOccurrenceWitness(r, s + [x], key, idx)
  {
    var t := s + [x];
    assert forall j :: 0 <= j < |s| ==> t[j] == s[j];
  }

  /**
   * Every kept element sits, in the input, at the first position carrying its key,
   * and the kept elements appear in input order.
   */
  lemma {:induction false} DedupFirstOccurrences<T, K>(s: seq<T>, key: T -> K)
    ensures exists idx :: FirstOccurrenceWitness(DedupBy(s, key), s, key, idx)
  {
    if s == [] {
      assert FirstOccurrenceWitness(DedupBy(s, key), s, key, []);
    } else {
      var init, x := s[..|s| - 1], s[|s| - 1];
      assert s == init + [x];
      var kept := DedupBy(init, key);
      DedupFirstOccurrences(init, key);
      var idx: seq<nat> :| FirstOccurrenceWitness(kept, init, key, idx);
      FirstOccurrenceWitnessSnoc(kept, init, x, key, idx);
      if key(x) in KeysOf(kept, key) {
        assert FirstOccurrenceWitness(DedupBy(s, key), s, key, idx);
      } else {
        DedupKeys(init, key);
        assert FirstWithKey(s, key, |s| - 1) by {
          forall j | 0 <= j < |s| - 1 ensures key(s[j]) != key(x) {
            assert s[j] == init[j];
            assert key(init[j]) in KeysOf(init, key);
          }
        }
        assert FirstOccurrenceWitness(DedupBy(s, key), s, key, idx + [|s| - 1]);
      }
    }
  }

  /** Subsequence: the output is the input with elements left out, order kept. */
  lemma DedupIsSubsequence<T, K>(s: seq<T>, key: T -> K)
    ensures IsSubsequence(DedupBy(s, key), s)
  {
    DedupFirstOccurrences(s, key);
  }

  /** For each key, the element kept is the first element of the input with that key. */
  lemma DedupKeepsFirst<T, K>(s: seq<T>, key: T -> K, i: int)
    requires FirstWithKey(s, key, i)
    ensures s[i] in DedupBy(s, key)
  {
    var r := DedupBy(s, key);
    DedupKeys(s, key);
    DedupFirstOccurrences(s, key);
    var idx: seq<nat> :| FirstOccurrenceWitness(r, s, key, idx);
    assert key(s[i]) in KeysOf(r, key);
    var k :| 0 <= k < |r| && key(r[k]) == key(s[i]);
    assert FirstWithKey(s, key, idx[k]);
    assert idx[k] == i;
  }

  /** A sequence whose keys are already distinct is left as it is. */
  lemma {:induction false} DedupOfDistinct<T, K>(s: seq<T>, key: T -> K)
    requires DistinctKeys(s, key)
    ensures DedupBy(s, key) == s
  {
    if s != [] {
      var init, x := s[..|s| - 1], s[|s| - 1];
      assert DistinctKeys(init, key);
      DedupOfDistinct(init, key);
      assert s == init + [x];
    }
  }

  /** Deduplicating twice is the same as deduplicating once. */
  lemma DedupIdempotent<T, K>(s: seq<T>, key: T -> K)
    ensures DedupBy(DedupBy(s, key), key) == DedupBy(s, key)
  {
    DedupKeys(s, key);
    DedupOfDistinct(DedupBy(s, key), key);
  }
}
