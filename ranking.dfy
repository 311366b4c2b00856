/**
 * Ranking the merged article list: `sorted(..., key=published, reverse=True)`,
 * a stable sort, newest first, whose ties keep their merge order; then the cap
 * `best[:50] or best[:len(best) - 1] or []`.
 */
module Ranking {
  import opened Seqs
  import opened Dedup
  import opened Timestamps
  import opened Articles

  /** The most articles a category shows. */
  const MaxArticles: nat := 50

  /** No article is published after an article before it. */
  ghost predicate NewestFirst(s: seq<Article>)
  {
    forall i, j :: 0 <= i < j < |s| ==> !Before(s[i].published, s[j].published)
  }

  /**
   * Places `x`, which came before every element of `s` in the input, in front of
   * the first element that is not strictly newer than it.
   */
  function Insert(x: Article, s: seq<Article>): seq<Article>
  {
    if s == [] then [x]
    else if Before(x.published, s[0].published) then [s[0]] + Insert(x, s[1..])
    else [x] + s
  }

  /** Python's stable `sorted` by `published` with `reverse=True`. */
  function SortNewestFirst(s: seq<Article>): seq<Article>
  {
    if s == [] then [] else Insert(s[0], SortNewestFirst(s[1..]))
  }

  /** The articles of `s` published at exactly `t`, in the order of `s`. */
  function PublishedAt(s: seq<Article>, t: StructTime): seq<Article>
  {
    Filter(s, (a: Article) => a.published == t)
  }

  lemma {:induction false} InsertPermutes(x: Article, s: seq<Article>)
    ensures multiset(Insert(x, s)) == multiset(s) + multiset{x}
  {
    if s != [] && Before(x.published, s[0].published) {
      InsertPermutes(x, s[1..]);
      assert s == [s[0]] + s[1..];
    }
  }

  lemma NewestFirstCons(x: Article, s: seq<Article>)
    requires NewestFirst(s)
    requires forall k :: 0 <= k < |s| ==> !Before(x.published, s[k].published)
    ensures NewestFirst([x] + s)
  {
    var r := [x] + s;
    forall i, j | 0 <= i < j < |r| ensures !Before(r[i].published, r[j].published) {
      if i > 0 {
        assert r[i] == s[i - 1] && r[j] == s[j - 1];
      } else {
        assert r[j] == s[j - 1];
      }
    }
  }

  lemma {:induction false} InsertSorted(x: Article, s: seq<Article>)
    requires NewestFirst(s)
    ensures NewestFirst(Insert(x, s))
  {
    if s == [] {
    } else if Before(x.published, s[0].published) {
      var rest := Insert(x, s[1..]);
      assert NewestFirst(s[1..]);
      InsertSorted(x, s[1..]);
      InsertPermutes(x, s[1..]);
      forall k | 0 <= k < |rest| ensures !Before(s[0].published, rest[k].published) {
        assert rest[k] in multiset(rest);
        if rest[k] == x {
          BeforeIsStrictTotalOrder(x.published, s[0].published, x.published);
        } else {
          assert rest[k] in multiset(s[1..]);
          var m :| 0 <= m < |s[1..]| && s[1..][m] == rest[k];
          assert s[1 + m] == rest[k];
        }
      }
      NewestFirstCons(s[0], rest);
    } else {
      forall k | 0 <= k < |s| ensures !Before(x.published, s[k].published) {
        if k > 0 {
          NotBeforeTransitive(x.published, s[0].published, s[k].published);
        }
      }
      NewestFirstCons(x, s);
    }
  }

  /** Inserting at the front of its tie group keeps every tie group in input order. */
  lemma {:induction false} InsertStable(x: Article, s: seq<Article>, t: StructTime)
    ensures PublishedAt(Insert(x, s), t) == PublishedAt([x] + s, t)
  {
    var p := (a: Article) => a.published == t;
    if s != [] && Before(x.published, s[0].published) {
      InsertStable(x, s[1..], t);
      FilterCons(s[0], Insert(x, s[1..]), p);
      FilterCons(x, s[1..], p);
      FilterCons(x, s, p);
      FilterCons(s[0], s[1..], p);
      assert s == [s[0]] + s[1..];
      BeforeIsStrictTotalOrder(x.published, x.published, x.published);
    }
  }

  /** The sort is a permutation of its input. */
  lemma {:induction false} SortPermutes(s: seq<Article>)
    ensures multiset(SortNewestFirst(s)) == multiset(s)
  {
    if s != [] {
      SortPermutes(s[1..]);
      InsertPermutes(s[0], SortNewestFirst(s[1..]));
      assert s == [s[0]] + s[1..];
    }
  }

  /** The sort puts the newest article first and never a newer after an older one. */
  lemma {:induction false} SortSorted(s: seq<Article>)
    ensures NewestFirst(SortNewestFirst(s))
  {
    if s != [] {
      SortSorted(s[1..]);
      InsertSorted(s[0], SortNewestFirst(s[1..]));
    }
  }

  /** Stability: articles with equal `published` keep their input order. */
  lemma {:induction false} SortStable(s: seq<Article>, t: StructTime)
    ensures PublishedAt(SortNewestFirst(s), t) == PublishedAt(s, t)
  {
    if s != [] {
      var p := (a: Article) => a.published == t;
      SortStable(s[1..], t);
      InsertStable(s[0], SortNewestFirst(s[1..]), t);
      FilterCons(s[0], SortNewestFirst(s[1..]), p);
      FilterCons(s[0], s[1..], p);
      assert s == [s[0]] + s[1..];
    }
  }

  /** Two sequences with the same elements have the same keys. */
  lemma SameKeys<T, K>(a: seq<T>, b: seq<T>, key: T -> K)
    requires multiset(a) == multiset(b)
    ensures KeysOf(a, key) == KeysOf(b, key)
  {
    forall k | k in KeysOf(a, key) ensures k in KeysOf(b, key) {
      var i :| 0 <= i < |a| && key(a[i]) == k;
      assert a[i] in multiset(b);
      var j :| 0 <= j < |b| && b[j] == a[i];
    }
    forall k | k in KeysOf(b, key) ensures k in KeysOf(a, key) {
      var i :| 0 <= i < |b| && key(b[i]) == k;
      assert b[i] in multiset(a);
      var j :| 0 <= j < |a| && a[j] == b[i];
    }
  }

  lemma DistinctKeysCons<T, K>(x: T, s: seq<T>, key: T -> K)
    requires DistinctKeys(s, key) && key(x) !in KeysOf(s, key)
    ensures DistinctKeys([x] + s, key)
  {
    var r := [x] + s;
    forall i, j | 0 <= i < j < |r| ensures key(r[i]) != key(r[j]) {
      assert r[j] == s[j - 1];
      if i > 0 {
        assert r[i] == s[i - 1];
      }
    }
  }

  /** The head of a key-distinct sequence has a key its tail does not have. */
  lemma DistinctKeysUncons<T, K>(s: seq<T>, key: T -> K)
    requires s != [] && DistinctKeys(s, key)
    ensures DistinctKeys(s[1..], key)
    ensures key(s[0]) !in KeysOf(s[1..], key)
    ensures KeysOf(s[1..], key) <= KeysOf(s, key)
  {
    var tail := s[1..];
    forall i | 0 <= i < |tail| ensures key(tail[i]) != key(s[0]) && key(tail[i]) in KeysOf(s, key) {
      assert tail[i] == s[i + 1];
    }
  }

  lemma {:induction false} InsertDistinct(x: Article, s: seq<Article>)
    requires DistinctKeys(s, ArticlePath) && ArticlePath(x) !in KeysOf(s, ArticlePath)
    ensures DistinctKeys(Insert(x, s), ArticlePath)
  {
    if s == [] {
    } else if Before(x.published, s[0].published) {
      var tail := s[1..];
      DistinctKeysUncons(s, ArticlePath);
      InsertDistinct(x, tail);
      InsertPermutes(x, tail);
      SameKeys(Insert(x, tail), tail + [x], ArticlePath);
      KeysOfSnoc(tail, x, ArticlePath);
      assert ArticlePath(s[0]) != ArticlePath(x) by {
        assert ArticlePath(s[0]) in KeysOf(s, ArticlePath);
      }
      DistinctKeysCons(s[0], Insert(x, tail), ArticlePath);
    } else {
      DistinctKeysCons(x, s, ArticlePath);
    }
  }

  /** Sorting keeps URL paths distinct when they were. */
  lemma {:induction false} SortKeepsDistinctPaths(s: seq<Article>)
    requires DistinctKeys(s, ArticlePath)
    ensures DistinctKeys(SortNewestFirst(s), ArticlePath)
  {
    if s != [] {
      var tail := s[1..];
      DistinctKeysUncons(s, ArticlePath);
      SortKeepsDistinctPaths(tail);
      SortPermutes(tail);
      SameKeys(SortNewestFirst(tail), tail, ArticlePath);
      InsertDistinct(s[0], SortNewestFirst(tail));
    }
  }

  /** `best[:50] or best[:len(best) - 1] or []`. */
  function TakeNewest(best: seq<Article>): seq<Article>
  {
    var first := SliceTo(best, MaxArticles);
    if first != [] then first
    else
      var second := SliceTo(best, |best| - 1);
      if second != [] then second else []
  }

  /** The two fallbacks never fire with a different result: the cap keeps exactly the first min(50, n). */
  lemma TakeNewestIsPrefix(best: seq<Article>)
    ensures |TakeNewest(best)| == if |best| < MaxArticles then |best| else MaxArticles
    ensures TakeNewest(best) == best[..|TakeNewest(best)|]
  {
  }
}
