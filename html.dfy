/**
 * The markup stripper of the feed view: every match of the regular expression
 * `<.*?>` in a summary is replaced by one space. `.` matches any character but a
 * newline and `*?` is lazy, so a match runs from a `<` to the first `>` after it,
 * provided no newline comes in between; a `<` with no such `>` stays as it is.
 * Matching resumes after the replaced text, from left to right.
 */
module Html {
  import opened Wrappers

  /**
   * Where the lazy `.*?>` stops when started at the beginning of `t`: the index
   * of the first `>` in `t`, unless a newline or the end of `t` comes first.
   */
  function FindClose(t: string): (r: Option<nat>)
    ensures r.Some? ==> r.value < |t| && t[r.value] == '>'
    ensures r.Some? ==> forall k :: 0 <= k < r.value ==> t[k] != '>' && t[k] != '\n'
    ensures r.None? <==> NoCloseBeforeBreak(t)
  {
    if t == [] || t[0] == '\n' then None
    else if t[0] == '>' then Some(0)
    else
      match FindClose(t[1..])
      case None => None
      case Some(j) => Some(j + 1)
  }

  /** Every `>` in `t` has a newline somewhere before it. */
  ghost predicate NoCloseBeforeBreak(t: string)
  {
    forall k :: 0 <= k < |t| && t[k] == '>' ==> '\n' in t[..k]
  }

  /** `re.sub('<.*?>', ' ', s)`. */
  function StripTags(s: string): string
    decreases |s|
  {
    if s == [] then []
    else if s[0] == '<' then
      match FindClose(s[1..])
      case Some(j) => " " + StripTags(s[j + 2..])
      case None => "<" + StripTags(s[1..])
    else [s[0]] + StripTags(s[1..])
  }

  /** Nothing in `r` still matches `<.*?>`: between a `<` and a later `>` there is a newline. */
  ghost predicate NoTagLeft(r: string)
  {
    forall i, k :: 0 <= i < k < |r| && r[i] == '<' && r[k] == '>' ==> '\n' in r[i + 1..k]
  }

  /** A summary with no `<` comes back unchanged. */
  lemma {:induction false} StripTagsWithoutOpen(s: string)
    requires '<' !in s
    ensures StripTags(s) == s
  {
    if s != [] {
      StripTagsWithoutOpen(s[1..]);
    }
  }

  /** Text before the first `<` is copied as it is. */
  lemma {:induction false} StripTagsPlainPrefix(p: string, x: string)
    requires '<' !in p
    ensures StripTags(p + x) == p + StripTags(x)
  {
    if p != [] {
      assert (p + x)[0] == p[0] && (p + x)[1..] == p[1..] + x;
      StripTagsPlainPrefix(p[1..], x);
      assert p + x != [] && (p + x)[0] != '<';
      assert StripTags(p + x) == [p[0]] + StripTags(p[1..] + x);
      assert p + StripTags(x) == [p[0]] + (p[1..] + StripTags(x));
    } else {
      assert p + x == x;
    }
  }

  /** One match, `<` then text with no `>` and no newline then `>`, becomes one space. */
  lemma {:induction false} StripTagsOneTag(inner: string, rest: string)
    requires '>' !in inner && '\n' !in inner
    ensures StripTags("<" + inner + ">" + rest) == " " + StripTags(rest)
  {
    var s := "<" + inner + ">" + rest;
    var t := inner + ">" + rest;
    assert s[1..] == t;
    FindCloseAfter(inner, rest);
    assert s[|inner| + 2..] == rest;
  }

  lemma {:induction false} FindCloseAfter(inner: string, rest: string)
    requires '>' !in inner && '\n' !in inner
    ensures FindClose(inner + ">" + rest) == Some(|inner|)
  {
    if inner != [] {
      assert (inner + ">" + rest)[1..] == inner[1..] + ">" + rest;
      FindCloseAfter(inner[1..], rest);
    }
  }

  lemma NoCloseBeforeBreakTail(t: string)
    requires t != [] && t[0] != '\n' && NoCloseBeforeBreak(t)
    ensures NoCloseBeforeBreak(t[1..])
  {
    forall k | 0 <= k < |t| - 1 && t[1..][k] == '>' ensures '\n' in t[1..][..k] {
      assert '\n' in t[..k + 1];
      assert t[..k + 1] == [t[0]] + t[1..][..k];
    }
  }

  lemma NoCloseBeforeBreakHead(t: string)
    requires t != [] && NoCloseBeforeBreak(t)
    ensures t[0] != '>'
  {
    assert t[..0] == [];
  }

  lemma NoCloseBeforeBreakCons(c: char, t: string)
    requires c != '>' && NoCloseBeforeBreak(t)
    ensures NoCloseBeforeBreak([c] + t)
  {
    var u := [c] + t;
    forall k | 0 <= k < |u| && u[k] == '>' ensures '\n' in u[..k] {
      assert u[k] == t[k - 1];
      assert '\n' in t[..k - 1];
      assert u[..k] == [c] + t[..k - 1];
    }
  }

  /** Stripping never brings a `>` closer to the start than the first newline. */
  lemma {:induction false} StripTagsKeepsNoClose(t: string)
    requires NoCloseBeforeBreak(t)
    ensures NoCloseBeforeBreak(StripTags(t))
    decreases |t|
  {
    if t != [] && t[0] != '\n' {
      NoCloseBeforeBreakTail(t);
      StripTagsKeepsNoClose(t[1..]);
      NoCloseBeforeBreakHead(t);
      if t[0] == '<' {
        assert FindClose(t[1..]).None?;
      }
      NoCloseBeforeBreakCons(t[0], StripTags(t[1..]));
    } else if t != [] {
      var r := StripTags(t);
      assert r == "\n" + StripTags(t[1..]);
      forall k | 0 <= k < |r| && r[k] == '>' ensures '\n' in r[..k] {
        assert r[..k][0] == '\n';
      }
    }
  }

  lemma NoTagLeftCons(c: char, r: string)
    requires c != '<' && NoTagLeft(r)
    ensures NoTagLeft([c] + r)
  {
    var u := [c] + r;
    forall i, k | 0 <= i < k < |u| && u[i] == '<' && u[k] == '>' ensures '\n' in u[i + 1..k] {
      assert u[i] == r[i - 1] && u[k] == r[k - 1];
      assert u[i + 1..k] == r[i..k - 1];
    }
  }

  lemma NoTagLeftOpen(r: string)
    requires NoTagLeft(r) && NoCloseBeforeBreak(r)
    ensures NoTagLeft("<" + r)
  {
    var u := "<" + r;
    forall i, k | 0 <= i < k < |u| && u[i] == '<' && u[k] == '>' ensures '\n' in u[i + 1..k] {
      if i == 0 {
        assert r[k - 1] == '>';
        assert u[1..k] == r[..k - 1];
      } else {
        assert u[i] == r[i - 1] && u[k] == r[k - 1];
        assert u[i + 1..k] == r[i..k - 1];
      }
    }
  }

  /** After stripping, no `<` is followed by a `>` before the next newline. */
  lemma {:induction false} StripTagsLeavesNoTag(s: string)
    ensures NoTagLeft(StripTags(s))
    decreases |s|
  {
    if s != [] {
      if s[0] == '<' {
        match FindClose(s[1..])
        case Some(j) =>
          StripTagsLeavesNoTag(s[j + 2..]);
          NoTagLeftCons(' ', StripTags(s[j + 2..]));
        case None =>
          StripTagsLeavesNoTag(s[1..]);
          StripTagsKeepsNoClose(s[1..]);
          NoTagLeftOpen(StripTags(s[1..]));
      } else {
        StripTagsLeavesNoTag(s[1..]);
        NoTagLeftCons(s[0], StripTags(s[1..]));
      }
    }
  }

  /** Stripping never lengthens a summary. */
  lemma {:induction false} StripTagsShortens(s: string)
    ensures |StripTags(s)| <= |s|
    decreases |s|
  {
    if s != [] {
      if s[0] == '<' && FindClose(s[1..]).Some? {
        StripTagsShortens(s[FindClose(s[1..]).value + 2..]);
      } else {
        StripTagsShortens(s[1..]);
      }
    }
  }
}
