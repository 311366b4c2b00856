/**
 * The two parts of a URL the feed view uses: `urlparse(u).netloc` (shown as the
 * article's website) and `urlparse(u).path` (the key under which articles are
 * deduplicated). The splitting follows Python 3's `urllib.parse`: an optional
 * scheme before the first `:`, a network location after `//` up to the first `/`,
 * `?` or `#`, then the fragment and the query are cut off, and for the schemes
 * that use parameters the `;params` of the last path segment as well.
 */
module Urls {
  import opened Text

  /** Position of the first character of `s` that is in `cs`; `|s|` when there is none. */
  function FirstIndexIn(s: string, cs: set<char>): (i: nat)
    ensures i <= |s|
    ensures forall k :: 0 <= k < i ==> s[k] !in cs
    ensures i < |s| ==> s[i] in cs
  {
    if s == [] then 0 else if s[0] in cs then 0 else 1 + FirstIndexIn(s[1..], cs)
  }

  /** Position of the last `c` in `s`, or -1, as Python's `s.rfind(c)`. */
  function LastIndexOf(s: string, c: char): (i: int)
    ensures -1 <= i < |s|
    ensures i >= 0 ==> s[i] == c
    ensures forall k :: i < k < |s| ==> s[k] != c
  {
    if s == [] then -1
    else if s[|s| - 1] == c then |s| - 1
    else LastIndexOf(s[..|s| - 1], c)
  }

  predicate IsAsciiLetter(c: char)
  {
    'a' <= c <= 'z' || 'A' <= c <= 'Z'
  }

  /** The characters Python allows in a URL scheme. */
  predicate IsSchemeChar(c: char)
  {
    IsAsciiLetter(c) || IsDigit(c) || c == '+' || c == '-' || c == '.'
  }

  /** The schemes for which `urlparse` splits `;params` off the path. */
  const UsesParams: set<string> := {"", "ftp", "hdl", "prospero", "http", "imap", "https", "shttp",
                                    "rtsp", "rtsps", "rtspu", "sip", "sips", "mms", "sftp", "tel"}

  /**
   * The scheme (lowered) and the rest: a scheme is taken only when the first `:`
   * is preceded by a letter followed by scheme characters.
   */
  function SplitScheme(url: string): (string, string)
  {
    var i := FirstIndexIn(url, {':'});
    if 0 < i < |url| && IsAsciiLetter(url[0]) && forall k :: 0 <= k < i ==> IsSchemeChar(url[k])
    then (Lower(url[..i]), url[i + 1..])
    else ("", url)
  }

  /** After `//`, the network location runs up to the first `/`, `?` or `#`. */
  function SplitNetloc(rest: string): (string, string)
  {
    if StartsWith(rest, "//") then
      var d := 2 + FirstIndexIn(rest[2..], {'/', '?', '#'});
      (rest[2..d], rest[d..])
    else ("", rest)
  }

  /** What is left once the fragment (from the first `#`) and the query (from the first `?`) are cut off. */
  function CutQueryAndFragment(rest: string): string
  {
    var a := rest[..FirstIndexIn(rest, {'#'})];
    a[..FirstIndexIn(a, {'?'})]
  }

  /** The path without the `;params` of its last segment. */
  function CutParams(path: string): string
  {
    var slash := LastIndexOf(path, '/');
    if slash >= 0 then
      var i := slash + FirstIndexIn(path[slash..], {';'});
      path[..i]
    else path[..FirstIndexIn(path, {';'})]
  }

  /** `urlparse(url).netloc`. */
  function Netloc(url: string): string
  {
    SplitNetloc(SplitScheme(url).1).0
  }

  /** `urlparse(url).path`. */
  function Path(url: string): string
  {
    var (scheme, rest) := SplitScheme(url);
    var p := CutQueryAndFragment(SplitNetloc(rest).1);
    if scheme in UsesParams && ';' in p then CutParams(p) else p
  }

  /** A host never contains a path, query or fragment separator. */
  lemma NetlocShape(url: string)
    ensures '/' !in Netloc(url) && '?' !in Netloc(url) && '#' !in Netloc(url)
  {
    var rest := SplitScheme(url).1;
    if StartsWith(rest, "//") {
      var t := rest[2..];
      var d := FirstIndexIn(t, {'/', '?', '#'});
      assert Netloc(url) == t[..d];
    }
  }

  /** A path never contains a query or fragment separator. */
  lemma PathShape(url: string)
    ensures '?' !in Path(url) && '#' !in Path(url)
  {
    var p := CutQueryAndFragment(SplitNetloc(SplitScheme(url).1).1);
    CutQueryAndFragmentShape(SplitNetloc(SplitScheme(url).1).1);
    if ';' in p {
      CutParamsPrefix(p);
      PrefixAvoids(p, |CutParams(p)|, '?');
      PrefixAvoids(p, |CutParams(p)|, '#');
    }
  }

  lemma CutQueryAndFragmentShape(rest: string)
    ensures '?' !in CutQueryAndFragment(rest) && '#' !in CutQueryAndFragment(rest)
  {
    var a := rest[..FirstIndexIn(rest, {'#'})];
    var p := a[..FirstIndexIn(a, {'?'})];
    assert forall k :: 0 <= k < |p| ==> p[k] == rest[k];
  }

  lemma CutParamsPrefix(p: string)
    ensures |CutParams(p)| <= |p| && CutParams(p) == p[..|CutParams(p)|]
  {
  }

  lemma PrefixAvoids(s: string, n: nat, c: char)
    requires n <= |s| && c !in s
    ensures c !in s[..n]
  {
    assert forall k :: 0 <= k < n ==> s[..n][k] == s[k];
  }

  lemma {:induction false} FirstIndexInAppend(a: string, b: string, cs: set<char>)
    ensures FirstIndexIn(a + b, cs) == if FirstIndexIn(a, cs) < |a| then FirstIndexIn(a, cs) else |a| + FirstIndexIn(b, cs)
  {
    if a != [] {
      assert (a + b)[1..] == a[1..] + b;
      FirstIndexInAppend(a[1..], b, cs);
    } else {
      assert a + b == b;
    }
  }

  lemma SplitSchemeQuery(u: string, q: string)
    requires '?' !in u
    ensures SplitScheme(u + "?" + q) == (SplitScheme(u).0, SplitScheme(u).1 + "?" + q)
  {
    var x := u + "?" + q;
    assert x == u + ("?" + q);
    FirstIndexInAppend(u, "?" + q, {':'});
    var iu := FirstIndexIn(u, {':'});
    var ix := FirstIndexIn(x, {':'});
    if iu < |u| {
      assert x[..ix] == u[..iu];
      assert x[ix + 1..] == u[iu + 1..] + "?" + q;
      assert forall k :: 0 <= k < iu ==> x[k] == u[k];
    } else {
      assert ix > |u|;
      assert x[|u|] == '?' && !IsSchemeChar(x[|u|]);
    }
  }

  lemma SplitNetlocQuery(r: string, q: string)
    requires '?' !in r && '#' !in r
    ensures SplitNetloc(r + "?" + q).0 == SplitNetloc(r).0
    ensures SplitNetloc(r + "?" + q).1 == SplitNetloc(r).1 + "?" + q
    ensures '?' !in SplitNetloc(r).1 && '#' !in SplitNetloc(r).1
  {
    var x := r + "?" + q;
    if StartsWith(r, "//") {
      assert StartsWith(x, "//");
      var t := r[2..];
      assert x[2..] == t + ("?" + q);
      FirstIndexInAppend(t, "?" + q, {'/', '?', '#'});
      var d := FirstIndexIn(t, {'/', '?', '#'});
      assert x[2..2 + d] == t[..d];
      assert x[2 + d..] == r[2 + d..] + "?" + q;
    } else {
      assert !StartsWith(x, "//") by {
        if |r| >= 2 {
          assert x[..2] == r[..2];
        } else {
          assert x[|r|] == '?';
        }
      }
    }
  }

  lemma CutQueryAndFragmentQuery(r: string, q: string)
    requires '?' !in r && '#' !in r
    ensures CutQueryAndFragment(r + "?" + q) == r
    ensures CutQueryAndFragment(r) == r
  {
    var x := r + "?" + q;
    assert x == r + ("?" + q);
    FirstIndexInAppend(r, "?" + q, {'#'});
    var f := FirstIndexIn(x, {'#'});
    var a := x[..f];
    assert a == r + x[|r|..f];
    FirstIndexInAppend(r, x[|r|..f], {'?'});
    assert a[..|r|] == r;
  }

  /** A query string changes neither the host nor the path: `a?x` and `a?y` are duplicates. */
  lemma PathIgnoresQuery(u: string, q: string)
    requires '?' !in u && '#' !in u
    ensures Path(u + "?" + q) == Path(u)
    ensures Netloc(u + "?" + q) == Netloc(u)
  {
    SplitSchemeQuery(u, q);
    var rest := SplitScheme(u).1;
    assert forall k :: 0 <= k < |rest| ==> rest[k] in u by {
      var i := FirstIndexIn(u, {':'});
      forall k | 0 <= k < |rest| ensures rest[k] in u {
        if rest != u {
          assert rest[k] == u[i + 1 + k];
        }
      }
    }
    SplitNetlocQuery(rest, q);
    CutQueryAndFragmentQuery(SplitNetloc(rest).1, q);
  }

  lemma SplitSchemePlain(scheme: string, rest: string)
    requires |scheme| > 0 && IsAsciiLetter(scheme[0])
    requires forall k :: 0 <= k < |scheme| ==> IsSchemeChar(scheme[k])
    ensures SplitScheme(scheme + ":" + rest) == (Lower(scheme), rest)
  {
    var url := scheme + ":" + rest;
    assert url == scheme + (":" + rest);
    FirstIndexInAppend(scheme, ":" + rest, {':'});
    assert forall k :: 0 <= k < |scheme| ==> scheme[k] != ':' by {
      forall k | 0 <= k < |scheme| ensures scheme[k] != ':' {
        assert IsSchemeChar(scheme[k]);
      }
    }
    assert FirstIndexIn(scheme, {':'}) == |scheme|;
    assert url[..|scheme|] == scheme && url[|scheme| + 1..] == rest;
  }

  lemma SplitNetlocPlain(host: string, path: string)
    requires forall k :: 0 <= k < |host| ==> host[k] != '/' && host[k] != '?' && host[k] != '#'
    requires path == [] || path[0] == '/'
    ensures SplitNetloc("//" + host + path) == (host, path)
  {
    var rest := "//" + host + path;
    assert StartsWith(rest, "//");
    assert rest[2..] == host + path;
    FirstIndexInAppend(host, path, {'/', '?', '#'});
    var d := FirstIndexIn(host + path, {'/', '?', '#'});
    assert d == |host| by {
      if path != [] {
        assert (host + path)[|host|] == '/';
      }
    }
    assert rest[2..2 + d] == host && rest[2 + d..] == path;
  }

  /** A plain `scheme://host/path` URL splits into its host and its path. */
  lemma SplitPlainUrl(scheme: string, host: string, path: string)
    requires |scheme| > 0 && IsAsciiLetter(scheme[0])
    requires forall k :: 0 <= k < |scheme| ==> IsSchemeChar(scheme[k])
    requires forall k :: 0 <= k < |host| ==> host[k] != '/' && host[k] != '?' && host[k] != '#'
    requires path == [] || path[0] == '/'
    requires forall k :: 0 <= k < |path| ==> path[k] != '?' && path[k] != '#' && path[k] != ';'
    ensures Netloc(scheme + "://" + host + path) == host
    ensures Path(scheme + "://" + host + path) == path
  {
    assert scheme + "://" + host + path == scheme + ":" + ("//" + host + path);
    SplitSchemePlain(scheme, "//" + host + path);
    SplitNetlocPlain(host, path);
    CutQueryAndFragmentPlain(path);
  }

  lemma CutQueryAndFragmentPlain(path: string)
    requires forall k :: 0 <= k < |path| ==> path[k] != '?' && path[k] != '#' && path[k] != ';'
    ensures CutQueryAndFragment(path) == path && ';' !in path
  {
    assert FirstIndexIn(path, {'#'}) == |path|;
    assert path[..|path|] == path;
    assert FirstIndexIn(path, {'?'}) == |path|;
  }
}
