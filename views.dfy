/**
 * The article pipeline of the category view. Per source: read the feed's entries,
 * keep only tag-matching ones when the feed is long, take the first ten, build
 * records, drop stale ones and collapse equal ones. Per category: chain the
 * sources' lists, drop articles whose URL path was seen before, sort newest
 * first, keep fifty, and render dates for display.
 *
 * Fetching and parsing a feed is the parameter `parse`; following a redirector
 * link to its final host is the parameter `resolve`; today's year is
 * `currentYear`.
 */
module Views {
  import opened Wrappers
  import opened Text
  import opened Seqs
  import opened Dedup
  import opened Html
  import opened Timestamps
  import opened Articles
  import opened Ranking
  import opened Models
  import Urls

  /**
   * Scraping fails when a kept entry has neither a parsed `published` nor a
   * parsed `updated` time: its record then holds a date string, and asking that
   * string for its year raises.
   */
  datatype ScrapeError = NoTimestamp(link: string)

  /** Feeds with more entries than this are filtered by the category's tags. */
  const TagFilterThreshold: nat := 20

  /** The most entries taken from one feed. */
  const PerSourceLimit: nat := 10

  /** The host prefixes of feed redirectors whose links are followed to the real site. */
  const RedirectorPrefixes: seq<string> := ["feedproxy", "rss"]

  // ----- Tag filter -------------------------------------------------------

  /** Some tag name, lowered, occurs in the lowered summary. */
  predicate MatchesTags(summary: string, tagNames: seq<string>)
  {
    exists t :: t in tagNames && Contains(Lower(summary), Lower(t))
  }

  /** The entries whose summary mentions a tag, in feed order. */
  function MatchingEntries(entries: seq<RawEntry>, tagNames: seq<string>): seq<RawEntry>
  {
    Filter(entries, (e: RawEntry) => MatchesTags(e.summary, tagNames))
  }

  lemma MatchingEntriesSnoc(entries: seq<RawEntry>, e: RawEntry, tagNames: seq<string>)
    ensures MatchingEntries(entries + [e], tagNames)
            == MatchingEntries(entries, tagNames) + (if MatchesTags(e.summary, tagNames) then [e] else [])
  {
    FilterSnoc(entries, e, (e: RawEntry) => MatchesTags(e.summary, tagNames));
  }

  /** The loop over a feed's entries that keeps the tag-matching ones. */
  method FindMatchingEntries(allEntries: seq<RawEntry>, tagNames: seq<string>) returns (matchingEntries: seq<RawEntry>)
    ensures matchingEntries == MatchingEntries(allEntries, tagNames)
  {
    matchingEntries := [];
    for i := 0 to |allEntries|
      invariant matchingEntries == MatchingEntries(allEntries[..i], tagNames)
    {
      var e := allEntries[i];
      assert allEntries[..i + 1] == allEntries[..i] + [e];
      MatchingEntriesSnoc(allEntries[..i], e, tagNames);
      if exists t :: t in tagNames && Contains(Lower(e.summary), Lower(t)) {
        matchingEntries := matchingEntries + [e];
      }
    }
    assert allEntries[..|allEntries|] == allEntries;
  }

  /**
   * An entry is kept exactly when a tag matches its summary; feed order is kept;
   * with no tags nothing is kept.
   */
  lemma MatchingEntriesSpec(entries: seq<RawEntry>, tagNames: seq<string>)
    ensures forall i :: (0 <= i < |entries| && MatchesTags(entries[i].summary, tagNames))
                        ==> entries[i] in MatchingEntries(entries, tagNames)
    ensures forall e :: e in MatchingEntries(entries, tagNames) ==> e in entries && MatchesTags(e.summary, tagNames)
    ensures IsSubsequence(MatchingEntries(entries, tagNames), entries)
    ensures tagNames == [] ==> MatchingEntries(entries, tagNames) == []
  {
    var p := (e: RawEntry) => MatchesTags(e.summary, tagNames);
    FilterIsSubsequence(entries, p);
    if tagNames == [] {
      FilterNone(entries, p);
    }
  }

  // ----- Per-source selection ------------------------------------------------

  function Abs(n: int): nat
  {
    if n < 0 then -n else n
  }

  /** `entries[:10] or entries[:abs(len(entries) - 1)]`. */
  function FirstTen(entries: seq<RawEntry>): seq<RawEntry>
  {
    var first := SliceTo(entries, PerSourceLimit);
    if first != [] then first else SliceTo(entries, Abs(|entries| - 1))
  }

  /** The fallback never yields anything else: exactly the first min(10, n) entries are taken. */
  lemma FirstTenIsPrefix(entries: seq<RawEntry>)
    ensures |FirstTen(entries)| == if |entries| < PerSourceLimit then |entries| else PerSourceLimit
    ensures FirstTen(entries) == entries[..|FirstTen(entries)|]
  {
  }

  /** The entries of one feed that become records: tag-filtered only for long feeds, then the first ten. */
  function SelectEntries(entries: seq<RawEntry>, tagNames: seq<string>): seq<RawEntry>
  {
    FirstTen(if |entries| > TagFilterThreshold then MatchingEntries(entries, tagNames) else entries)
  }

  /** Short feeds are not filtered; long feeds contribute only tag-matching entries; never more than ten. */
  lemma SelectEntriesSpec(entries: seq<RawEntry>, tagNames: seq<string>)
    ensures |SelectEntries(entries, tagNames)| <= PerSourceLimit
    ensures |entries| <= TagFilterThreshold ==>
              SelectEntries(entries, tagNames) == entries[..if |entries| < PerSourceLimit then |entries| else PerSourceLimit]
    ensures |entries| > TagFilterThreshold ==>
              forall e :: e in SelectEntries(entries, tagNames) ==> MatchesTags(e.summary, tagNames)
    ensures var m := MatchingEntries(entries, tagNames);
            |entries| > TagFilterThreshold ==>
              SelectEntries(entries, tagNames) == m[..if |m| < PerSourceLimit then |m| else PerSourceLimit]
    ensures forall e :: e in SelectEntries(entries, tagNames) ==> e in entries
  {
    var kept := if |entries| > TagFilterThreshold then MatchingEntries(entries, tagNames) else entries;
    FirstTenIsPrefix(kept);
    MatchingEntriesSpec(entries, tagNames);
    forall e | e in SelectEntries(entries, tagNames) ensures e in kept {
      var i :| 0 <= i < |FirstTen(kept)| && FirstTen(kept)[i] == e;
      assert kept[i] == e;
    }
  }

  /** `e.get('published_parsed') or e.get('updated_parsed')`. */
  function ResolvePublished(e: RawEntry): Option<StructTime>
  {
    if e.publishedParsed.Some? then e.publishedParsed else e.updatedParsed
  }

  /** The record of an entry: summary stripped of markup, website the link's host. */
  function ToArticle(e: RawEntry, published: StructTime): Article
  {
    Article(e.link, e.title, StripTags(e.summary), published, Urls.Netloc(e.link))
  }

  /**
   * One record per entry, in order; fails on the first entry without a parsed
   * time, and only if there is one.
   */
  function BuildRecords(entries: seq<RawEntry>): (r: Result<seq<Article>, ScrapeError>)
    ensures r.Ok? <==> forall i :: 0 <= i < |entries| ==> ResolvePublished(entries[i]).Some?
    ensures r.Ok? ==> |r.value| == |entries|
    ensures r.Ok? ==> forall i :: 0 <= i < |entries| ==>
                        r.value[i] == ToArticle(entries[i], ResolvePublished(entries[i]).value)
    ensures r.Err? ==> exists i :: 0 <= i < |entries| && ResolvePublished(entries[i]).None?
                                   && r.error == NoTimestamp(entries[i].link)
                                   && forall j :: 0 <= j < i ==> ResolvePublished(entries[j]).Some?
  {
    if entries == [] then Ok([])
    else
      match ResolvePublished(entries[0])
      case None => Err(NoTimestamp(entries[0].link))
      case Some(t) =>
        match BuildRecords(entries[1..])
        case Err(e) => Err(e)
        case Ok(rest) => Ok([ToArticle(entries[0], t)] + rest)
  }

  /** The staleness test: the publication year is at most one before the current year (later years pass). */
  predicate IsRecent(a: Article, currentYear: int)
  {
    currentYear - a.published.year <= 1
  }

  function RecentRecords(records: seq<Article>, currentYear: int): seq<Article>
  {
    Filter(records, (a: Article) => IsRecent(a, currentYear))
  }

  /** The articles one feed contributes, or the error that aborts the scrape. */
  function ScrapeFeed(entries: seq<RawEntry>, tagNames: seq<string>, currentYear: int): Result<seq<Article>, ScrapeError>
  {
    match BuildRecords(SelectEntries(entries, tagNames))
    case Err(e) => Err(e)
    case Ok(records) => Ok(DedupBy(RecentRecords(records, currentYear), WholeRecord))
  }

  /** Scrapes one source: its entries come from parsing its link. */
  method ScrapeXmlFeed(sourceLink: string, parse: string -> seq<RawEntry>, tagNames: seq<string>, currentYear: int)
    returns (lastEntries: Result<seq<Article>, ScrapeError>)
    ensures lastEntries == ScrapeFeed(parse(sourceLink), tagNames, currentYear)
  {
    var entries := parse(sourceLink);
    if |entries| > TagFilterThreshold {
      entries := FindMatchingEntries(entries, tagNames);
    }
    var records := BuildRecords(FirstTen(entries));
    match records {
      case Err(e) =>
        lastEntries := Err(e);
      case Ok(rs) =>
        lastEntries := Ok(DedupBy(RecentRecords(rs, currentYear), WholeRecord));
    }
  }

  /** Dropping stale records and collapsing equal ones keeps the order of the records. */
  lemma RecentDistinctOrdered(records: seq<Article>, currentYear: int)
    ensures IsSubsequence(DedupBy(RecentRecords(records, currentYear), WholeRecord), records)
  {
    var recent := RecentRecords(records, currentYear);
    FilterIsSubsequence(records, (a: Article) => IsRecent(a, currentYear));
    DedupIsSubsequence(recent, WholeRecord);
    SubsequenceTransitive(DedupBy(recent, WholeRecord), recent, records);
  }

  /** A feed's records keep the order of the records built from its selected entries. */
  lemma ScrapeFeedOrder(entries: seq<RawEntry>, tagNames: seq<string>, currentYear: int)
    ensures var r := ScrapeFeed(entries, tagNames, currentYear);
            r.Ok? ==> IsSubsequence(r.value, BuildRecords(SelectEntries(entries, tagNames)).value)
  {
    var built := BuildRecords(SelectEntries(entries, tagNames));
    if built.Ok? {
      RecentDistinctOrdered(built.value, currentYear);
    }
  }

  /** Of each group of equal recent records of a feed, the first is the one kept. */
  lemma ScrapeFeedKeepsFirst(entries: seq<RawEntry>, tagNames: seq<string>, currentYear: int)
    ensures ScrapeFeed(entries, tagNames, currentYear).Ok? ==>
              exists idx :: FirstOccurrenceWitness(ScrapeFeed(entries, tagNames, currentYear).value,
                                                   RecentRecords(BuildRecords(SelectEntries(entries, tagNames)).value, currentYear),
                                                   WholeRecord, idx)
  {
    var built := BuildRecords(SelectEntries(entries, tagNames));
    if built.Ok? {
      RecentFirstOccurrences(built.value, currentYear);
    }
  }

  /** Of each group of equal recent records, deduplication keeps the first. */
  lemma RecentFirstOccurrences(records: seq<Article>, currentYear: int)
    ensures exists idx :: FirstOccurrenceWitness(DedupBy(RecentRecords(records, currentYear), WholeRecord), RecentRecords(records, currentYear), WholeRecord, idx)
  {
    DedupFirstOccurrences(RecentRecords(records, currentYear), WholeRecord);
  }

  /**
   * What one feed contributes: it fails exactly when a selected entry lacks a
   * parsed time; otherwise at most ten records, all recent, no two equal, each
   * built from a selected entry, and every recent record of a selected entry is there.
   */
  lemma ScrapeFeedSpec(entries: seq<RawEntry>, tagNames: seq<string>, currentYear: int)
    ensures var sel := SelectEntries(entries, tagNames);
            ScrapeFeed(entries, tagNames, currentYear).Ok? <==> forall i :: 0 <= i < |sel| ==> ResolvePublished(sel[i]).Some?
    ensures var r := ScrapeFeed(entries, tagNames, currentYear);
            r.Ok? ==> |r.value| <= PerSourceLimit && DistinctKeys(r.value, WholeRecord)
    ensures var r := ScrapeFeed(entries, tagNames, currentYear);
            var sel := SelectEntries(entries, tagNames);
            r.Ok? ==> forall a :: a in r.value ==>
                        IsRecent(a, currentYear)
                        && exists i :: 0 <= i < |sel| && a == ToArticle(sel[i], ResolvePublished(sel[i]).value)
    ensures var r := ScrapeFeed(entries, tagNames, currentYear);
            var sel := SelectEntries(entries, tagNames);
            r.Ok? ==> forall i :: 0 <= i < |sel| && IsRecent(ToArticle(sel[i], ResolvePublished(sel[i]).value), currentYear)
                        ==> ToArticle(sel[i], ResolvePublished(sel[i]).value) in r.value
    ensures var r := ScrapeFeed(entries, tagNames, currentYear);
            r.Ok? ==> IsSubsequence(r.value, BuildRecords(SelectEntries(entries, tagNames)).value)
    ensures ScrapeFeed(entries, tagNames, currentYear).Ok? ==>
              exists idx :: FirstOccurrenceWitness(ScrapeFeed(entries, tagNames, currentYear).value,
                                                   RecentRecords(BuildRecords(SelectEntries(entries, tagNames)).value, currentYear),
                                                   WholeRecord, idx)
  {
    var sel := SelectEntries(entries, tagNames);
    SelectEntriesSpec(entries, tagNames);
    ScrapeFeedOrder(entries, tagNames, currentYear);
    ScrapeFeedKeepsFirst(entries, tagNames, currentYear);
    var built := BuildRecords(sel);
    if built.Ok? {
      var records := built.value;
      var recent := RecentRecords(records, currentYear);
      var r := DedupBy(recent, WholeRecord);
      DedupKeys(recent, WholeRecord);
      forall a | a in r
        ensures IsRecent(a, currentYear)
        ensures exists i :: 0 <= i < |sel| && a == ToArticle(sel[i], ResolvePublished(sel[i]).value)
      {
        assert WholeRecord(a) in KeysOf(r, WholeRecord);
        var k :| 0 <= k < |recent| && WholeRecord(recent[k]) == a;
        assert a in recent;
        var i :| 0 <= i < |records| && records[i] == a;
      }
      forall i | 0 <= i < |sel| && IsRecent(ToArticle(sel[i], ResolvePublished(sel[i]).value), currentYear)
        ensures ToArticle(sel[i], ResolvePublished(sel[i]).value) in r
      {
        var a := records[i];
        assert a in recent;
        var k :| 0 <= k < |recent| && recent[k] == a;
        assert WholeRecord(a) in KeysOf(r, WholeRecord);
      }
    }
  }

  // ----- Category aggregation ---------------------------------------------

  /** The loop over the articles that keeps the first one of every URL path. */
  method DeleteDuplicateArticles(articles: seq<Article>) returns (uniqueArticles: seq<Article>)
    ensures uniqueArticles == DedupBy(articles, ArticlePath)
    ensures DistinctKeys(uniqueArticles, ArticlePath)
    ensures KeysOf(uniqueArticles, ArticlePath) == KeysOf(articles, ArticlePath)
    ensures IsSubsequence(uniqueArticles, articles)
  {
    uniqueArticles := [];
    var uniquePaths: set<string> := {};
    for i := 0 to |articles|
      invariant uniqueArticles == DedupBy(articles[..i], ArticlePath)
      invariant uniquePaths == KeysOf(uniqueArticles, ArticlePath)
    {
      var line := articles[i];
      var urlPath := Urls.Path(line.url);
      assert articles[..i + 1][..i] == articles[..i] && articles[..i + 1][i] == line;
      if urlPath in uniquePaths {
        continue;
      }
      KeysOfSnoc(uniqueArticles, line, ArticlePath);
      uniqueArticles := uniqueArticles + [line];
      uniquePaths := uniquePaths + {urlPath};
    }
    assert articles[..|articles|] == articles;
    DedupKeys(articles, ArticlePath);
    DedupIsSubsequence(articles, ArticlePath);
  }

  /** `itertools.chain(*groups)`: the groups one after another. */
  function Concat(groups: seq<seq<Article>>): seq<Article>
  {
    if groups == [] then [] else Concat(groups[..|groups| - 1]) + groups[|groups| - 1]
  }

  /** The category's article list before formatting: deduplicated, newest first, capped. */
  function RankArticles(merged: seq<Article>): seq<Article>
  {
    TakeNewest(SortNewestFirst(DedupBy(merged, ArticlePath)))
  }

  /** The ranked list holds min(50, n) of the n deduplicated articles, newest first, with distinct URL paths. */
  lemma RankArticlesShape(merged: seq<Article>)
    ensures var deduped := DedupBy(merged, ArticlePath);
            |RankArticles(merged)| == if |deduped| < MaxArticles then |deduped| else MaxArticles
    ensures NewestFirst(RankArticles(merged))
    ensures DistinctKeys(RankArticles(merged), ArticlePath)
  {
    var deduped := DedupBy(merged, ArticlePath);
    var sorted := SortNewestFirst(deduped);
    TakeNewestIsPrefix(sorted);
    SortPermutes(deduped);
    assert |sorted| == |deduped| by {
      assert |multiset(sorted)| == |multiset(deduped)|;
    }
    SortSorted(deduped);
    DedupKeys(merged, ArticlePath);
    SortKeepsDistinctPaths(deduped);
  }

  /** Every ranked article comes from the merged list. */
  lemma RankArticlesFromMerged(merged: seq<Article>)
    ensures forall a :: a in RankArticles(merged) ==> a in merged
  {
    var deduped := DedupBy(merged, ArticlePath);
    var sorted := SortNewestFirst(deduped);
    var rank := RankArticles(merged);
    TakeNewestIsPrefix(sorted);
    SortPermutes(deduped);
    DedupIsSubsequence(merged, ArticlePath);
    var idx: seq<nat> :| Embeds(deduped, merged, idx);
    forall a | a in rank ensures a in merged {
      assert a in multiset(sorted);
      var k :| 0 <= k < |deduped| && deduped[k] == a;
      assert merged[idx[k]] == a;
    }
  }

  /** No article the cap leaves out is newer than one it keeps. */
  lemma RankArticlesKeepsNewest(merged: seq<Article>)
    ensures var deduped := DedupBy(merged, ArticlePath);
            var rank := RankArticles(merged);
            forall b :: b in multiset(deduped) - multiset(rank) ==>
              forall k :: 0 <= k < |rank| ==> !Before(rank[k].published, b.published)
  {
    var deduped := DedupBy(merged, ArticlePath);
    var sorted := SortNewestFirst(deduped);
    var rank := RankArticles(merged);
    TakeNewestIsPrefix(sorted);
    SortPermutes(deduped);
    SortSorted(deduped);
    var n := |rank|;
    assert sorted == rank + sorted[n..];
    forall b | b in multiset(deduped) - multiset(rank)
      ensures forall k :: 0 <= k < |rank| ==> !Before(rank[k].published, b.published)
    {
      assert multiset(sorted) == multiset(rank) + multiset(sorted[n..]);
      assert b in multiset(sorted[n..]);
      var j :| 0 <= j < |sorted[n..]| && sorted[n..][j] == b;
      assert sorted[n + j] == b;
    }
  }

  /** Ties keep their merge order: the ranked articles of any one time are the first of that time after deduplication. */
  lemma RankArticlesStable(merged: seq<Article>, t: StructTime)
    ensures IsPrefix(PublishedAt(RankArticles(merged), t), PublishedAt(DedupBy(merged, ArticlePath), t))
  {
    var deduped := DedupBy(merged, ArticlePath);
    var sorted := SortNewestFirst(deduped);
    var rank := RankArticles(merged);
    TakeNewestIsPrefix(sorted);
    SortStable(deduped, t);
    FilterOfPrefix(sorted, |rank|, (a: Article) => a.published == t);
  }

  // ----- Formatting ---------------------------------------------------------

  /** `any(website.startswith(p) for p in ['feedproxy', 'rss'])`. */
  predicate IsRedirector(website: string)
  {
    exists p :: p in RedirectorPrefixes && StartsWith(website, p)
  }

  /**
   * The display form of an article: the date as the first ten characters of its
   * ISO rendering; a redirector host replaced by the host the link resolves to;
   * url, title and summary untouched.
   */
  function FormatEntry(a: Article, resolve: string -> string): (d: DisplayArticle)
    ensures d.url == a.url && d.title == a.title && d.summary == a.summary
    ensures d.published == DisplayDate(a.published)
    ensures d.website != a.website ==> StartsWith(a.website, "feedproxy") || StartsWith(a.website, "rss")
  {
    DisplayArticle(a.url, a.title, a.summary, DisplayDate(a.published),
                   if IsRedirector(a.website) then resolve(a.url) else a.website)
  }

  function FormatAll(entries: seq<Article>, resolve: string -> string): seq<DisplayArticle>
  {
    seq(|entries|, i requires 0 <= i < |entries| => FormatEntry(entries[i], resolve))
  }

  /** The loop that rewrites each article's date and, for redirector hosts, its website. */
  method FormatEntries(entries: seq<Article>, resolve: string -> string) returns (formatted: seq<DisplayArticle>)
    ensures |formatted| == |entries|
    ensures forall k :: 0 <= k < |entries| ==> formatted[k] == FormatEntry(entries[k], resolve)
  {
    formatted := [];
    for i := 0 to |entries|
      invariant |formatted| == i
      invariant forall k :: 0 <= k < i ==> formatted[k] == FormatEntry(entries[k], resolve)
    {
      var e := entries[i];
      var website := e.website;
      if exists p :: p in RedirectorPrefixes && StartsWith(website, p) {
        website := resolve(e.url);
      }
      formatted := formatted + [DisplayArticle(e.url, e.title, e.summary, DisplayDate(e.published), website)];
    }
  }

  // ----- The category view -----------------------------------------------------

  /**
   * The values of a run of outcomes, or the first error among them: the first
   * source that raises aborts the whole view.
   */
  function Collect<T, E>(outcomes: seq<Result<T, E>>): (r: Result<seq<T>, E>)
    ensures r.Ok? ==> |r.value| == |outcomes|
  {
    if outcomes == [] then Ok([])
    else
      match Collect(outcomes[..|outcomes| - 1])
      case Err(e) => Err(e)
      case Ok(values) =>
        match outcomes[|outcomes| - 1]
        case Err(e) => Err(e)
        case Ok(v) => Ok(values + [v])
  }

  /** Collecting fails exactly when some outcome is an error, and then with the first error; otherwise it lists the values in order. */
  lemma {:induction false} CollectSpec<T, E>(outcomes: seq<Result<T, E>>)
    ensures var r := Collect(outcomes);
            r.Ok? ==> forall i :: 0 <= i < |outcomes| ==> outcomes[i] == Ok(r.value[i])
    ensures Collect(outcomes).Err? <==> exists i :: 0 <= i < |outcomes| && outcomes[i].Err?
    ensures var r := Collect(outcomes);
            r.Err? ==> exists i :: 0 <= i < |outcomes| && outcomes[i] == Err(r.error)
                                   && forall j :: 0 <= j < i ==> outcomes[j].Ok?
  {
    if outcomes != [] {
      var init := outcomes[..|outcomes| - 1];
      CollectSpec(init);
      assert forall i :: 0 <= i < |init| ==> init[i] == outcomes[i];
    }
  }

  lemma {:induction false} CollectErrSticks<T, E>(outcomes: seq<Result<T, E>>, n: nat)
    requires n <= |outcomes| && Collect(outcomes[..n]).Err?
    ensures Collect(outcomes) == Collect(outcomes[..n])
    decreases |outcomes|
  {
    if n < |outcomes| {
      var init := outcomes[..|outcomes| - 1];
      assert init[..n] == outcomes[..n];
      CollectErrSticks(init, n);
    } else {
      assert outcomes[..n] == outcomes;
    }
  }

  /** One more outcome either extends the collected values or, being an error, decides the whole run. */
  lemma CollectStep<T, E>(outcomes: seq<Result<T, E>>, i: nat, values: seq<T>)
    requires i < |outcomes| && Collect(outcomes[..i]) == Ok(values)
    ensures outcomes[i].Ok? ==> Collect(outcomes[..i + 1]) == Ok(values + [outcomes[i].value])
    ensures outcomes[i].Err? ==> Collect(outcomes) == Err(outcomes[i].error)
  {
    assert outcomes[..i + 1][..i] == outcomes[..i] && outcomes[..i + 1][i] == outcomes[i];
    if outcomes[i].Err? {
      CollectErrSticks(outcomes, i + 1);
    }
  }

  /** The scrape of every source, in source order. */
  function SourceOutcomes(links: seq<string>, parse: string -> seq<RawEntry>, tagNames: seq<string>, currentYear: int)
    : seq<Result<seq<Article>, ScrapeError>>
  {
    seq(|links|, i requires 0 <= i < |links| => ScrapeFeed(parse(links[i]), tagNames, currentYear))
  }

  /** What the view shows for a category whose sources have the given links. */
  function CategoryArticles(links: seq<string>, parse: string -> seq<RawEntry>, tagNames: seq<string>,
                            currentYear: int, resolve: string -> string): Result<seq<DisplayArticle>, ScrapeError>
  {
    match Collect(SourceOutcomes(links, parse, tagNames, currentYear))
    case Err(e) => Err(e)
    case Ok(groups) => Ok(FormatAll(RankArticles(Concat(groups)), resolve))
  }

  /** The gathering loop of `get_articles`: scrapes every source in order and stops at the first failure. */
  method ScrapeSources(links: seq<string>, parse: string -> seq<RawEntry>, tagNames: seq<string>, currentYear: int)
    returns (grouped: Result<seq<seq<Article>>, ScrapeError>)
    ensures grouped == Collect(SourceOutcomes(links, parse, tagNames, currentYear))
  {
    ghost var outcomes := SourceOutcomes(links, parse, tagNames, currentYear);
    var bestArticlesGrouped: seq<seq<Article>> := [];
    for i := 0 to |links|
      invariant Collect(outcomes[..i]) == Ok(bestArticlesGrouped)
    {
      var siteArticles := ScrapeXmlFeed(links[i], parse, tagNames, currentYear);
      assert siteArticles == outcomes[i];
      CollectStep(outcomes, i, bestArticlesGrouped);
      if siteArticles.Err? {
        return Err(siteArticles.error);
      }
      bestArticlesGrouped := bestArticlesGrouped + [siteArticles.value];
    }
    assert outcomes[..|links|] == outcomes;
    grouped := Ok(bestArticlesGrouped);
  }

  /** `CategoryView.get_articles`: gathers, merges, ranks and formats a category's articles. */
  method GetArticles(category: Category, parse: string -> seq<RawEntry>, currentYear: int, resolve: string -> string)
    returns (articles: Result<seq<DisplayArticle>, ScrapeError>)
    ensures articles == CategoryArticles(category.Links(), parse, category.TagNames(), currentYear, resolve)
  {
    var grouped := ScrapeSources(category.Links(), parse, category.TagNames(), currentYear);
    if grouped.Err? {
      return Err(grouped.error);
    }
    var formatted := RankAndFormat(grouped.value, resolve);
    articles := Ok(formatted);
  }

  /** The second half of `get_articles`: merge, drop repeated paths, sort newest first, cut, format. */
  method RankAndFormat(bestArticlesGrouped: seq<seq<Article>>, resolve: string -> string)
    returns (formatted: seq<DisplayArticle>)
    ensures formatted == FormatAll(RankArticles(Concat(bestArticlesGrouped)), resolve)
  {
    var bestArticles := Concat(bestArticlesGrouped);
    bestArticles := DeleteDuplicateArticles(bestArticles);
    bestArticles := SortNewestFirst(bestArticles);
    bestArticles := TakeNewest(bestArticles);
    formatted := FormatEntries(bestArticles, resolve);
  }

  /** The view shows a list exactly when every source of the category was scraped without error. */
  lemma CategoryArticlesOkIff(links: seq<string>, parse: string -> seq<RawEntry>, tagNames: seq<string>,
                              currentYear: int, resolve: string -> string)
    ensures CategoryArticles(links, parse, tagNames, currentYear, resolve).Ok?
            <==> forall i :: 0 <= i < |links| ==> ScrapeFeed(parse(links[i]), tagNames, currentYear).Ok?
  {
    var outcomes := SourceOutcomes(links, parse, tagNames, currentYear);
    CollectSpec(outcomes);
    assert forall i :: 0 <= i < |links| ==> outcomes[i] == ScrapeFeed(parse(links[i]), tagNames, currentYear);
  }

  /** A failing category fails with the error of its first failing source. */
  lemma CategoryArticlesFirstError(links: seq<string>, parse: string -> seq<RawEntry>, tagNames: seq<string>,
                                   currentYear: int, resolve: string -> string)
    ensures var r := CategoryArticles(links, parse, tagNames, currentYear, resolve);
            r.Err? ==> exists i :: 0 <= i < |links| && ScrapeFeed(parse(links[i]), tagNames, currentYear) == Err(r.error)
                                   && forall j :: 0 <= j < i ==> ScrapeFeed(parse(links[j]), tagNames, currentYear).Ok?
  {
    var outcomes := SourceOutcomes(links, parse, tagNames, currentYear);
    CollectSpec(outcomes);
    assert forall i :: 0 <= i < |links| ==> outcomes[i] == ScrapeFeed(parse(links[i]), tagNames, currentYear);
  }

  /** The view never shows more than fifty articles, and nothing for a category without sources. */
  lemma CategoryArticlesBounded(links: seq<string>, parse: string -> seq<RawEntry>, tagNames: seq<string>,
                                currentYear: int, resolve: string -> string)
    ensures var r := CategoryArticles(links, parse, tagNames, currentYear, resolve);
            r.Ok? ==> |r.value| <= MaxArticles
    ensures links == [] ==> CategoryArticles(links, parse, tagNames, currentYear, resolve) == Ok([])
  {
    var s := Collect(SourceOutcomes(links, parse, tagNames, currentYear));
    if s.Ok? {
      TakeNewestIsPrefix(SortNewestFirst(DedupBy(Concat(s.value), ArticlePath)));
    }
  }
}
