# DailyFeed article pipeline, in Dafny

DailyFeed groups RSS/Atom feeds into categories. Each category has search tags.
The category page shows the category's recent articles. This project models two
parts of it:

- **The article pipeline of `CategoryView`.** Per source (`scrape_xml_feed`):
  - read the feed's entries;
  - when the feed has more than 20 entries, keep only those whose summary
    mentions a tag, case-insensitively (`find_matching_entries`);
  - take the first ten;
  - build a record per entry: markup stripped from the summary with `<.*?>`, the
    parsed publication time, the link's host as the website;
  - drop records more than a calendar year old;
  - collapse equal records.

  Per category (`get_articles`):
  - chain the sources' lists in source order;
  - keep the first article of every URL path (`delete_duplicate_articles`);
  - sort newest first with a stable sort;
  - keep fifty;
  - render each date as `YYYY-MM-DD` and replace feed-redirector hosts
    (`format_entries`).
- **The source builder.** `build_category_sources` lowercases candidate feed
  links. It keeps those that contain a tag name, drops those the category already
  has (`check_if_source_exists`), and adds the rest to the category as new
  sources.

Modules, one file each:

- `Wrappers`: Option and Result.
- `Text`: ASCII lowercasing, substrings, decimal rendering.
- `Seqs`: the list-comprehension filter, subsequences, Python's `s[:k]`.
- `Dedup`: keep the first element of every key.
- `Html`: the `<.*?>` substitution.
- `Urls`: the `netloc` and `path` parts of `urllib.parse.urlparse`.
- `Timestamps`: `struct_time`, its tuple order and `strftime` rendering.
- `Models`: the stored `SearchTag`, `Source` and `Category`.
- `Articles`: the entry and record shapes.
- `Ranking`: the stable newest-first sort and the cap.
- `Views`: the view's pipeline.
- `SourceBuilder`: the source builder.

The loops of the source are methods with loop invariants:

- `FindMatchingEntries`
- `DeleteDuplicateArticles`
- `FormatEntries`
- the gathering loop of `get_articles` (`ScrapeSources`)
- the loop that creates sources in `BuildCategorySources`

Each loop is proved equal to a specification function. The properties are
proved as lemmas about those functions.

The rest of the system enters as parameters:

- Fetching and parsing a feed is a function `parse` from a link to its entries.
- Following a redirector link is a function `resolve` from an article URL to the
  host of the final URL.
- The current year is the parameter `currentYear`.

## Notes on the code

- **Entry with no parsed time.** An entry with neither `published_parsed` nor
  `updated_parsed` gets a date string at `views.py:70`. Then `.tm_year` at
  `views.py:73` raises on that string. So the model returns `NoTimestamp`, and the
  category fails, because nothing in `views.py` catches the error.
- **Failures are not caught.** No fetch, parse or redirect failure is caught in
  `views.py`. The model has no such failures: `parse` and `resolve` are total.
- **The website field.** It is always `urlparse(e.link).netloc`
  (`views.py:71`), later replaced only for redirector hosts (`views.py:97-99`).
- **The staleness test.** It compares calendar years only
  (`current_year - year <= 1`, `views.py:73`), so an article from a later year is
  also kept.

## Model

| member | source | states |
|---|---|---|
| Views.FindMatchingEntries | DailyFeed/feed/views.py:77-91 | the loop returns exactly the entries whose lowered summary contains some lowered tag name, in feed order |
| Views.MatchingEntriesSpec | DailyFeed/feed/views.py:86-91 | an entry is kept iff a tag matches its summary case-insensitively; the result is a subsequence of the feed; with no tags nothing is kept |
| Views.FirstTenIsPrefix | DailyFeed/feed/views.py:66 | `entries[:10] or entries[:abs(len-1)]` is exactly the first min(10, n) entries: the fallback never changes the result |
| Views.SelectEntriesSpec | DailyFeed/feed/views.py:63-66 | at most ten entries; a feed of at most 20 entries is not filtered and gives its first min(10, n) entries; a longer feed gives exactly the first min(10, m) of its m tag-matching entries; every selected entry comes from the feed |
| Views.BuildRecords | DailyFeed/feed/views.py:67-73 | records are built iff every selected entry has a parsed published or updated time; then one record per entry, in order, with the summary stripped, the time chosen published-first and the link's host as website; otherwise the error names the first entry without a time |
| Views.ScrapeXmlFeed | DailyFeed/feed/views.py:59-75 | one source's scrape equals the specification `ScrapeFeed` of the entries parsed from its link |
| Views.ScrapeFeedSpec | DailyFeed/feed/views.py:59-75 | a scrape fails iff a selected entry lacks a time; otherwise at most ten records, no two equal, each recent and built from a selected entry, every recent record of a selected entry is present, the records keep the order of the selected entries, and of each group of equal recent records the first is the one kept |
| Views.DeleteDuplicateArticles | DailyFeed/feed/views.py:102-111 | the loop keeps the first article of each URL path: the output is a subsequence of the input, no two outputs share a path, and the paths of output and input are the same set |
| Views.Collect | DailyFeed/feed/views.py:46-48 | gathering per-source outcomes yields one list per source when none fails |
| Views.CollectSpec | DailyFeed/feed/views.py:46-48 | gathering fails iff some source fails, and then with the first failing source's error; otherwise the i-th list is the i-th source's articles |
| Views.ScrapeSources | DailyFeed/feed/views.py:44-48 | the gathering loop scrapes the sources in order and returns their lists, or the first error |
| Views.RankAndFormat | DailyFeed/feed/views.py:50-56 | the chained lists, deduplicated by path, sorted newest first, capped and formatted, equal the specification `FormatAll(RankArticles(Concat(groups)))` |
| Views.GetArticles | DailyFeed/feed/views.py:41-57 | the view's result for a category equals the specification `CategoryArticles` of the category's links and tag names |
| Views.RankArticlesShape | DailyFeed/feed/views.py:50-55 | the ranked list has exactly min(50, n) articles for n deduplicated articles, is sorted newest first and has distinct URL paths |
| Views.RankArticlesFromMerged | DailyFeed/feed/views.py:50-55 | every ranked article is one of the merged articles |
| Views.RankArticlesKeepsNewest | DailyFeed/feed/views.py:53-55 | no deduplicated article left out by the cap is newer than any kept article |
| Views.RankArticlesStable | DailyFeed/feed/views.py:53-55 | articles with the same publication time keep their merge order: the kept ones of each time are the first ones of that time in the deduplicated list |
| Views.FormatEntry | DailyFeed/feed/views.py:94-99 | url, title and summary are untouched; the date becomes the first ten characters of the ISO rendering; the website changes only if it starts with "feedproxy" or "rss" |
| Views.FormatEntries | DailyFeed/feed/views.py:93-100 | the loop formats each article in place of the input, keeping length and order |
| Views.CategoryArticlesOkIff | DailyFeed/feed/views.py:46-48 | the view shows a list iff every source of the category scrapes without error |
| Views.CategoryArticlesFirstError | DailyFeed/feed/views.py:46-48 | a failing view fails with the error of its first failing source, all sources before it having succeeded |
| Views.CategoryArticlesBounded | DailyFeed/feed/views.py:54-55 | the view shows at most fifty articles, and a category without sources shows an empty list without error |
| Views.MatchesTags | DailyFeed/feed/views.py:88 | `any(t.name.lower() in e.summary.lower() ...)`: both sides are lowercased and any one tag name may occur as a substring; MatchingEntriesSpec states that an entry is kept exactly when this holds, and that no entry matches an empty tag list |
| Views.MatchingEntries | DailyFeed/feed/views.py:86-91 | the tag filter as a specification; characterised by MatchingEntriesSpec and computed by FindMatchingEntries |
| Views.FirstTen | DailyFeed/feed/views.py:66 | the per-source cut; characterised by FirstTenIsPrefix (exactly the first min(10, n)) |
| Views.SelectEntries | DailyFeed/feed/views.py:63-66 | the entries of one feed that become records; characterised by SelectEntriesSpec |
| Views.ResolvePublished | DailyFeed/feed/views.py:70 | `published_parsed`, else `updated_parsed`; its use is characterised by BuildRecords (Ok iff every entry has one) |
| Views.ToArticle | DailyFeed/feed/views.py:67-71 | the record of an entry; characterised by BuildRecords, Html.StripTagsLeavesNoTag and Urls.NetlocShape |
| Views.IsRecent | DailyFeed/feed/views.py:73 | the year-only staleness test; ScrapeFeedSpec states that every scraped record passes it and every selected record that passes it is kept |
| Views.RecentRecords | DailyFeed/feed/views.py:73 | the staleness filter; characterised by Seqs.Filter and RecentDistinctOrdered |
| Views.RecentDistinctOrdered | DailyFeed/feed/views.py:73-74 | dropping stale records and collapsing equal ones keeps the records' order |
| Views.RecentFirstOccurrences | DailyFeed/feed/views.py:73-74 | after the staleness filter, each kept record is the first of its group of equal recent records, at increasing positions |
| Views.ScrapeFeedOrder | DailyFeed/feed/views.py:67-75 | a successful scrape is an order-preserving subsequence of the records built from the selected entries |
| Views.ScrapeFeedKeepsFirst | DailyFeed/feed/views.py:73-74 | a successful scrape keeps, of each group of equal recent records, the first one, in order |
| Views.ScrapeFeed | DailyFeed/feed/views.py:59-75 | one source's contribution as a specification; characterised by ScrapeFeedSpec, ScrapeFeedOrder and ScrapeFeedKeepsFirst, and computed by ScrapeXmlFeed |
| Views.SourceOutcomes | DailyFeed/feed/views.py:46-47 | the scrape of every source of the category, one outcome per source in source order; ScrapeSources gathers them, and CategoryArticlesOkIff and CategoryArticlesFirstError state how an error among them decides the view |
| Views.Concat | DailyFeed/feed/views.py:50 | `itertools.chain` of the per-source lists; the ranking lemmas state what follows from it, and GetArticles connects it to the gathering loop |
| Views.RankArticles | DailyFeed/feed/views.py:52-55 | dedup, sort and cap as a specification; characterised by RankArticlesShape, RankArticlesFromMerged, RankArticlesKeepsNewest and RankArticlesStable |
| Views.IsRedirector | DailyFeed/feed/views.py:94-97 | the feedproxy/rss prefix test; FormatEntry states that only such websites change |
| Views.FormatAll | DailyFeed/feed/views.py:93-100 | formatting as a specification; FormatEntries computes it and FormatEntry states each element |
| Views.CategoryArticles | DailyFeed/feed/views.py:41-57 | the view's result as a specification; characterised by CategoryArticlesOkIff, CategoryArticlesFirstError and CategoryArticlesBounded, computed by GetArticles |
| Html.FindClose | DailyFeed/feed/views.py:20 | the lazy `.*?>` after a `<` ends at the first `>`, and finds none iff a newline or the end comes first |
| Html.StripTagsWithoutOpen | DailyFeed/feed/views.py:69 | a summary with no `<` comes back unchanged |
| Html.StripTagsPlainPrefix | DailyFeed/feed/views.py:69 | text before the first `<` is copied unchanged |
| Html.StripTagsOneTag | DailyFeed/feed/views.py:69 | a `<`, text without `>` or newline, and a `>` become one space |
| Html.StripTagsKeepsNoClose | DailyFeed/feed/views.py:69 | stripping text in which every `>` follows a newline keeps that so |
| Html.StripTagsLeavesNoTag | DailyFeed/feed/views.py:69 | after stripping, every `<` followed later by a `>` has a newline in between |
| Html.StripTagsShortens | DailyFeed/feed/views.py:69 | stripping never lengthens a summary |
| Html.StripTags | DailyFeed/feed/views.py:69 | `re.sub('<.*?>', ' ', s)`; characterised by StripTagsWithoutOpen, StripTagsPlainPrefix, StripTagsOneTag, StripTagsLeavesNoTag and StripTagsShortens |
| Urls.NetlocShape | DailyFeed/feed/views.py:71 | the host part of a link contains no `/`, `?` or `#` |
| Urls.PathShape | DailyFeed/feed/views.py:106 | the path of a link contains no `?` or `#` |
| Urls.PathIgnoresQuery | DailyFeed/feed/views.py:106 | appending a query string to a link changes neither its path nor its host, so such links count as duplicates |
| Urls.SplitPlainUrl | DailyFeed/feed/views.py:71 | for `scheme://host/path` the host is `host` and the path is `path` |
| Urls.Netloc | DailyFeed/feed/views.py:71 | `urlparse(link).netloc`; characterised by NetlocShape, PathIgnoresQuery and SplitPlainUrl |
| Urls.Path | DailyFeed/feed/views.py:106 | `urlparse(url).path`; characterised by PathShape, PathIgnoresQuery and SplitPlainUrl |
| Timestamps.Before | DailyFeed/feed/views.py:53 | `struct_time` tuple comparison, field by field from the year down; BeforeIsStrictTotalOrder and NotBeforeTransitive state that it orders timestamps, and the Ranking lemmas sort by it |
| Timestamps.BeforeIsStrictTotalOrder | DailyFeed/feed/views.py:53 | comparing `struct_time` values as tuples is irreflexive, transitive and total |
| Timestamps.NotBeforeTransitive | DailyFeed/feed/views.py:53 | "not older than" is transitive |
| Timestamps.DisplayDate | DailyFeed/feed/views.py:96 | the rendered date is always ten characters |
| Timestamps.DisplayDateRoundTrip | DailyFeed/feed/views.py:96 | for a four-digit year the rendered date has dashes at positions 4 and 7 and reads back as the year, month and day |
| Timestamps.DisplayDateYear | DailyFeed/feed/views.py:96 | for a four-digit year the first four characters are the year in decimal |
| Timestamps.IsoFormat | DailyFeed/feed/views.py:96 | `time.strftime('%Y-%m-%dT%H:%M:%SZ', t)`; characterised through DisplayDate, DisplayDateRoundTrip and DisplayDateYear |
| Text.LowerIsLower | DailyFeed/feed/views.py:88 | lowercasing yields lowercase text and is idempotent |
| Text.DecimalRoundTrip | DailyFeed/feed/views.py:96 | the decimal rendering of a year is all digits and reads back as the year |
| Text.FourDigitYears | DailyFeed/feed/views.py:96 | years 1000 to 9999 render as four characters |
| Text.Pad2RoundTrip | DailyFeed/feed/views.py:96 | a two-digit field renders as two digits that read back as its value |
| Text.Lower | DailyFeed/feed/views.py:88 | `str.lower` on ASCII; characterised by LowerIsLower |
| Seqs.Filter | DailyFeed/feed/views.py:73 | a comprehension with a condition keeps only elements that satisfy it, and keeps all of them |
| Seqs.FilterCount | DailyFeed/feed/views.py:73 | a comprehension keeps every occurrence of a satisfying element and none of another |
| Seqs.FilterIsSubsequence | DailyFeed/feed/views.py:73 | a comprehension keeps the order of its input |
| Seqs.SliceTo | DailyFeed/feed/views.py:66 | Python's `s[:k]` is a prefix of `s`, of length min(k, len) for k >= 0 |
| Articles.WholeRecord | DailyFeed/feed/views.py:74 | the `frozenset(line.items())` key: two records get the same key exactly when all five fields are equal; ScrapeFeedSpec states that the scraped records are then pairwise different |
| Articles.ArticlePath | DailyFeed/feed/views.py:106 | the `urlparse(url).path` key of the cross-source deduplication; Urls.PathShape and Urls.PathIgnoresQuery state what it keeps of a link, and RankArticlesShape that ranked articles have distinct paths |
| Dedup.DedupBy | DailyFeed/feed/views.py:74 | keeping the first element of every key never lengthens the sequence |
| Dedup.DedupKeys | DailyFeed/feed/views.py:102-111 | the kept elements have pairwise distinct keys and the same key set as the input |
| Dedup.DedupFirstOccurrences | DailyFeed/feed/views.py:105-110 | each kept element is the first one in the input with its key, at increasing positions |
| Dedup.DedupIsSubsequence | DailyFeed/feed/views.py:105-110 | the kept elements are an order-preserving subsequence of the input |
| Dedup.DedupKeepsFirst | DailyFeed/feed/views.py:105-110 | the first element with a given key is always kept |
| Dedup.DedupOfDistinct | DailyFeed/feed/views.py:105-110 | an input with distinct keys is left unchanged |
| Dedup.DedupIdempotent | DailyFeed/feed/views.py:102-111 | deduplicating twice is deduplicating once |
| Ranking.InsertPermutes | DailyFeed/feed/views.py:53 | inserting an article into a sorted list adds exactly that article |
| Ranking.InsertSorted | DailyFeed/feed/views.py:53 | inserting into a newest-first list keeps it newest first |
| Ranking.InsertStable | DailyFeed/feed/views.py:53 | among the articles of any one publication time, the inserted article comes first, as if prepended |
| Ranking.SortPermutes | DailyFeed/feed/views.py:53 | sorting is a permutation |
| Ranking.SortSorted | DailyFeed/feed/views.py:53 | the sorted list is newest first |
| Ranking.SortStable | DailyFeed/feed/views.py:53 | sorting keeps the input order of articles with equal publication time |
| Ranking.SortKeepsDistinctPaths | DailyFeed/feed/views.py:52-53 | sorting a list with distinct URL paths keeps them distinct |
| Ranking.TakeNewestIsPrefix | DailyFeed/feed/views.py:54-55 | `best[:50] or best[:len-1] or []` is exactly the first min(50, n) articles |
| Ranking.Insert | DailyFeed/feed/views.py:53 | one step of the stable newest-first sort; characterised by InsertPermutes, InsertSorted and InsertStable |
| Ranking.SortNewestFirst | DailyFeed/feed/views.py:53 | `sorted(..., key=published, reverse=True)`; characterised by SortPermutes, SortSorted and SortStable, which together determine it |
| Ranking.TakeNewest | DailyFeed/feed/views.py:54-55 | `best[:50] or best[:len-1] or []`; characterised by TakeNewestIsPrefix |
| Models.Source.constructor | DailyFeed/feed/models.py:11-13 | a new source has the given name and link |
| Models.Category.constructor | DailyFeed/feed/models.py:19-22 | a new category has the given name, no sources and no tags |
| Models.Category.TagNames | DailyFeed/feed/source_builder.py:6 | the names of the category's search tags, in order; used as written by CategoryFeedsMembership and lowercased by MatchesTags |
| SourceBuilder.CheckIfSourceExists | DailyFeed/feed/source_builder.py:15-17 | true iff some source of the category has exactly that link |
| SourceBuilder.BuildCategorySources | DailyFeed/feed/source_builder.py:4-12 | the old sources stay in place and a fresh source with name and link equal to each selected link is appended in order; the links become the old links followed by the selected ones; every lowercased candidate that mentions a tag is then a link of the category; name and tags are unchanged |
| SourceBuilder.TaggedFeedsPresent | DailyFeed/feed/source_builder.py:9-12 | every lowercased candidate that mentions a tag is either already a link or among the added links |
| SourceBuilder.CategoryFeedsMembership | DailyFeed/feed/source_builder.py:5-8 | a link is added iff it is the lowercase form of a candidate, contains a tag name as written, and is not already a link of the category |
| SourceBuilder.CategoryFeedsAreLower | DailyFeed/feed/source_builder.py:5 | every added link is lowercase |
| SourceBuilder.CategoryFeedsCount | DailyFeed/feed/source_builder.py:7-12 | a selected link is added once per candidate that lowercases to it, so a repeated candidate becomes several sources |
| SourceBuilder.CategoryFeedsWithoutTags | DailyFeed/feed/source_builder.py:6-7 | a category without tags gets no new source |
| SourceBuilder.CategoryFeedsOrdered | DailyFeed/feed/source_builder.py:5-8 | the added links keep the order of the candidates |
| SourceBuilder.LowerFeeds | DailyFeed/feed/source_builder.py:5 | the lowercased candidates; characterised by CategoryFeedsAreLower and CategoryFeedsMembership |
| SourceBuilder.MentionsTag | DailyFeed/feed/source_builder.py:6-7 | some tag name, as written, is a substring of the link; CategoryFeedsMembership and CategoryFeedsWithoutTags state its role |
| SourceBuilder.CategoryFeeds | DailyFeed/feed/source_builder.py:5-8 | the links to add, as a specification; characterised by CategoryFeedsMembership, CategoryFeedsAreLower, CategoryFeedsCount, CategoryFeedsWithoutTags and CategoryFeedsOrdered, and appended by BuildCategorySources |

## Left out

- The network: `feedparser.parse` is the parameter `parse` and `requests.get` is the parameter `resolve`. The model has no fetch, parse or HTTP errors.
- The clock: `datetime.today().year` is the parameter `currentYear`. The `datetime.now()` fallback string is modelled only as the error it leads to.
- The database: `Category.objects.get`, `.all()`, `.filter`, `.save` and `.sources.add` become in-memory fields. The sources of a category are a sequence in insertion order, although the database promises no order for `.all()`.
- The debugging `print` of each source link.
- Entries missing `link`, `title` or `summary`: every entry has all three here.
- The Django view plumbing and rendering (`IndexView`, `CategoryView.get`, `CategorySourcesView`, `CategoryCreateView`, `TagCreateView`, `FindSourcesView`) and the URL routing.
- `SourceCreateView.form_valid`, `try_parse_website` (`newspaper`, `pdb`) and `get_all_rss`. The last is imported but defined in no shown file, so it is not part of this model.
- Text.Lower: lowercases ASCII letters only, whereas Python's `str.lower` covers all of Unicode.
- Urls.Netloc and Urls.Path: follow recent Python 3 `urllib.parse.urlsplit`, for ASCII links: a scheme must start with an ASCII letter, and there is no exception for text after the `:` that is all digits (older releases did not split `localhost:8080` into a scheme). It does not strip whitespace or control characters, and it does not validate IPv6 brackets or ports.
- Views.FormatEntries: `format_entries` rewrites each record dictionary in place. The model builds a new display record per article instead, so sharing of those dictionaries is not represented.
- Views.ScrapeFeed: the dictionary keyed by `frozenset(line.items())` at `views.py:74` is modelled as keeping the first of each group of equal records. Equal records are interchangeable, so this matches the dictionary's first-insertion order.
- Timestamps.DisplayDateRoundTrip: proved for years 1000 to 9999 only. `%Y` does not pad shorter years, and those dates do not have the `YYYY-MM-DD` shape.
- Timestamps.InRange: only normalized `struct_time` values with a non-negative year are modelled, which is what the feed parser produces.
