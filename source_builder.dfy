/**
 * Source discovery for a category: candidate feed links are lowercased, kept
 * when they mention one of the category's tag names, dropped when the category
 * already has a source with that link, and the rest become new sources of the
 * category.
 */
module SourceBuilder {
  import opened Text
  import opened Seqs
  import opened Models

  /** `[rss.lower() for rss in rss_feeds]`. */
  function LowerFeeds(rssFeeds: seq<string>): seq<string>
  {
    seq(|rssFeeds|, i requires 0 <= i < |rssFeeds| => Lower(rssFeeds[i]))
  }

  /** `any([t in rss for t in tags])`: some tag name, as written, is a substring of the link. */
  predicate MentionsTag(link: string, tagNames: seq<string>)
  {
    exists t :: t in tagNames && Contains(link, t)
  }

  /**
   * The links `build_category_sources` adds, in order: the lowercased candidates
   * that mention a tag and are not among the `existing` links of the category.
   */
  function CategoryFeeds(rssFeeds: seq<string>, tagNames: seq<string>, existing: seq<string>): seq<string>
  {
    var tagged := Filter(LowerFeeds(rssFeeds), (rss: string) => MentionsTag(rss, tagNames));
    Filter(tagged, (rss: string) => rss !in existing)
  }

  /** `check_if_source_exists`: the category has a source whose link is exactly `rssLink`. */
  function CheckIfSourceExists(category: Category, rssLink: string): (r: bool)
    reads category
    ensures r <==> exists i :: 0 <= i < |category.sources| && category.sources[i].link == rssLink
  {
    var links := category.Links();
    assert forall i :: 0 <= i < |category.sources| ==> links[i] == category.sources[i].link;
    rssLink in links
  }

  /**
   * `build_category_sources`. The existence check is made for every candidate
   * before any source is created, so it sees only the sources the category had
   * on entry. Each selected link becomes a new source whose name and link are
   * that link, appended after the existing ones.
   */
  method BuildCategorySources(category: Category, rssFeeds: seq<string>)
    modifies category
    ensures var feeds := CategoryFeeds(rssFeeds, old(category.TagNames()), old(category.Links()));
            var n := |old(category.sources)|;
            && |category.sources| == n + |feeds|
            && category.sources[..n] == old(category.sources)
            && (forall k :: n <= k < |category.sources| ==> fresh(category.sources[k]))
            && forall k :: 0 <= k < |feeds| ==>
                 && category.sources[n + k].name == feeds[k]
                 && category.sources[n + k].link == feeds[k]
    ensures category.Links() == old(category.Links()) + CategoryFeeds(rssFeeds, old(category.TagNames()), old(category.Links()))
    ensures forall i :: 0 <= i < |rssFeeds| && MentionsTag(Lower(rssFeeds[i]), old(category.TagNames())) ==>
              CheckIfSourceExists(category, Lower(rssFeeds[i]))
    ensures category.name == old(category.name) && category.searchTags == old(category.searchTags)
  {
    var tags := category.TagNames();
    var existing := category.Links();
    var categoryFeeds := CategoryFeeds(rssFeeds, tags, existing);
    ghost var n := |category.sources|;
    for i := 0 to |categoryFeeds|
      invariant |category.sources| == n + i
      invariant category.sources[..n] == old(category.sources)
      invariant forall k :: n <= k < n + i ==> fresh(category.sources[k])
      invariant forall k :: 0 <= k < i ==> category.sources[n + k].name == categoryFeeds[k]
      invariant forall k :: 0 <= k < i ==> category.sources[n + k].link == categoryFeeds[k]
      invariant category.name == old(category.name) && category.searchTags == old(category.searchTags)
    {
      var newSource := new Source(categoryFeeds[i], categoryFeeds[i]);
      ghost var before := category.sources;
      category.sources := category.sources + [newSource];
      assert forall k :: 0 <= k < n + i ==> category.sources[k] == before[k];
      assert category.sources[n + i] == newSource;
    }
    LinksAfterBuild(category.Links(), existing, categoryFeeds, category.sources, n);
    TaggedFeedsPresent(rssFeeds, tags, existing);
  }

  /** After the build, every lowercased candidate that mentions a tag is among the links. */
  lemma TaggedFeedsPresent(rssFeeds: seq<string>, tagNames: seq<string>, existing: seq<string>)
    ensures forall i :: 0 <= i < |rssFeeds| && MentionsTag(Lower(rssFeeds[i]), tagNames) ==>
              Lower(rssFeeds[i]) in existing + CategoryFeeds(rssFeeds, tagNames, existing)
  {
    forall i | 0 <= i < |rssFeeds| && MentionsTag(Lower(rssFeeds[i]), tagNames)
      ensures Lower(rssFeeds[i]) in existing + CategoryFeeds(rssFeeds, tagNames, existing)
    {
      CategoryFeedsMembership(rssFeeds, tagNames, existing, Lower(rssFeeds[i]));
    }
  }

  /** The link list of the grown source list is the old link list followed by the added links. */
  lemma LinksAfterBuild(links: seq<string>, existing: seq<string>, added: seq<string>, sources: seq<Source>, n: nat)
    requires |sources| == n + |added| == |links| && |existing| == n
    requires forall i :: 0 <= i < |links| ==> links[i] == sources[i].link
    requires forall i :: 0 <= i < n ==> existing[i] == sources[i].link
    requires forall k :: 0 <= k < |added| ==> sources[n + k].link == added[k]
    ensures links == existing + added
  {
  }

  /**
   * A link is added exactly when it is the lowercase form of some candidate,
   * mentions a tag name (case-sensitively) and is not already a link of the category.
   */
  lemma CategoryFeedsMembership(rssFeeds: seq<string>, tagNames: seq<string>, existing: seq<string>, link: string)
    ensures link in CategoryFeeds(rssFeeds, tagNames, existing) <==>
              && (exists i :: 0 <= i < |rssFeeds| && Lower(rssFeeds[i]) == link)
              && MentionsTag(link, tagNames)
              && link !in existing
  {
    var lowered := LowerFeeds(rssFeeds);
    var tagged := Filter(lowered, (rss: string) => MentionsTag(rss, tagNames));
    var r := CategoryFeeds(rssFeeds, tagNames, existing);
    if link in r {
      var j :| 0 <= j < |r| && r[j] == link;
      assert link in tagged;
      var k :| 0 <= k < |tagged| && tagged[k] == link;
      var i :| 0 <= i < |lowered| && lowered[i] == link;
      assert Lower(rssFeeds[i]) == link;
    }
    if (exists i :: 0 <= i < |rssFeeds| && Lower(rssFeeds[i]) == link) && MentionsTag(link, tagNames) && link !in existing {
      var i :| 0 <= i < |rssFeeds| && Lower(rssFeeds[i]) == link;
      assert lowered[i] == link;
      var k :| 0 <= k < |tagged| && tagged[k] == link;
    }
  }

  /** Every added link is in lowercase. */
  lemma CategoryFeedsAreLower(rssFeeds: seq<string>, tagNames: seq<string>, existing: seq<string>)
    ensures forall j :: 0 <= j < |CategoryFeeds(rssFeeds, tagNames, existing)| ==>
              IsLower(CategoryFeeds(rssFeeds, tagNames, existing)[j])
  {
    var r := CategoryFeeds(rssFeeds, tagNames, existing);
    forall j | 0 <= j < |r| ensures IsLower(r[j]) {
      CategoryFeedsMembership(rssFeeds, tagNames, existing, r[j]);
      var i :| 0 <= i < |rssFeeds| && Lower(rssFeeds[i]) == r[j];
      LowerIsLower(rssFeeds[i]);
    }
  }

  /**
   * A selected link is added once for every candidate that lowercases to it,
   * so a link repeated among the candidates becomes several sources.
   */
  lemma CategoryFeedsCount(rssFeeds: seq<string>, tagNames: seq<string>, existing: seq<string>, link: string)
    ensures multiset(CategoryFeeds(rssFeeds, tagNames, existing))[link] ==
              if MentionsTag(link, tagNames) && link !in existing then multiset(LowerFeeds(rssFeeds))[link] else 0
  {
    var p1 := (rss: string) => MentionsTag(rss, tagNames);
    var p2 := (rss: string) => rss !in existing;
    FilterCount(LowerFeeds(rssFeeds), p1, link);
    FilterCount(Filter(LowerFeeds(rssFeeds), p1), p2, link);
  }

  /** A category without tags gets no new source. */
  lemma CategoryFeedsWithoutTags(rssFeeds: seq<string>, existing: seq<string>)
    ensures CategoryFeeds(rssFeeds, [], existing) == []
  {
    var p1 := (rss: string) => MentionsTag(rss, []);
    FilterNone(LowerFeeds(rssFeeds), p1);
  }

  /** The added links keep the order of the candidates they come from. */
  lemma CategoryFeedsOrdered(rssFeeds: seq<string>, tagNames: seq<string>, existing: seq<string>)
    ensures IsSubsequence(CategoryFeeds(rssFeeds, tagNames, existing), LowerFeeds(rssFeeds))
  {
    var p1 := (rss: string) => MentionsTag(rss, tagNames);
    var p2 := (rss: string) => rss !in existing;
    var tagged := Filter(LowerFeeds(rssFeeds), p1);
    FilterIsSubsequence(LowerFeeds(rssFeeds), p1);
    FilterIsSubsequence(tagged, p2);
    SubsequenceTransitive(Filter(tagged, p2), tagged, LowerFeeds(rssFeeds));
  }
}
