/**
 * The stored entities the feed pipeline reads and extends: a search tag, a feed
 * source, and a category that groups sources and tags.
 */
module Models {

  /** A keyword a category filters its feeds by. */
  datatype SearchTag = SearchTag(name: string)

  /**
   * One feed of a category. It is a stored row: two sources with the same link
   * are still two sources.
   */
  class Source {
    const name: string
    const link: string

    constructor (name: string, link: string)
      ensures this.name == name && this.link == link
    {
      this.name := name;
      this.link := link;
    }
  }

  /**
   * A named group of sources and search tags. The sources are kept in the order
   * they were added, which is the order articles are gathered in.
   */
  class Category {
    var name: string
    var sources: seq<Source>
    var searchTags: seq<SearchTag>

    constructor (name: string)
      ensures this.name == name && sources == [] && searchTags == []
    {
      this.name := name;
      sources := [];
      searchTags := [];
    }

    /** The names of the category's tags, as written. */
    function TagNames(): seq<string>
      reads this
    {
      seq(|searchTags|, i requires 0 <= i < |searchTags| reads this => searchTags[i].name)
    }

    /** The feed links of the category's sources, in source order. */
    function Links(): seq<string>
      reads this
    {
      seq(|sources|, i requires 0 <= i < |sources| reads this => sources[i].link)
    }
  }
}
