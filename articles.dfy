/**
 * The records the feed view passes along: a parsed feed entry, the article record
 * built from it, and the article as displayed.
 */
module Articles {
  import opened Wrappers
  import opened Timestamps
  import Urls

  /**
   * One entry of a parsed feed: its link, title and summary, and the parsed
   * `published` and `updated` times when the feed gave them.
   */
  datatype RawEntry = RawEntry(link: string, title: string, summary: string,
                               publishedParsed: Option<StructTime>, updatedParsed: Option<StructTime>)

  /** An article record: `url`, `title`, `summary`, `published` and `website`. */
  datatype Article = Article(url: string, title: string, summary: string, published: StructTime, website: string)

  /** An article ready for display: its `published` rewritten to a date string. */
  datatype DisplayArticle = DisplayArticle(url: string, title: string, summary: string, published: string, website: string)

  /** The key articles are deduplicated by: the path of their URL. */
  function ArticlePath(a: Article): string
  {
    Urls.Path(a.url)
  }

  /** The key equal records collapse by: the whole record. */
  function WholeRecord(a: Article): Article
  {
    a
  }
}
