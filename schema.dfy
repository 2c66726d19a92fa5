/**
 * The persisted records shared by the aggregator and the controllers, with the
 * JavaScript truthiness tests the source applies to their fields.
 */
module Schema {
  import opened Wrappers

  /** Milliseconds since the epoch, as `Date.getTime()` returns them. */
  type Timestamp = int

  /** A configured external site; `rssUrl` and `logoUrl` are nullable columns. */
  datatype NewsSource = NewsSource(
    id: string,
    name: string,
    url: string,
    rssUrl: Option<string>,
    logoUrl: Option<string>,
    isActive: bool,
    lastScrapedAt: Option<Timestamp>)

  datatype Author = Author(id: string, name: string)

  datatype Category = Category(id: string, name: string, slug: string, description: string, color: string)

  /** A string value is truthy in JavaScript exactly when it is not empty. */
  predicate Truthy(s: string) {
    s != ""
  }

  /** A nullable string is truthy when it is present and not empty. */
  predicate TruthyOpt(s: Option<string>) {
    s.Some? && s.value != ""
  }

  /** The author names the seed script creates. */
  const SeededAuthorNames: seq<string> := ["Claude AI Reporter", "GPT News Writer", "Gemini Analyst"]

  /** The category slugs the seed script creates. */
  const SeededCategorySlugs: seq<string> :=
    ["machine-learning", "ai-industry", "research", "ethics-policy", "applications"]

  /** The HTTP status codes the controllers answer with. */
  const Ok: nat := 200
  const Created: nat := 201
  const BadRequest: nat := 400
  const NotFound: nat := 404
  const ServerError: nat := 500

  /** An HTTP answer: the status code and the record sent back, if any. */
  datatype Reply<T> = Reply(code: nat, data: Option<T>)

  /** The status a visible article has. */
  const PublishedStatus: string := "PUBLISHED"

  /**
   * An article as the statistics and listing endpoints select it: its
   * references, the names they resolve to, its status and view count, and the
   * month key `publishedAt.toISOString().substring(0, 7)`.
   */
  datatype ArticleFacts = ArticleFacts(
    id: string,
    authorId: string,
    authorName: string,
    categoryId: string,
    categoryName: string,
    status: string,
    viewCount: nat,
    month: string)

  predicate IsPublished(a: ArticleFacts) {
    a.status == PublishedStatus
  }
}
