/**
 * The admin controller's mutations of the article and news-source tables:
 * required-field validation, the derived slug and read time, the partial-update
 * merges, and the database constraints (unique id and slug, existing author and
 * category) whose violation makes a write throw and the handler answer 500.
 */
module Admin {
  import opened Wrappers
  import opened Schema
  import opened Enrichment

  /** A body field that can be left out (`undefined`), sent as `null`, or sent with a value. */
  datatype Field<T> = Undefined | Null | Given(value: T)

  /** What a nullable column receives from a body field: `null` for both `undefined` and `null`. */
  function Nullable<T>(f: Field<T>): (r: Option<T>)
    ensures r.Some? <==> f.Given?
    ensures f.Given? ==> r.value == f.value
  {
    if f.Given? then Some(f.value) else None
  }

  /** A row of the article table, with the columns the admin controller writes. */
  datatype ArticleRow = ArticleRow(
    id: string,
    title: string,
    slug: string,
    summary: string,
    content: string,
    authorId: string,
    categoryId: string,
    tags: seq<string>,
    publishedAt: Timestamp,
    readTime: nat,
    isAIGenerated: bool,
    sourceUrl: Option<string>,
    imageUrl: Option<string>,
    status: string)

  /**
   * The request body of createArticle and updateArticle. A string field that is
   * missing, null or empty is the empty string (all three are falsy), `tags` is
   * None when missing or null, and the two URL fields keep `undefined` apart from `null`.
   */
  datatype ArticleBody = ArticleBody(
    title: string,
    summary: string,
    content: string,
    authorId: string,
    categoryId: string,
    tags: Option<seq<string>>,
    sourceUrl: Field<string>,
    imageUrl: Field<string>,
    status: string)

  /** The request body of updateNewsSource; `isActive` is None when left out. */
  datatype SourceBody = SourceBody(
    name: string,
    url: string,
    rssUrl: Field<string>,
    logoUrl: Field<string>,
    isActive: Option<bool>)

  // ---------------------------------------------------------------------------
  // createArticle

  /** The validation of createArticle: title, summary, content, author and category all truthy. */
  predicate HasRequiredFields(b: ArticleBody) {
    Truthy(b.title) && Truthy(b.summary) && Truthy(b.content) && Truthy(b.authorId) && Truthy(b.categoryId)
  }

  /**
   * The row createArticle hands to the database. The slug and read-time
   * expressions in the controller are the aggregator's `createSlug` and
   * `calculateReadTime` written out again, so they are the same functions here.
   */
  function NewArticle(b: ArticleBody, id: string, now: Timestamp): ArticleRow {
    ArticleRow(
      id, b.title, CreateSlug(b.title), b.summary, b.content, b.authorId, b.categoryId,
      b.tags.GetOr([]), now, CalculateReadTime(b.content), false,
      Nullable(b.sourceUrl), Nullable(b.imageUrl), PublishedStatus)
  }

  /** The derived columns agree with the columns they are computed from. */
  predicate Derived(row: ArticleRow) {
    row.slug == CreateSlug(row.title) && row.readTime == CalculateReadTime(row.content)
  }

  /** A created article is hand-written, published, carries body fields verbatim and a well-formed slug. */
  lemma NewArticleSpec(b: ArticleBody, id: string, now: Timestamp)
    requires HasRequiredFields(b)
    ensures var row := NewArticle(b, id, now);
      && Derived(row)
      && IsSlug(row.slug)
      && row.readTime >= 1
      && !row.isAIGenerated
      && row.status == PublishedStatus
      && row.publishedAt == now
      && (b.tags.None? ==> row.tags == [])
      && (b.tags.Some? ==> row.tags == b.tags.value)
      && row.title == b.title && row.summary == b.summary && row.content == b.content
      && row.authorId == b.authorId && row.categoryId == b.categoryId
      && (b.sourceUrl.Undefined? ==> row.sourceUrl.None?)
  {
    CreateSlugIsSlug(b.title);
  }

  // ---------------------------------------------------------------------------
  // Database constraints

  /** No row other than the one with id `id` uses `slug` (the slug column is unique). */
  predicate SlugFree(articles: map<string, ArticleRow>, id: string, slug: string) {
    forall k | k in articles && k != id :: articles[k].slug != slug
  }

  /** The article table as the database keeps it: keyed by id, slugs distinct, references resolved. */
  ghost predicate WellFormed(articles: map<string, ArticleRow>, authorIds: set<string>, categoryIds: set<string>) {
    && (forall k | k in articles :: articles[k].id == k)
    && (forall k | k in articles :: articles[k].authorId in authorIds && articles[k].categoryId in categoryIds)
    && (forall k | k in articles :: SlugFree(articles, k, articles[k].slug))
  }

  /**
   * Storing `row` under its own id is a write the database lets through: writing
   * it into a well-formed table keeps the table well formed.
   */
  lemma StoreKeepsWellFormed(articles: map<string, ArticleRow>, row: ArticleRow, authorIds: set<string>, categoryIds: set<string>)
    requires WellFormed(articles, authorIds, categoryIds)
    requires SlugFree(articles, row.id, row.slug)
    requires row.authorId in authorIds && row.categoryId in categoryIds
    ensures WellFormed(articles[row.id := row], authorIds, categoryIds)
  {
    var after := articles[row.id := row];
    forall k | k in after
      ensures SlugFree(after, k, after[k].slug)
    {
      forall k' | k' in after && k' != k
        ensures after[k'].slug != after[k].slug
      {
        if k != row.id && k' != row.id {
          assert SlugFree(articles, k, articles[k].slug);
        } else if k' == row.id {
          assert SlugFree(articles, row.id, row.slug);
        }
      }
    }
  }

  /** Removing a row keeps a well-formed table well formed. */
  lemma RemoveKeepsWellFormed(articles: map<string, ArticleRow>, id: string, authorIds: set<string>, categoryIds: set<string>)
    requires WellFormed(articles, authorIds, categoryIds)
    ensures WellFormed(articles - {id}, authorIds, categoryIds)
  {
    var after := articles - {id};
    forall k | k in after
      ensures SlugFree(after, k, after[k].slug)
    {
      assert SlugFree(articles, k, articles[k].slug);
    }
  }

  // ---------------------------------------------------------------------------
  // updateArticle merge

  /**
   * The row updateArticle writes over `row`: each supplied truthy field replaces
   * the stored one, the slug and read time are recomputed only when title or
   * content changes, and the two URL columns take any value that is not `undefined`.
   */
  function MergeArticle(row: ArticleRow, b: ArticleBody): ArticleRow {
    var slug := if Truthy(b.title) && b.title != row.title then CreateSlug(b.title) else row.slug;
    var readTime := if Truthy(b.content) && b.content != row.content then CalculateReadTime(b.content) else row.readTime;
    Spread(row, b, slug, readTime)
  }

  /** The object spread of the update's `data`, given the slug and read time already settled. */
  function Spread(row: ArticleRow, b: ArticleBody, slug: string, readTime: nat): ArticleRow {
    row.(
      title := if Truthy(b.title) then b.title else row.title,
      slug := if Truthy(b.title) then slug else row.slug,
      summary := if Truthy(b.summary) then b.summary else row.summary,
      content := if Truthy(b.content) then b.content else row.content,
      readTime := if Truthy(b.content) then readTime else row.readTime,
      authorId := if Truthy(b.authorId) then b.authorId else row.authorId,
      categoryId := if Truthy(b.categoryId) then b.categoryId else row.categoryId,
      tags := if b.tags.Some? then b.tags.value else row.tags,
      sourceUrl := if b.sourceUrl.Undefined? then row.sourceUrl else Nullable(b.sourceUrl),
      imageUrl := if b.imageUrl.Undefined? then row.imageUrl else Nullable(b.imageUrl),
      status := if Truthy(b.status) then b.status else row.status)
  }

  /**
   * A stored field changes only when the body supplies it, and then it takes the
   * supplied value; the slug and read time change only with a different title or content.
   */
  lemma MergeArticleChanges(row: ArticleRow, b: ArticleBody)
    ensures var r := MergeArticle(row, b);
      && (r.title != row.title ==> Truthy(b.title) && r.title == b.title)
      && (Truthy(b.title) ==> r.title == b.title)
      && (r.slug != row.slug ==> Truthy(b.title) && b.title != row.title && r.slug == CreateSlug(b.title))
      && (Truthy(b.title) && b.title != row.title ==> r.slug == CreateSlug(b.title))
      && (r.summary != row.summary ==> Truthy(b.summary) && r.summary == b.summary)
      && (Truthy(b.summary) ==> r.summary == b.summary)
      && (r.content != row.content ==> Truthy(b.content) && r.content == b.content)
      && (Truthy(b.content) ==> r.content == b.content)
      && (r.readTime != row.readTime ==> Truthy(b.content) && b.content != row.content
                                         && r.readTime == CalculateReadTime(b.content))
      && (Truthy(b.content) && b.content != row.content ==> r.readTime == CalculateReadTime(b.content))
      && (r.authorId != row.authorId ==> Truthy(b.authorId) && r.authorId == b.authorId)
      && (r.categoryId != row.categoryId ==> Truthy(b.categoryId) && r.categoryId == b.categoryId)
      && (r.status != row.status ==> Truthy(b.status) && r.status == b.status)
      && (r.tags != row.tags ==> b.tags.Some? && r.tags == b.tags.value)
      && (b.tags.Some? ==> r.tags == b.tags.value)
      && (r.sourceUrl != row.sourceUrl ==> !b.sourceUrl.Undefined?)
      && (!b.sourceUrl.Undefined? ==> r.sourceUrl == Nullable(b.sourceUrl))
      && (r.imageUrl != row.imageUrl ==> !b.imageUrl.Undefined?)
      && (!b.imageUrl.Undefined? ==> r.imageUrl == Nullable(b.imageUrl))
      && r.id == row.id && r.publishedAt == row.publishedAt && r.isAIGenerated == row.isAIGenerated
  {
  }

  /** An update keeps the slug and read time in step with title and content when they were before. */
  lemma MergeKeepsDerived(row: ArticleRow, b: ArticleBody)
    requires Derived(row)
    ensures Derived(MergeArticle(row, b))
  {
  }

  /** Sending the same update twice leaves the row as the first time. */
  lemma MergeArticleIdempotent(row: ArticleRow, b: ArticleBody)
    ensures MergeArticle(MergeArticle(row, b), b) == MergeArticle(row, b)
  {
  }

  /** A body that supplies nothing leaves the row as it was. */
  lemma MergeEmptyArticleBody(row: ArticleRow)
    ensures MergeArticle(row, ArticleBody("", "", "", "", "", None, Undefined, Undefined, "")) == row
  {
  }

  // ---------------------------------------------------------------------------
  // updateNewsSource merge

  /** The row updateNewsSource writes: name and url when truthy, the other three when not `undefined`. */
  function MergeSource(source: NewsSource, b: SourceBody): NewsSource {
    source.(
      name := if Truthy(b.name) then b.name else source.name,
      url := if Truthy(b.url) then b.url else source.url,
      rssUrl := if b.rssUrl.Undefined? then source.rssUrl else Nullable(b.rssUrl),
      logoUrl := if b.logoUrl.Undefined? then source.logoUrl else Nullable(b.logoUrl),
      isActive := b.isActive.GetOr(source.isActive))
  }

  /** Fields change only when supplied; `isActive: false` and `rssUrl: null` do take effect. */
  lemma MergeSourceChanges(source: NewsSource, b: SourceBody)
    ensures var r := MergeSource(source, b);
      && (r.name != source.name ==> Truthy(b.name) && r.name == b.name)
      && (Truthy(b.name) ==> r.name == b.name)
      && (r.url != source.url ==> Truthy(b.url) && r.url == b.url)
      && (Truthy(b.url) ==> r.url == b.url)
      && (r.rssUrl != source.rssUrl ==> !b.rssUrl.Undefined?)
      && (b.rssUrl.Null? ==> r.rssUrl.None?)
      && (b.rssUrl.Given? ==> r.rssUrl == Some(b.rssUrl.value))
      && (r.logoUrl != source.logoUrl ==> !b.logoUrl.Undefined?)
      && (!b.logoUrl.Undefined? ==> r.logoUrl == Nullable(b.logoUrl))
      && (r.isActive != source.isActive ==> b.isActive.Some?)
      && (b.isActive == Some(false) ==> !r.isActive)
      && (b.isActive == Some(true) ==> r.isActive)
      && r.id == source.id && r.lastScrapedAt == source.lastScrapedAt
  {
  }

  /** Sending the same source update twice leaves the row as the first time. */
  lemma MergeSourceIdempotent(source: NewsSource, b: SourceBody)
    ensures MergeSource(MergeSource(source, b), b) == MergeSource(source, b)
  {
  }

  // ---------------------------------------------------------------------------
  // The two tables

  class AdminStore {
    var articles: map<string, ArticleRow>
    var sources: map<string, NewsSource>
    const authorIds: set<string>
    const categoryIds: set<string>

    ghost predicate Valid()
      reads this`articles
    {
      WellFormed(articles, authorIds, categoryIds)
    }

    /** Whether the database accepts `row` as the row stored under `row.id`. */
    predicate Admits(row: ArticleRow)
      reads this`articles
    {
      SlugFree(articles, row.id, row.slug) && row.authorId in authorIds && row.categoryId in categoryIds
    }

    constructor(articles: map<string, ArticleRow>, sources: map<string, NewsSource>, authorIds: set<string>, categoryIds: set<string>)
      requires WellFormed(articles, authorIds, categoryIds)
      ensures Valid()
      ensures this.articles == articles && this.sources == sources
      ensures this.authorIds == authorIds && this.categoryIds == categoryIds
    {
      this.articles := articles;
      this.sources := sources;
      this.authorIds := authorIds;
      this.categoryIds := categoryIds;
    }

    /**
     * createArticle with the id and clock the database supplies. A missing
     * required field answers 400 and writes nothing; a taken id or slug, or an
     * unknown author or category, makes the create throw: 500, nothing written.
     */
    method CreateArticle(b: ArticleBody, id: string, now: Timestamp) returns (reply: Reply<ArticleRow>)
      requires Valid()
      modifies this`articles
      ensures Valid()
      ensures !HasRequiredFields(b) ==> reply == Reply(BadRequest, None) && articles == old(articles)
      ensures HasRequiredFields(b) && (id in old(articles) || !old(Admits(NewArticle(b, id, now)))) ==>
        reply == Reply(ServerError, None) && articles == old(articles)
      ensures HasRequiredFields(b) && id !in old(articles) && old(Admits(NewArticle(b, id, now))) ==>
        reply == Reply(Created, Some(NewArticle(b, id, now)))
        && articles == old(articles)[id := NewArticle(b, id, now)]
    {
      if !HasRequiredFields(b) {
        return Reply(BadRequest, None);
      }
      var row := NewArticle(b, id, now);
      if id in articles || !Admits(row) {
        return Reply(ServerError, None);
      }
      StoreKeepsWellFormed(articles, row, authorIds, categoryIds);
      articles := articles[id := row];
      reply := Reply(Created, Some(row));
    }

    /**
     * updateArticle: 404 for an unknown id; otherwise the merged row is written
     * unless it breaks a constraint, which answers 500 and writes nothing.
     */
    method UpdateArticle(id: string, b: ArticleBody) returns (reply: Reply<ArticleRow>)
      requires Valid()
      modifies this`articles
      ensures Valid()
      ensures id !in old(articles) ==> reply == Reply(NotFound, None) && articles == old(articles)
      ensures id in old(articles) && !old(Admits(MergeArticle(articles[id], b))) ==>
        reply == Reply(ServerError, None) && articles == old(articles)
      ensures id in old(articles) && old(Admits(MergeArticle(articles[id], b))) ==>
        reply == Reply(Ok, Some(MergeArticle(old(articles)[id], b)))
        && articles == old(articles)[id := MergeArticle(old(articles)[id], b)]
    {
      if id !in articles {
        return Reply(NotFound, None);
      }
      var article := articles[id];
      var slug := article.slug;
      if Truthy(b.title) && b.title != article.title {
        slug := CreateSlug(b.title);
      }
      var readTime := article.readTime;
      if Truthy(b.content) && b.content != article.content {
        readTime := CalculateReadTime(b.content);
      }
      var row := Spread(article, b, slug, readTime);
      if !Admits(row) {
        return Reply(ServerError, None);
      }
      StoreKeepsWellFormed(articles, row, authorIds, categoryIds);
      articles := articles[id := row];
      reply := Reply(Ok, Some(row));
    }

    /** deleteArticle: 404 and nothing removed for an unknown id; otherwise the row is gone. */
    method DeleteArticle(id: string) returns (reply: Reply<ArticleRow>)
      requires Valid()
      modifies this`articles
      ensures Valid()
      ensures id !in old(articles) ==> reply == Reply(NotFound, None) && articles == old(articles)
      ensures id in old(articles) ==> reply == Reply(Ok, None) && articles == old(articles) - {id}
    {
      if id !in articles {
        return Reply(NotFound, None);
      }
      RemoveKeepsWellFormed(articles, id, authorIds, categoryIds);
      articles := articles - {id};
      reply := Reply(Ok, None);
    }

    /** updateNewsSource: 404 and nothing changed for an unknown id; otherwise the merged row. */
    method UpdateNewsSource(id: string, b: SourceBody) returns (reply: Reply<NewsSource>)
      modifies this`sources
      ensures id !in old(sources) ==> reply == Reply(NotFound, None) && sources == old(sources)
      ensures id in old(sources) ==>
        reply == Reply(Ok, Some(MergeSource(old(sources)[id], b)))
        && sources == old(sources)[id := MergeSource(old(sources)[id], b)]
    {
      if id !in sources {
        return Reply(NotFound, None);
      }
      var updated := MergeSource(sources[id], b);
      sources := sources[id := updated];
      reply := Reply(Ok, Some(updated));
    }
  }

  /** Deleting the article just created gives back the table as it was. */
  lemma DeleteUndoesCreate(articles: map<string, ArticleRow>, b: ArticleBody, id: string, now: Timestamp)
    requires id !in articles
    ensures articles[id := NewArticle(b, id, now)] - {id} == articles
  {
  }
}
