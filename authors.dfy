/**
 * The authors controller: the paginated author listing with article counts,
 * one author with their latest published articles, the paginated articles of
 * one author, and their statistics. Unlike the category counts, an author's
 * `_count.articles` counts every article, published or not.
 */
module Authors {
  import opened Wrappers
  import opened Schema
  import Seqs
  import Paging
  import Tally

  /** The tables the endpoints read, each in the order its query returns it. */
  datatype Catalog = Catalog(authors: seq<Author>, articles: seq<ArticleFacts>)

  /** The number of latest articles getAuthorById includes. */
  const LatestArticles: nat := 10

  function ByAuthorId(id: string): ArticleFacts -> bool {
    (a: ArticleFacts) => a.authorId == id
  }

  /** The filter `{ authorId: id, status: 'PUBLISHED' }`. */
  function PublishedByAuthorId(id: string): ArticleFacts -> bool {
    (a: ArticleFacts) => a.authorId == id && IsPublished(a)
  }

  /** `_count: { select: { articles: true } }`: all of the author's articles. */
  function ArticleCount(catalog: Catalog, id: string): (n: nat)
    ensures n <= |catalog.articles|
    ensures n == |AuthorPositions(catalog.articles, id)|
  {
    CountIsPositions(catalog.articles, id);
    |Seqs.Filter(ByAuthorId(id), catalog.articles)|
  }

  /** The positions of the article table that hold an article by the author. */
  function AuthorPositions(articles: seq<ArticleFacts>, id: string): set<nat> {
    set i: nat | i < |articles| && articles[i].authorId == id
  }

  /** The filter keeps one article per position holding one of the author's articles. */
  lemma {:induction false} CountIsPositions(articles: seq<ArticleFacts>, id: string)
    ensures |Seqs.Filter(ByAuthorId(id), articles)| == |AuthorPositions(articles, id)|
    decreases |articles|
  {
    if articles != [] {
      var init := articles[..|articles| - 1];
      var last := articles[|articles| - 1];
      assert articles == init + [last];
      CountIsPositions(init, id);
      Seqs.FilterSnoc(ByAuthorId(id), init, last);
      PositionsSnoc(articles, id);
    }
  }

  /** The positions in `articles` are those in all but its last element, and its last index when that one matches. */
  lemma PositionsSnoc(articles: seq<ArticleFacts>, id: string)
    requires articles != []
    ensures var n := |articles| - 1;
      && n !in AuthorPositions(articles[..n], id)
      && AuthorPositions(articles, id)
         == AuthorPositions(articles[..n], id) + (if articles[n].authorId == id then {n} else {})
  {
    var n := |articles| - 1;
    var init := articles[..n];
    forall i: nat | i in AuthorPositions(articles, id) && i < n
      ensures i in AuthorPositions(init, id)
    {
      assert articles[i] == init[i];
    }
    forall i: nat | i in AuthorPositions(init, id)
      ensures i in AuthorPositions(articles, id)
    {
      assert articles[i] == init[i];
    }
  }


  /** The author's published articles, in query order. */
  function PublishedBy(catalog: Catalog, id: string): (r: seq<ArticleFacts>)
    ensures Seqs.IsSubsequence(r, catalog.articles)
    ensures forall a :: a in r <==> a in catalog.articles && a.authorId == id && IsPublished(a)
    ensures forall a :: multiset(r)[a] == if a.authorId == id && IsPublished(a) then multiset(catalog.articles)[a] else 0
  {
    Seqs.FilterSpec(PublishedByAuthorId(id), catalog.articles);
    Seqs.Filter(PublishedByAuthorId(id), catalog.articles)
  }

  /** Every published article of the author is counted, so the count bounds the published ones. */
  lemma {:induction false} PublishedWithinCount(articles: seq<ArticleFacts>, id: string)
    ensures |Seqs.Filter(PublishedByAuthorId(id), articles)| <= |Seqs.Filter(ByAuthorId(id), articles)|
  {
    if articles != [] {
      PublishedWithinCount(articles[1..], id);
    }
  }

  /** An author row as the query returns it, with `_count.articles`. */
  datatype CountedAuthor = CountedAuthor(author: Author, count: nat)

  /** The response shape: the author's own fields and `articleCount`, with `_count` dropped. */
  datatype AuthorWithCount = AuthorWithCount(id: string, name: string, articleCount: nat)

  /** `{ ...author, articleCount: author._count.articles, _count: undefined }`. */
  function WithCount(c: CountedAuthor): AuthorWithCount {
    AuthorWithCount(c.author.id, c.author.name, c.count)
  }

  /** The inverse of the flattening. */
  function Nested(v: AuthorWithCount): CountedAuthor {
    CountedAuthor(Author(v.id, v.name), v.articleCount)
  }

  /** Flattening loses nothing: every field survives, `articleCount` carries `_count.articles`. */
  lemma FlatteningRoundTrip(c: CountedAuthor, v: AuthorWithCount)
    ensures Nested(WithCount(c)) == c
    ensures WithCount(Nested(v)) == v
    ensures WithCount(c).articleCount == c.count
  {
  }

  function WithCountFn(catalog: Catalog): Author -> AuthorWithCount {
    (a: Author) => WithCount(CountedAuthor(a, ArticleCount(catalog, a.id)))
  }

  /** The `data` of getAuthors. */
  datatype AuthorPage = AuthorPage(authors: seq<AuthorWithCount>, pagination: Paging.Pagination)

  /** getAuthors: one page of authors, each with their article count, and the page count over all authors. */
  function GetAuthors(catalog: Catalog, page: nat, limit: nat): (r: AuthorPage)
    requires page >= 1 && limit >= 1
    ensures |r.authors| == |Paging.Window(catalog.authors, page, limit)| <= limit
    ensures forall j :: 0 <= j < |r.authors| ==>
      var author := Paging.Window(catalog.authors, page, limit)[j];
      Nested(r.authors[j]).author == author && r.authors[j].articleCount == ArticleCount(catalog, author.id)
    ensures r.pagination == Paging.Paginate(page, limit, |catalog.authors|)
  {
    Paging.WindowSpec(catalog.authors, page, limit);
    AuthorPage(
      Seqs.Map(WithCountFn(catalog), Paging.Window(catalog.authors, page, limit)),
      Paging.Paginate(page, limit, |catalog.authors|))
  }

  function HasId(id: string): Author -> bool {
    (a: Author) => a.id == id
  }

  /** The `data` of getAuthorById: the author with their count and latest published articles. */
  datatype AuthorDetail = AuthorDetail(author: AuthorWithCount, articles: seq<ArticleFacts>)

  /** getAuthorById: 404 when no author has that id; otherwise at most ten of their published articles. */
  function GetAuthorById(catalog: Catalog, id: string): (r: Reply<AuthorDetail>)
    ensures r.code == NotFound <==> forall a :: a in catalog.authors ==> a.id != id
    ensures r.code == NotFound ==> r.data.None?
    ensures r.code != NotFound ==>
      r.code == Ok && r.data.Some?
      && Nested(r.data.value.author).author in catalog.authors
      && r.data.value.author.id == id
      && r.data.value.author.articleCount == ArticleCount(catalog, id)
      && r.data.value.articles == Seqs.Prefix(PublishedBy(catalog, id), LatestArticles)
  {
    match Seqs.FindFirst(HasId(id), catalog.authors)
    case None => Reply(NotFound, None)
    case Some(k) =>
      var author := catalog.authors[k];
      Reply(Ok, Some(AuthorDetail(
        WithCount(CountedAuthor(author, ArticleCount(catalog, id))),
        Seqs.Prefix(PublishedBy(catalog, id), LatestArticles))))
  }

  /** The `data` of getAuthorArticles. */
  datatype AuthorArticles = AuthorArticles(author: Author, articles: seq<ArticleFacts>, pagination: Paging.Pagination)

  /**
   * getAuthorArticles: 404 when the author is missing; otherwise one page of
   * their published articles and the page count over all of them.
   */
  function GetAuthorArticles(catalog: Catalog, id: string, page: nat, limit: nat): (r: Reply<AuthorArticles>)
    requires page >= 1 && limit >= 1
    ensures r.code == NotFound <==> forall a :: a in catalog.authors ==> a.id != id
    ensures r.code != NotFound ==>
      r.code == Ok && r.data.Some?
      && r.data.value.author in catalog.authors && r.data.value.author.id == id
      && r.data.value.articles == Paging.Window(PublishedBy(catalog, id), page, limit)
      && r.data.value.pagination == Paging.Paginate(page, limit, |PublishedBy(catalog, id)|)
  {
    match Seqs.FindFirst(HasId(id), catalog.authors)
    case None => Reply(NotFound, None)
    case Some(k) =>
      var selected := PublishedBy(catalog, id);
      Reply(Ok, Some(AuthorArticles(
        catalog.authors[k], Paging.Window(selected, page, limit), Paging.Paginate(page, limit, |selected|))))
  }

  /** The author is looked up before any article is read: a 404 is the same whatever the article table holds. */
  lemma NotFoundReadsNoArticles(authors: seq<Author>, articles: seq<ArticleFacts>, other: seq<ArticleFacts>, id: string, page: nat, limit: nat)
    requires page >= 1 && limit >= 1
    requires GetAuthorArticles(Catalog(authors, articles), id, page, limit).code == NotFound
    ensures GetAuthorArticles(Catalog(authors, other), id, page, limit) == Reply(NotFound, None)
  {
  }

  /** The statistics row of an article, grouped by its category's name. */
  function ByCategory(a: ArticleFacts): Tally.StatRow {
    Tally.StatRow(a.viewCount, a.month, a.categoryName)
  }

  /**
   * getAuthorStats: 404 when the author is missing; otherwise the totals, the
   * rounded average and the counts by category name and by month over the
   * author's published articles.
   */
  method GetAuthorStats(catalog: Catalog, id: string) returns (r: Reply<Tally.Stats>)
    ensures r.code == NotFound <==> forall a :: a in catalog.authors ==> a.id != id
    ensures r.code == NotFound ==> r.data.None?
    ensures r.code != NotFound ==>
      r.code == Ok && r.data.Some?
      && Tally.Describes(r.data.value, Seqs.Map(ByCategory, PublishedBy(catalog, id)))
  {
    var found := Seqs.FindFirst(HasId(id), catalog.authors);
    if found.None? {
      return Reply(NotFound, None);
    }
    var stats := Tally.Summarize(Seqs.Map(ByCategory, PublishedBy(catalog, id)));
    r := Reply(Ok, Some(stats));
  }

  /** Per category name, the count is the number of the author's published articles in that category. */
  lemma {:induction false} CategoryCountIsArticleCount(articles: seq<ArticleFacts>, name: string)
    ensures multiset(Seqs.Map(Tally.GroupOf, Seqs.Map(ByCategory, articles)))[name]
      == |Seqs.Filter((a: ArticleFacts) => a.categoryName == name, articles)|
  {
    if articles != [] {
      CategoryCountIsArticleCount(articles[1..], name);
      assert Seqs.Map(Tally.GroupOf, Seqs.Map(ByCategory, articles))
        == [articles[0].categoryName] + Seqs.Map(Tally.GroupOf, Seqs.Map(ByCategory, articles[1..]));
    }
  }
}
