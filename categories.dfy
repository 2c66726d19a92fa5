/**
 * The categories controller: the category listings with their published-article
 * count, the paginated articles of one category, and its statistics. The
 * database is a catalog of category rows and article rows; a lookup by id or
 * slug that finds nothing answers 404.
 */
module Categories {
  import opened Wrappers
  import opened Schema
  import Seqs
  import Paging
  import Tally

  /** The tables the endpoints read; `articles` is in the order the article query returns them (newest first). */
  datatype Catalog = Catalog(categories: seq<Category>, articles: seq<ArticleFacts>)

  /** The filter `{ categoryId: id, status: 'PUBLISHED' }`. */
  function InCategory(id: string): ArticleFacts -> bool {
    (a: ArticleFacts) => a.categoryId == id && IsPublished(a)
  }

  /** The category's published articles, in query order. */
  function PublishedIn(catalog: Catalog, id: string): (r: seq<ArticleFacts>)
    ensures Seqs.IsSubsequence(r, catalog.articles)
    ensures forall a :: a in r <==> a in catalog.articles && a.categoryId == id && IsPublished(a)
    ensures forall a :: multiset(r)[a] == if a.categoryId == id && IsPublished(a) then multiset(catalog.articles)[a] else 0
  {
    Seqs.FilterSpec(InCategory(id), catalog.articles);
    Seqs.Filter(InCategory(id), catalog.articles)
  }

  /** A category row as the query returns it, with `_count.articles`. */
  datatype CountedCategory = CountedCategory(category: Category, count: nat)

  /** The response shape: the category's own fields and `articleCount`, with `_count` dropped. */
  datatype CategoryWithCount = CategoryWithCount(
    id: string, name: string, slug: string, description: string, color: string, articleCount: nat)

  /** `{ ...category, articleCount: category._count.articles, _count: undefined }`. */
  function WithCount(c: CountedCategory): CategoryWithCount {
    CategoryWithCount(c.category.id, c.category.name, c.category.slug, c.category.description, c.category.color, c.count)
  }

  /** The inverse of the flattening: the query row the response was made from. */
  function Nested(v: CategoryWithCount): CountedCategory {
    CountedCategory(Category(v.id, v.name, v.slug, v.description, v.color), v.articleCount)
  }

  /** Flattening loses nothing: every field survives, `articleCount` carries `_count.articles`. */
  lemma FlatteningRoundTrip(c: CountedCategory, v: CategoryWithCount)
    ensures Nested(WithCount(c)) == c
    ensures WithCount(Nested(v)) == v
    ensures WithCount(c).articleCount == c.count
  {
  }

  /** `_count: { select: { articles: { where: { status: 'PUBLISHED' } } } }`. */
  function Counted(catalog: Catalog, c: Category): (r: CountedCategory)
    ensures r.category == c && r.count == |PublishedIn(catalog, c.id)|
  {
    CountedCategory(c, |PublishedIn(catalog, c.id)|)
  }

  function CountedFn(catalog: Catalog): Category -> CountedCategory {
    c => Counted(catalog, c)
  }

  function WithCountFn(catalog: Catalog): Category -> CategoryWithCount {
    c => WithCount(Counted(catalog, c))
  }

  /** getCategories: every category, in the given order, with its published-article count. */
  function GetCategories(catalog: Catalog): (r: seq<CategoryWithCount>)
    ensures |r| == |catalog.categories|
    ensures forall i :: 0 <= i < |r| ==>
      Nested(r[i]).category == catalog.categories[i]
      && r[i].articleCount == |PublishedIn(catalog, catalog.categories[i].id)|
  {
    Seqs.Map(WithCountFn(catalog), catalog.categories)
  }

  function HasId(id: string): Category -> bool { (c: Category) => c.id == id }
  function HasSlug(slug: string): Category -> bool { (c: Category) => c.slug == slug }

  /** `findUnique` followed by the 404 check and the flattening. */
  function Lookup(catalog: Catalog, p: Category -> bool): (r: Reply<CategoryWithCount>)
    ensures r.code == NotFound <==> forall c :: c in catalog.categories ==> !p(c)
    ensures r.code == NotFound ==> r.data.None?
    ensures r.code != NotFound ==>
      r.code == Ok && r.data.Some?
      && Nested(r.data.value).category in catalog.categories && p(Nested(r.data.value).category)
      && r.data.value.articleCount == |PublishedIn(catalog, r.data.value.id)|
  {
    match Seqs.FindFirst(p, catalog.categories)
    case None => Reply(NotFound, None)
    case Some(k) => Reply(Ok, Some(WithCount(Counted(catalog, catalog.categories[k]))))
  }

  /** getCategoryById: 404 when no category has that id. */
  function GetCategoryById(catalog: Catalog, id: string): (r: Reply<CategoryWithCount>)
    ensures r.code == NotFound <==> forall c :: c in catalog.categories ==> c.id != id
    ensures r.code != NotFound ==>
      r.code == Ok && r.data.Some? && r.data.value.id == id
      && Nested(r.data.value).category in catalog.categories
      && r.data.value.articleCount == |PublishedIn(catalog, id)|
  {
    Lookup(catalog, HasId(id))
  }

  /** getCategoryBySlug: 404 when no category has that slug. */
  function GetCategoryBySlug(catalog: Catalog, slug: string): (r: Reply<CategoryWithCount>)
    ensures r.code == NotFound <==> forall c :: c in catalog.categories ==> c.slug != slug
    ensures r.code != NotFound ==>
      r.code == Ok && r.data.Some? && r.data.value.slug == slug
      && Nested(r.data.value).category in catalog.categories
      && r.data.value.articleCount == |PublishedIn(catalog, r.data.value.id)|
  {
    Lookup(catalog, HasSlug(slug))
  }

  /** The `data` of getCategoryArticles. */
  datatype CategoryArticles = CategoryArticles(
    category: Category, articles: seq<ArticleFacts>, pagination: Paging.Pagination)

  /**
   * getCategoryArticles: 404 when the category is missing; otherwise one page of
   * its published articles and the page count over all of them.
   */
  function GetCategoryArticles(catalog: Catalog, id: string, page: nat, limit: nat): (r: Reply<CategoryArticles>)
    requires page >= 1 && limit >= 1
    ensures r.code == NotFound <==> forall c :: c in catalog.categories ==> c.id != id
    ensures r.code != NotFound ==>
      r.code == Ok && r.data.Some?
      && r.data.value.category in catalog.categories && r.data.value.category.id == id
      && r.data.value.articles == Paging.Window(PublishedIn(catalog, id), page, limit)
      && r.data.value.pagination == Paging.Paginate(page, limit, |PublishedIn(catalog, id)|)
  {
    match Seqs.FindFirst(HasId(id), catalog.categories)
    case None => Reply(NotFound, None)
    case Some(k) =>
      var selected := PublishedIn(catalog, id);
      Reply(Ok, Some(CategoryArticles(
        catalog.categories[k], Paging.Window(selected, page, limit), Paging.Paginate(page, limit, |selected|))))
  }

  /** The category is looked up before any article is read: a 404 is the same whatever the article table holds. */
  lemma NotFoundReadsNoArticles(categories: seq<Category>, articles: seq<ArticleFacts>, other: seq<ArticleFacts>, id: string, page: nat, limit: nat)
    requires page >= 1 && limit >= 1
    requires GetCategoryArticles(Catalog(categories, articles), id, page, limit).code == NotFound
    ensures GetCategoryArticles(Catalog(categories, other), id, page, limit) == Reply(NotFound, None)
  {
  }

  /** The statistics row of an article, grouped by its author's name. */
  function ByAuthor(a: ArticleFacts): Tally.StatRow {
    Tally.StatRow(a.viewCount, a.month, a.authorName)
  }

  /**
   * getCategoryStats: 404 when the category is missing; otherwise the totals,
   * the rounded average and the counts by author name and by month over the
   * category's published articles.
   */
  method GetCategoryStats(catalog: Catalog, id: string) returns (r: Reply<Tally.Stats>)
    ensures r.code == NotFound <==> forall c :: c in catalog.categories ==> c.id != id
    ensures r.code == NotFound ==> r.data.None?
    ensures r.code != NotFound ==>
      r.code == Ok && r.data.Some?
      && Tally.Describes(r.data.value, Seqs.Map(ByAuthor, PublishedIn(catalog, id)))
  {
    var found := Seqs.FindFirst(HasId(id), catalog.categories);
    if found.None? {
      return Reply(NotFound, None);
    }
    var stats := Tally.Summarize(Seqs.Map(ByAuthor, PublishedIn(catalog, id)));
    r := Reply(Ok, Some(stats));
  }

  /** Per author name, the count is the number of the category's published articles by that author. */
  lemma {:induction false} AuthorCountIsArticleCount(articles: seq<ArticleFacts>, name: string)
    ensures multiset(Seqs.Map(Tally.GroupOf, Seqs.Map(ByAuthor, articles)))[name]
      == |Seqs.Filter((a: ArticleFacts) => a.authorName == name, articles)|
  {
    if articles != [] {
      AuthorCountIsArticleCount(articles[1..], name);
      assert Seqs.Map(Tally.GroupOf, Seqs.Map(ByAuthor, articles))
        == [articles[0].authorName] + Seqs.Map(Tally.GroupOf, Seqs.Map(ByAuthor, articles[1..]));
    }
  }
}
