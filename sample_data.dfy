/**
 * The client's bundled sample articles and the queries over them: the latest
 * articles (which sort the module-level array in place), the category and
 * author filters, and the search; and the API-backed twins, which fall back to
 * these queries when the request throws.
 */
module SampleData {
  import opened Wrappers
  import opened Text
  import opened Schema
  import Seqs

  /** A sample article, with the fields the queries look at. */
  datatype SampleArticle = SampleArticle(
    id: string,
    title: string,
    summary: string,
    content: string,
    authorId: string,
    categorySlug: string,
    tags: seq<string>,
    publishedAt: Timestamp)

  /** The sort key of `(a, b) => b.publishedAt.getTime() - a.publishedAt.getTime()`: newest first. */
  function PublishedAt(a: SampleArticle): int {
    a.publishedAt
  }

  /** What an API call gave back: it threw, or it answered with or without `data.articles`. */
  datatype ApiResult = Threw | Answered(articles: Option<seq<SampleArticle>>)

  function InCategory(slug: string): SampleArticle -> bool {
    (a: SampleArticle) => a.categorySlug == slug
  }

  function ByAuthor(id: string): SampleArticle -> bool {
    (a: SampleArticle) => a.authorId == id
  }

  /** The search test for an already lower-cased query: title, summary or some tag contains it; the content is not searched. */
  predicate Matches(a: SampleArticle, query: string) {
    || Contains(Lower(a.title), query)
    || Contains(Lower(a.summary), query)
    || exists t | t in a.tags :: Contains(Lower(t), query)
  }

  function MatchesFn(query: string): SampleArticle -> bool {
    (a: SampleArticle) => Matches(a, query)
  }

  /** The module holding `sampleArticles`. */
  class Samples {
    var articles: seq<SampleArticle>

    constructor(initial: seq<SampleArticle>)
      ensures articles == initial
    {
      articles := initial;
    }

    /**
     * getLatestArticlesSync: sorts `sampleArticles` itself newest first (a stable
     * sort), then returns its first `limit` articles.
     */
    method GetLatestArticlesSync(limit: nat) returns (r: seq<SampleArticle>)
      modifies this
      ensures articles == Seqs.SortDesc(old(articles), PublishedAt)
      ensures r == Seqs.Prefix(articles, limit)
    {
      articles := Seqs.SortDesc(articles, PublishedAt);
      r := Seqs.Prefix(articles, limit);
    }

    /** getArticlesByCategorySync: the articles in that category, in array order. */
    function GetArticlesByCategorySync(slug: string): (r: seq<SampleArticle>)
      reads this
      ensures Seqs.IsSubsequence(r, articles)
      ensures forall a :: a in r <==> a in articles && a.categorySlug == slug
      ensures forall a :: multiset(r)[a] == if a.categorySlug == slug then multiset(articles)[a] else 0
    {
      Seqs.FilterSpec(InCategory(slug), articles);
      Seqs.Filter(InCategory(slug), articles)
    }

    /** getArticlesByAuthorSync: the articles by that author, in array order. */
    function GetArticlesByAuthorSync(id: string): (r: seq<SampleArticle>)
      reads this
      ensures Seqs.IsSubsequence(r, articles)
      ensures forall a :: a in r <==> a in articles && a.authorId == id
      ensures forall a :: multiset(r)[a] == if a.authorId == id then multiset(articles)[a] else 0
    {
      Seqs.FilterSpec(ByAuthor(id), articles);
      Seqs.Filter(ByAuthor(id), articles)
    }

    /** searchArticlesSync: the articles whose title, summary or a tag contains the query, ignoring ASCII case. */
    function SearchArticlesSync(query: string): (r: seq<SampleArticle>)
      reads this
      ensures Seqs.IsSubsequence(r, articles)
      ensures forall a :: a in r <==> a in articles && Matches(a, Lower(query))
      ensures forall a :: multiset(r)[a] == if Matches(a, Lower(query)) then multiset(articles)[a] else 0
    {
      Seqs.FilterSpec(MatchesFn(Lower(query)), articles);
      Seqs.Filter(MatchesFn(Lower(query)), articles)
    }

    /**
     * getLatestArticles: the API's articles when it answers with some; the
     * first `limit` sample articles in their current, unsorted order when the
     * answer has none; the sorting sync query when the request throws.
     */
    method GetLatestArticles(limit: nat, api: ApiResult) returns (r: seq<SampleArticle>)
      modifies this
      ensures api.Answered? && api.articles.Some? ==> r == api.articles.value && articles == old(articles)
      ensures api.Answered? && api.articles.None? ==> r == Seqs.Prefix(old(articles), limit) && articles == old(articles)
      ensures api.Threw? ==>
        articles == Seqs.SortDesc(old(articles), PublishedAt) && r == Seqs.Prefix(articles, limit)
    {
      if api.Threw? {
        r := GetLatestArticlesSync(limit);
      } else {
        r := api.articles.GetOr(Seqs.Prefix(articles, limit));
      }
    }

    /** getArticlesByCategory: the API's articles, [] when the answer has none, the sync filter when it throws. */
    function GetArticlesByCategory(slug: string, api: ApiResult): (r: seq<SampleArticle>)
      reads this
      ensures api.Threw? ==> r == GetArticlesByCategorySync(slug)
      ensures api.Answered? ==> r == api.articles.GetOr([])
    {
      match api
      case Threw => GetArticlesByCategorySync(slug)
      case Answered(articles) => articles.GetOr([])
    }

    /** getArticlesByAuthor: the API's articles, [] when the answer has none, the sync filter when it throws. */
    function GetArticlesByAuthor(id: string, api: ApiResult): (r: seq<SampleArticle>)
      reads this
      ensures api.Threw? ==> r == GetArticlesByAuthorSync(id)
      ensures api.Answered? ==> r == api.articles.GetOr([])
    {
      match api
      case Threw => GetArticlesByAuthorSync(id)
      case Answered(articles) => articles.GetOr([])
    }

    /** searchArticles: the API's articles, [] when the answer has none, the sync search when it throws. */
    function SearchArticles(query: string, api: ApiResult): (r: seq<SampleArticle>)
      reads this
      ensures api.Threw? ==> r == SearchArticlesSync(query)
      ensures api.Answered? ==> r == api.articles.GetOr([])
    {
      match api
      case Threw => SearchArticlesSync(query)
      case Answered(articles) => articles.GetOr([])
    }
  }

  /**
   * The latest articles are the newest `min(limit, n)` articles, newest first,
   * and the array left behind is a sorted permutation of what it held.
   */
  lemma LatestArticlesSpec(articles: seq<SampleArticle>, limit: nat)
    ensures var sorted := Seqs.SortDesc(articles, PublishedAt);
      && Seqs.SortedDesc(sorted, PublishedAt)
      && multiset(sorted) == multiset(articles)
      && var latest := Seqs.Prefix(sorted, limit);
      && |latest| == (if limit < |articles| then limit else |articles|)
      && Seqs.SortedDesc(latest, PublishedAt)
      && (forall i, a :: 0 <= i < |latest| && a in articles && a !in latest ==> a.publishedAt <= latest[i].publishedAt)
  {
    var sorted := Seqs.SortDesc(articles, PublishedAt);
    Seqs.SortDescSorted(articles, PublishedAt);
    var latest := Seqs.Prefix(sorted, limit);
    forall i, a | 0 <= i < |latest| && a in articles && a !in latest
      ensures a.publishedAt <= latest[i].publishedAt
    {
      assert a in multiset(articles);
      assert a in sorted;
      var j :| 0 <= j < |sorted| && sorted[j] == a;
      assert j >= |latest|;
    }
  }

  /** Calling getLatestArticlesSync again does not reorder the array any further. */
  lemma LatestArticlesSettle(articles: seq<SampleArticle>)
    ensures Seqs.SortDesc(Seqs.SortDesc(articles, PublishedAt), PublishedAt) == Seqs.SortDesc(articles, PublishedAt)
  {
    Seqs.SortDescSorted(articles, PublishedAt);
    Seqs.SortDescOfSorted(Seqs.SortDesc(articles, PublishedAt), PublishedAt);
  }

  /** The empty query matches every article. */
  lemma EmptyQueryMatchesAll(articles: seq<SampleArticle>)
    ensures Seqs.Filter(MatchesFn(Lower("")), articles) == articles
  {
    forall a | a in articles
      ensures MatchesFn(Lower(""))(a)
    {
      assert Lower("") == "";
      ContainsEmpty(Lower(a.title));
    }
    Seqs.FilterKeepsAll(MatchesFn(Lower("")), articles);
  }

  /** The search never looks at the content. */
  lemma SearchIgnoresContent(a: SampleArticle, query: string, content: string)
    ensures Matches(a.(content := content), query) == Matches(a, query)
  {
  }

  /** The search ignores ASCII case in the query. */
  lemma SearchIgnoresQueryCase(a: SampleArticle, query: string)
    ensures Matches(a, Lower(Lower(query))) == Matches(a, Lower(query))
  {
    assert Lower(Lower(query)) == Lower(query);
  }
}
