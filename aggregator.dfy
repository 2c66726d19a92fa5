/**
 * The `NewsAggregator` service: for every active news source it fetches new
 * items (from the RSS feed when the source has one, else by scraping the
 * homepage), enriches each item and commits it to the store as an external
 * article, a published article and a news summary.
 *
 * The database is the `Store` class; the network and the language model are
 * parameters: `Web` holds what every URL answers during one run and `Replies`
 * what the model answers for one article.
 */
module Aggregator {
  import opened Wrappers
  import opened Text
  import opened Schema
  import opened Enrichment
  import Seqs

  type Url = string

  /** The `ExternalArticle` interface: one fetched item before it is stored. */
  datatype ExternalArticle = ExternalArticle(
    title: string,
    content: string,
    url: Url,
    publishedAt: Timestamp,
    sourceName: string,
    sourceId: string)

  /**
   * One parsed feed entry; an absent field is the empty string, and
   * `published` is the instant `new Date(pubDate)` denotes.
   */
  datatype FeedItem = FeedItem(
    title: string,
    link: Url,
    pubDate: string,
    published: Timestamp,
    contentSnippet: string,
    content: string)

  /**
   * One element matched by `article, .post, .news-item` on a homepage: the text
   * of its first heading, the `href` of its first link (empty when absent), the
   * text of its first paragraph, and what `new URL(href, source.url)` yields
   * (None when the constructor throws).
   */
  datatype PageBlock = PageBlock(heading: string, href: string, paragraph: string, resolved: Option<Url>)

  /**
   * What the network answers during one run, None standing for a failed
   * request: the parsed feed at a URL, the matched blocks of a homepage, and
   * the text of the first main-content element of an article page.
   */
  datatype Web = Web(
    feeds: Url -> Option<seq<FeedItem>>,
    homepages: Url -> Option<seq<PageBlock>>,
    pages: Url -> Option<string>)

  /** What the language model answers for one article. */
  datatype Replies = Replies(summary: Completion, keyPoints: KeyPointsReply, fullContent: Completion)

  /** The stored `ExternalArticle` row. */
  datatype ExternalRecord = ExternalRecord(
    title: string,
    content: string,
    url: Url,
    sourceId: string,
    publishedAt: Timestamp,
    processed: bool)

  /**
   * A stored `Article` row. `sourceUrl` is null on the seed script's rows,
   * whatever the request sent on an administrator's, and the item's URL on the
   * rows written here.
   */
  datatype ArticleRecord = ArticleRecord(
    title: string,
    slug: string,
    summary: string,
    content: string,
    authorId: string,
    categoryId: string,
    tags: seq<string>,
    publishedAt: Timestamp,
    readTime: nat,
    isAIGenerated: bool,
    sourceUrl: Option<Url>)

  /** The stored `NewsSummary` row; `article` is the slug of the article it summarises. */
  datatype SummaryRecord = SummaryRecord(
    article: string,
    sourceId: string,
    summaryContent: string,
    keyPoints: seq<string>,
    aiModel: string)

  /** The two rows one enriched article adds. */
  datatype Publication = Publication(article: ArticleRecord, summary: SummaryRecord)

  const MaxFeedItems: nat := 10
  const MaxScrapedBlocks: nat := 5
  const MaxExtractedLength: nat := 5000
  const SummaryModel: string := "gpt-3.5-turbo"

  /** JavaScript's `a || b` on strings. */
  function Or(a: string, b: string): (r: string)
    ensures Truthy(a) ==> r == a
    ensures !Truthy(a) ==> r == b
  {
    if Truthy(a) then a else b
  }

  /** The tables the aggregator adds rows to, with the slugs of the articles it wrote itself. */
  datatype Tables = Tables(
    externals: map<Url, ExternalRecord>,
    articles: map<string, ArticleRecord>,
    summaries: seq<SummaryRecord>,
    aggregated: set<string>)

  /**
   * `after` extends `before`: no stored row is changed or lost, every new
   * article was written here from a URL that was not stored before, and
   * summaries are only appended.
   */
  predicate Extends(before: Tables, after: Tables) {
    && (forall u :: u in before.externals ==> u in after.externals && after.externals[u] == before.externals[u])
    && (forall s :: s in before.articles ==> s in after.articles && after.articles[s] == before.articles[s])
    && before.aggregated <= after.aggregated
    && (forall s :: s in after.articles && s !in before.articles ==>
          && s in after.aggregated
          && after.articles[s].sourceUrl.Some?
          && after.articles[s].sourceUrl.value !in before.externals)
    && before.summaries <= after.summaries
  }

  lemma ExtendsTransitive(t0: Tables, t1: Tables, t2: Tables)
    requires Extends(t0, t1) && Extends(t1, t2)
    ensures Extends(t0, t2)
  {
  }

  /**
   * The database tables the aggregator reads and writes; keys are the unique
   * columns (`ExternalArticle.url`, `Article.slug`, `Category.slug`). The
   * article table may hold rows the aggregator did not write.
   */
  class Store {
    var sources: seq<NewsSource>
    var externals: map<Url, ExternalRecord>
    var articles: map<string, ArticleRecord>
    var summaries: seq<SummaryRecord>
    var authors: seq<Author>
    var categories: map<string, Category>
    /** The slugs of the articles written here; the other rows come from the seed script or an administrator. */
    ghost var aggregated: set<string>

    ghost function Snapshot(): Tables
      reads this`externals, this`articles, this`summaries, this`aggregated
    {
      Tables(externals, articles, summaries, aggregated)
    }

    /** The state every run leaves behind, whichever write failed; source ids are distinct as well. */
    ghost predicate Valid()
      reads this
    {
      Consistent(Snapshot()) && DistinctIds(sources)
    }

    /** A database holding the given configuration and articles, and nothing the aggregator wrote. */
    constructor(sources: seq<NewsSource>, authors: seq<Author>, categories: map<string, Category>,
                articles: map<string, ArticleRecord>)
      requires DistinctIds(sources)
      requires forall s :: s in articles ==> articles[s].slug == s
      ensures Valid()
      ensures this.sources == sources && this.authors == authors && this.categories == categories
      ensures this.articles == articles
      ensures externals == map[] && summaries == [] && aggregated == {}
    {
      this.sources := sources;
      this.authors := authors;
      this.categories := categories;
      this.articles := articles;
      externals := map[];
      summaries := [];
      aggregated := {};
    }

    /** `externalArticle.create`, for a URL not stored yet; the row starts unprocessed. */
    method AddExternal(row: ExternalRecord)
      requires Valid() && row.url !in externals && !row.processed
      modifies this
      ensures Valid()
      ensures externals == old(externals)[row.url := row]
      ensures articles == old(articles) && summaries == old(summaries) && aggregated == old(aggregated)
      ensures sources == old(sources) && authors == old(authors) && categories == old(categories)
    {
      AddExternalKeepsConsistent(Snapshot(), row);
      externals := externals[row.url := row];
    }

    /** `article.create`, for an unprocessed external article no article was written from yet. */
    method CreateArticle(article: ArticleRecord)
      requires Valid() && article.slug !in articles
      requires article.sourceUrl.Some? && article.sourceUrl.value in externals
      requires !externals[article.sourceUrl.value].processed
      requires article.sourceUrl.value !in AggregatedUrls(articles, aggregated)
      modifies this
      ensures Valid()
      ensures articles == old(articles)[article.slug := article]
      ensures aggregated == old(aggregated) + {article.slug}
      ensures article.slug !in SummarizedSlugs(summaries)
      ensures externals == old(externals) && summaries == old(summaries)
      ensures sources == old(sources) && authors == old(authors) && categories == old(categories)
    {
      CreateArticleKeepsConsistent(Snapshot(), article);
      articles := articles[article.slug := article];
      aggregated := aggregated + {article.slug};
    }

    /** `newsSummary.create`, for an article written here that has no summary yet. */
    method AddSummary(summary: SummaryRecord)
      requires Valid() && summary.article in aggregated && summary.article !in SummarizedSlugs(summaries)
      modifies this
      ensures Valid()
      ensures summaries == old(summaries) + [summary]
      ensures summary.article in SummarizedSlugs(summaries)
      ensures externals == old(externals) && articles == old(articles) && aggregated == old(aggregated)
      ensures sources == old(sources) && authors == old(authors) && categories == old(categories)
    {
      AddSummaryKeepsConsistent(Snapshot(), summary);
      summaries := summaries + [summary];
    }

    /** `externalArticle.update`: marks the row processed once its article and that article's summary exist. */
    method MarkProcessed(url: Url, ghost slug: string)
      requires Valid() && url in externals
      requires slug in aggregated && slug in articles && articles[slug].sourceUrl == Some(url)
      requires slug in SummarizedSlugs(summaries)
      modifies this
      ensures Valid()
      ensures externals == old(externals)[url := old(externals)[url].(processed := true)]
      ensures articles == old(articles) && summaries == old(summaries) && aggregated == old(aggregated)
      ensures sources == old(sources) && authors == old(authors) && categories == old(categories)
    {
      MarkProcessedKeepsConsistent(Snapshot(), url, slug);
      externals := externals[url := externals[url].(processed := true)];
    }

    /** `newsSource.update`: stamps the source with id `id` with the time of the run. */
    method MarkScraped(id: string, now: Timestamp)
      requires Valid()
      modifies this
      ensures Valid()
      ensures sources == StampId(old(sources), id, now)
      ensures externals == old(externals) && articles == old(articles) && summaries == old(summaries)
      ensures aggregated == old(aggregated)
      ensures authors == old(authors) && categories == old(categories)
    {
      sources := StampId(sources, id, now);
    }
  }

  /** The URLs the articles written here were made from. */
  ghost function AggregatedUrls(articles: map<string, ArticleRecord>, aggregated: set<string>): set<Url> {
    set s | s in aggregated && s in articles && articles[s].sourceUrl.Some? :: articles[s].sourceUrl.value
  }

  ghost function SummarizedSlugs(summaries: seq<SummaryRecord>): set<string> {
    set i | 0 <= i < |summaries| :: summaries[i].article
  }

  /** The URLs whose article was written here and has its summary. */
  ghost function FinishedUrls(t: Tables): set<Url> {
    set s | s in t.aggregated && s in t.articles && t.articles[s].sourceUrl.Some? && s in SummarizedSlugs(t.summaries)
      :: t.articles[s].sourceUrl.value
  }

  /**
   * What the tables look like after any sequence of runs, whichever writes
   * failed: rows sit under their keys; each article written here comes from a
   * stored external article, no two from the same one; each summary belongs
   * to an article written here, at most one per article; and a processed
   * external article has its article, and that article its summary.
   */
  ghost predicate Consistent(t: Tables) {
    && (forall u :: u in t.externals ==> t.externals[u].url == u)
    && (forall s :: s in t.articles ==> t.articles[s].slug == s)
    && t.aggregated <= t.articles.Keys
    && (forall s :: s in t.aggregated ==>
          t.articles[s].sourceUrl.Some? && t.articles[s].sourceUrl.value in t.externals)
    && (forall s, s' :: s in t.aggregated && s' in t.aggregated && t.articles[s].sourceUrl == t.articles[s'].sourceUrl ==> s == s')
    && (forall i :: 0 <= i < |t.summaries| ==> t.summaries[i].article in t.aggregated)
    && (forall i, j :: 0 <= i < j < |t.summaries| ==> t.summaries[i].article != t.summaries[j].article)
    && (forall u :: u in t.externals && t.externals[u].processed ==> u in FinishedUrls(t))
  }

  /** No article written here comes from a URL that is not stored. */
  lemma UnstoredUrlIsUnclaimed(t: Tables, url: Url)
    requires Consistent(t) && url !in t.externals
    ensures url !in AggregatedUrls(t.articles, t.aggregated)
  {
  }

  lemma AddExternalKeepsConsistent(t: Tables, row: ExternalRecord)
    requires Consistent(t) && row.url !in t.externals && !row.processed
    ensures Consistent(t.(externals := t.externals[row.url := row]))
  {
    var t' := t.(externals := t.externals[row.url := row]);
    assert FinishedUrls(t') == FinishedUrls(t);
  }

  /** Writing an article for an unprocessed, unclaimed external article keeps the tables consistent. */
  lemma CreateArticleKeepsConsistent(t: Tables, article: ArticleRecord)
    requires Consistent(t) && article.slug !in t.articles
    requires article.sourceUrl.Some? && article.sourceUrl.value in t.externals
    requires !t.externals[article.sourceUrl.value].processed
    requires article.sourceUrl.value !in AggregatedUrls(t.articles, t.aggregated)
    ensures Consistent(t.(articles := t.articles[article.slug := article], aggregated := t.aggregated + {article.slug}))
    ensures article.slug !in SummarizedSlugs(t.summaries)
  {
    var t' := t.(articles := t.articles[article.slug := article], aggregated := t.aggregated + {article.slug});
    forall s | s in t.aggregated
      ensures t.articles[s].sourceUrl != article.sourceUrl
    {
      assert t.articles[s].sourceUrl.value in AggregatedUrls(t.articles, t.aggregated);
    }
    forall u | u in t'.externals && t'.externals[u].processed
      ensures u in FinishedUrls(t')
    {
      var s :| s in t.aggregated && s in t.articles && t.articles[s].sourceUrl.Some?
        && s in SummarizedSlugs(t.summaries) && t.articles[s].sourceUrl.value == u;
      assert t'.articles[s] == t.articles[s];
    }
  }

  /** Adding the one summary of an article written here keeps the tables consistent. */
  lemma AddSummaryKeepsConsistent(t: Tables, summary: SummaryRecord)
    requires Consistent(t) && summary.article in t.aggregated && summary.article !in SummarizedSlugs(t.summaries)
    ensures Consistent(t.(summaries := t.summaries + [summary]))
    ensures summary.article in SummarizedSlugs(t.summaries + [summary])
  {
    var t' := t.(summaries := t.summaries + [summary]);
    assert t'.summaries[|t.summaries|] == summary;
    forall i, j | 0 <= i < j < |t'.summaries|
      ensures t'.summaries[i].article != t'.summaries[j].article
    {
      if j == |t.summaries| {
        assert t'.summaries[i] == t.summaries[i];
      }
    }
    forall x | x in SummarizedSlugs(t.summaries)
      ensures x in SummarizedSlugs(t'.summaries)
    {
      var i :| 0 <= i < |t.summaries| && t.summaries[i].article == x;
      assert t'.summaries[i] == t.summaries[i];
    }
    assert FinishedUrls(t) <= FinishedUrls(t');
  }

  /** Marking a row processed once its article has its summary keeps the tables consistent. */
  lemma MarkProcessedKeepsConsistent(t: Tables, url: Url, slug: string)
    requires Consistent(t) && url in t.externals
    requires slug in t.aggregated && slug in t.articles && t.articles[slug].sourceUrl == Some(url)
    requires slug in SummarizedSlugs(t.summaries)
    ensures Consistent(t.(externals := t.externals[url := t.externals[url].(processed := true)]))
  {
    var t' := t.(externals := t.externals[url := t.externals[url].(processed := true)]);
    assert FinishedUrls(t') == FinishedUrls(t);
    assert url in FinishedUrls(t);
  }

  predicate DistinctIds(sources: seq<NewsSource>) {
    forall i, j :: 0 <= i < j < |sources| ==> sources[i].id != sources[j].id
  }

  // ---------------------------------------------------------------------------
  // extractContent

  /** `extractContent`: the trimmed main text cut to 5000 characters, or "" when the request failed. */
  function ExtractContent(page: Option<string>): (content: string)
    ensures |content| <= MaxExtractedLength
    ensures page.None? ==> content == ""
    ensures page.Some? ==> content <= Trim(page.value)
    ensures page.Some? && |Trim(page.value)| <= MaxExtractedLength ==> content == Trim(page.value)
    ensures page.Some? ==>
      |content| == if |Trim(page.value)| <= MaxExtractedLength then |Trim(page.value)| else MaxExtractedLength
  {
    match page
    case None => ""
    case Some(text) => Take(Trim(text), MaxExtractedLength)
  }

  // ---------------------------------------------------------------------------
  // fetchFromRSS

  /** A feed item is taken when it has a title, a link and a date, and its link is not stored yet. */
  predicate Accepts(stored: set<Url>, item: FeedItem) {
    Truthy(item.title) && Truthy(item.link) && Truthy(item.pubDate) && item.link !in stored
  }

  function AcceptsFn(stored: set<Url>): FeedItem -> bool {
    item => Accepts(stored, item)
  }

  /** The article built from a taken feed item; its content falls back from the page to the snippet to the body. */
  function FromFeedItem(source: NewsSource, pages: Url -> Option<string>, item: FeedItem): ExternalArticle {
    ExternalArticle(
      item.title,
      Or(ExtractContent(pages(item.link)), Or(item.contentSnippet, item.content)),
      item.link,
      item.published,
      source.name,
      source.id)
  }

  function FromFeedItemFn(source: NewsSource, pages: Url -> Option<string>): FeedItem -> ExternalArticle {
    item => FromFeedItem(source, pages, item)
  }

  /** The articles the feed loop builds from `items`, the URLs in `stored` being known already. */
  function RssArticles(items: seq<FeedItem>, stored: set<Url>, source: NewsSource, pages: Url -> Option<string>)
    : seq<ExternalArticle>
    decreases |items|
  {
    if items == [] then []
    else
      var item := items[|items| - 1];
      var init := RssArticles(items[..|items| - 1], stored, source, pages);
      if Accepts(stored, item) then init + [FromFeedItem(source, pages, item)] else init
  }

  /** The feed loop is `items.filter(accepted).map(build)`. */
  lemma {:induction false} RssArticlesIsFilterMap(items: seq<FeedItem>, stored: set<Url>, source: NewsSource,
                                                  pages: Url -> Option<string>)
    ensures RssArticles(items, stored, source, pages)
      == Seqs.Map(FromFeedItemFn(source, pages), Seqs.Filter(AcceptsFn(stored), items))
    decreases |items|
  {
    if items != [] {
      var init := items[..|items| - 1];
      var item := items[|items| - 1];
      assert items == init + [item];
      RssArticlesIsFilterMap(init, stored, source, pages);
      Seqs.FilterSnoc(AcceptsFn(stored), init, item);
      var taken := Seqs.Filter(AcceptsFn(stored), init);
      if Accepts(stored, item) {
        Seqs.MapSnoc(FromFeedItemFn(source, pages), taken, item);
      }
    }
  }

  /** One more item: the feed loop over `items[..i + 1]` in terms of the loop over `items[..i]`. */
  lemma RssSnoc(items: seq<FeedItem>, i: nat, stored: set<Url>, source: NewsSource, pages: Url -> Option<string>)
    requires i < |items|
    ensures RssArticles(items[..i + 1], stored, source, pages) ==
      var init := RssArticles(items[..i], stored, source, pages);
      if Accepts(stored, items[i]) then init + [FromFeedItem(source, pages, items[i])] else init
  {
    assert items[..i + 1][..i] == items[..i];
  }

  function Urls(articles: seq<ExternalArticle>): (urls: seq<Url>)
    ensures |urls| == |articles|
    ensures forall i :: 0 <= i < |articles| ==> urls[i] == articles[i].url
  {
    Seqs.Map((a: ExternalArticle) => a.url, articles)
  }

  lemma UrlsSnoc(articles: seq<ExternalArticle>, a: ExternalArticle)
    ensures Urls(articles + [a]) == Urls(articles) + [a.url]
  {
  }

  /**
   * Every article the feed yields comes from a complete item whose link was
   * not stored, and carries that item's title and link and its source's name
   * and id; there are never more articles than items.
   */
  lemma {:induction false} RssArticlesAreNew(items: seq<FeedItem>, stored: set<Url>, source: NewsSource,
                                             pages: Url -> Option<string>)
    ensures var r := RssArticles(items, stored, source, pages);
      && |r| <= |items|
      && forall a :: a in r ==>
           a.url !in stored && Truthy(a.title) && Truthy(a.url)
           && a.sourceId == source.id && a.sourceName == source.name
    decreases |items|
  {
    if items != [] {
      RssArticlesAreNew(items[..|items| - 1], stored, source, pages);
    }
  }

  /** Every complete item whose link is not stored yields an article. */
  lemma {:induction false} RssArticlesComplete(items: seq<FeedItem>, stored: set<Url>, source: NewsSource,
                                               pages: Url -> Option<string>)
    ensures forall item :: item in items && Accepts(stored, item) ==>
      item.link in Urls(RssArticles(items, stored, source, pages))
    decreases |items|
  {
    if items != [] {
      var init := items[..|items| - 1];
      var last := items[|items| - 1];
      assert items == init + [last];
      RssArticlesComplete(init, stored, source, pages);
      var r0 := RssArticles(init, stored, source, pages);
      if Accepts(stored, last) {
        UrlsSnoc(r0, FromFeedItem(source, pages, last));
      }
    }
  }

  /**
   * `fetchFromRSS`: walks the first ten items of the parsed feed (none when
   * parsing failed), looks each complete item's link up in the store, and for
   * a new one requests its page and builds the article. `requested` lists the
   * pages requested, which are exactly the returned articles' URLs; no stored
   * URL is requested again.
   */
  method FetchFromRss(store: Store, source: NewsSource, feed: Option<seq<FeedItem>>, pages: Url -> Option<string>)
    returns (articles: seq<ExternalArticle>, requested: seq<Url>)
    ensures feed.None? ==> articles == []
    ensures feed.Some? ==>
      articles == RssArticles(Seqs.Prefix(feed.value, MaxFeedItems), store.externals.Keys, source, pages)
    ensures requested == Urls(articles)
    ensures forall u :: u in requested ==> u !in store.externals
  {
    articles, requested := [], [];
    if feed.None? {
      return;
    }
    var items := Seqs.Prefix(feed.value, MaxFeedItems);
    ghost var stored := store.externals.Keys;
    for i := 0 to |items|
      invariant articles == RssArticles(items[..i], stored, source, pages)
      invariant requested == Urls(articles)
      invariant forall u :: u in requested ==> u !in store.externals
    {
      var item := items[i];
      RssSnoc(items, i, stored, source, pages);
      if Truthy(item.title) && Truthy(item.link) && Truthy(item.pubDate) {
        var existing := item.link in store.externals;
        if !existing {
          var content := ExtractContent(pages(item.link));
          requested := requested + [item.link];
          var a := ExternalArticle(
            item.title, Or(content, Or(item.contentSnippet, item.content)),
            item.link, item.published, source.name, source.id);
          UrlsSnoc(articles, a);
          articles := articles + [a];
        }
      }
    }
    assert items[..|items|] == items;
  }

  // ---------------------------------------------------------------------------
  // scrapeWebsite

  /** The article a homepage block yields: trimmed heading as title, trimmed paragraph or else the title as content. */
  function FromBlock(block: PageBlock, url: Url, source: NewsSource, now: Timestamp): ExternalArticle {
    var title := Trim(block.heading);
    ExternalArticle(title, Or(Trim(block.paragraph), title), url, now, source.name, source.id)
  }

  /** A block contributes an article when its trimmed heading and its link are both non-empty. */
  predicate Listed(block: PageBlock) {
    Truthy(Trim(block.heading)) && Truthy(block.href)
  }

  /**
   * The articles the scraping callback collects from `blocks`, or None when
   * resolving one listed block's link throws, which aborts the whole scrape.
   */
  function ScrapedArticles(blocks: seq<PageBlock>, source: NewsSource, now: Timestamp): Option<seq<ExternalArticle>>
    decreases |blocks|
  {
    if blocks == [] then Some([])
    else
      var b := blocks[|blocks| - 1];
      match ScrapedArticles(blocks[..|blocks| - 1], source, now)
      case None => None
      case Some(r) =>
        if !Listed(b) then Some(r)
        else if b.resolved.None? then None
        else Some(r + [FromBlock(b, b.resolved.value, source, now)])
  }

  predicate Unresolvable(block: PageBlock) {
    Listed(block) && block.resolved.None?
  }

  /** Scraping fails exactly when some listed block's link cannot be resolved. */
  lemma {:induction false} ScrapeFailsExactly(blocks: seq<PageBlock>, source: NewsSource, now: Timestamp)
    ensures ScrapedArticles(blocks, source, now).None? <==> exists i :: 0 <= i < |blocks| && Unresolvable(blocks[i])
    decreases |blocks|
  {
    if blocks != [] {
      var init := blocks[..|blocks| - 1];
      ScrapeFailsExactly(init, source, now);
      if ScrapedArticles(init, source, now).None? {
        var i :| 0 <= i < |init| && Unresolvable(init[i]);
        assert Unresolvable(blocks[i]);
      } else {
        forall i | 0 <= i < |blocks| - 1
          ensures !Unresolvable(blocks[i])
        {
          assert blocks[i] == init[i];
        }
      }
    }
  }

  /**
   * A successful scrape yields at most one article per block, each with a
   * non-empty title and content, stamped with the current time.
   */
  lemma {:induction false} ScrapedArticlesSpec(blocks: seq<PageBlock>, source: NewsSource, now: Timestamp)
    ensures ScrapedArticles(blocks, source, now).Some? ==>
      var r := ScrapedArticles(blocks, source, now).value;
      && |r| <= |blocks|
      && forall a :: a in r ==>
           Truthy(a.title) && Truthy(a.content) && a.publishedAt == now
           && a.sourceId == source.id && a.sourceName == source.name
    decreases |blocks|
  {
    if blocks != [] {
      var init := blocks[..|blocks| - 1];
      var b := blocks[|blocks| - 1];
      ScrapedArticlesSpec(init, source, now);
      var r0 := ScrapedArticles(init, source, now);
      if r0.Some? && Listed(b) && b.resolved.Some? {
        var a := FromBlock(b, b.resolved.value, source, now);
        assert ScrapedArticles(blocks, source, now) == Some(r0.value + [a]);
        assert Truthy(a.title) && Truthy(a.content);
        forall x | x in r0.value + [a]
          ensures Truthy(x.title) && Truthy(x.content) && x.publishedAt == now
            && x.sourceId == source.id && x.sourceName == source.name
        {
          if x != a {
            assert x in r0.value;
          }
        }
      }
    }
  }

  /**
   * A successful scrape yields one article per listed block, in order: its
   * title is the trimmed heading, its URL the resolved link, and its content
   * the trimmed paragraph or else the title.
   */
  lemma {:induction false} ScrapedFromListed(blocks: seq<PageBlock>, source: NewsSource, now: Timestamp)
    ensures ScrapedArticles(blocks, source, now).Some? ==>
      var r := ScrapedArticles(blocks, source, now).value;
      var listed := Seqs.Filter(Listed, blocks);
      && |r| == |listed|
      && forall k :: 0 <= k < |r| ==>
           && listed[k].resolved.Some?
           && r[k].url == listed[k].resolved.value
           && r[k].title == Trim(listed[k].heading)
           && r[k].content == Or(Trim(listed[k].paragraph), r[k].title)
    decreases |blocks|
  {
    if blocks != [] {
      var init := blocks[..|blocks| - 1];
      var b := blocks[|blocks| - 1];
      assert blocks == init + [b];
      ScrapedFromListed(init, source, now);
      Seqs.FilterSnoc(Listed, init, b);
      var r0 := ScrapedArticles(init, source, now);
      var listed0 := Seqs.Filter(Listed, init);
      if r0.Some? && Listed(b) && b.resolved.Some? {
        var r := r0.value + [FromBlock(b, b.resolved.value, source, now)];
        var listed := listed0 + [b];
        assert ScrapedArticles(blocks, source, now) == Some(r);
        assert Seqs.Filter(Listed, blocks) == listed;
        forall k | 0 <= k < |r|
          ensures && listed[k].resolved.Some?
                  && r[k].url == listed[k].resolved.value
                  && r[k].title == Trim(listed[k].heading)
                  && r[k].content == Or(Trim(listed[k].paragraph), r[k].title)
        {
          if k < |r0.value| {
            assert r[k] == r0.value[k] && listed[k] == listed0[k];
          }
        }
      } else if r0.Some? && !Listed(b) {
        assert ScrapedArticles(blocks, source, now) == r0;
        assert Seqs.Filter(Listed, blocks) == listed0;
      }
    }
  }

  /** One more block: the scrape of `blocks[..i + 1]` in terms of the scrape of `blocks[..i]`. */
  lemma ScrapedSnoc(blocks: seq<PageBlock>, i: nat, source: NewsSource, now: Timestamp)
    requires i < |blocks|
    ensures ScrapedArticles(blocks[..i + 1], source, now) ==
      match ScrapedArticles(blocks[..i], source, now)
      case None => None
      case Some(r) =>
        if !Listed(blocks[i]) then Some(r)
        else if blocks[i].resolved.None? then None
        else Some(r + [FromBlock(blocks[i], blocks[i].resolved.value, source, now)])
  {
    assert blocks[..i + 1][..i] == blocks[..i];
  }

  /** Once a scrape has failed on a prefix it fails on every longer prefix. */
  lemma {:induction false} ScrapeFailureSticks(blocks: seq<PageBlock>, i: nat, j: nat, source: NewsSource, now: Timestamp)
    requires i <= j <= |blocks|
    requires ScrapedArticles(blocks[..i], source, now).None?
    ensures ScrapedArticles(blocks[..j], source, now).None?
    decreases j - i
  {
    if i < j {
      ScrapedSnoc(blocks, i, source, now);
      ScrapeFailureSticks(blocks, i + 1, j, source, now);
    }
  }

  /**
   * `scrapeWebsite`: walks at most the first five matched blocks of the
   * homepage (none when the request failed) and stops with no articles at all
   * when a link cannot be resolved.
   */
  method ScrapeWebsite(source: NewsSource, page: Option<seq<PageBlock>>, now: Timestamp)
    returns (articles: seq<ExternalArticle>)
    ensures page.None? ==> articles == []
    ensures page.Some? ==>
      articles == ScrapedArticles(Seqs.Prefix(page.value, MaxScrapedBlocks), source, now).GetOr([])
  {
    articles := [];
    if page.None? {
      return;
    }
    var blocks := page.value;
    ghost var limit := |Seqs.Prefix(blocks, MaxScrapedBlocks)|;
    Seqs.PrefixIsSlice(blocks, MaxScrapedBlocks);
    var i := 0;
    while i < |blocks|
      invariant 0 <= i <= |blocks| && i <= limit
      invariant ScrapedArticles(blocks[..i], source, now) == Some(articles)
    {
      if i >= MaxScrapedBlocks {
        break;
      }
      var b := blocks[i];
      ScrapedSnoc(blocks, i, source, now);
      if Listed(b) {
        if b.resolved.None? {
          ScrapeFailureSticks(blocks, i + 1, limit, source, now);
          return [];
        }
        articles := articles + [FromBlock(b, b.resolved.value, source, now)];
      }
      i := i + 1;
    }
    assert i == limit;
  }

  // ---------------------------------------------------------------------------
  // processArticle

  /**
   * The rows `processArticle` derives from `a`, or None when no author or no
   * category row matches the article's category.
   */
  function Enrich(a: ExternalArticle, replies: Replies, authors: seq<Author>, categories: map<string, Category>)
    : (r: Option<Publication>)
    ensures r.None? <==> authors == [] || CategorizeArticle(a.title, a.content) !in categories
    ensures r.Some? ==> r.value.article.sourceUrl == Some(a.url) && r.value.summary.article == r.value.article.slug
  {
    var categorySlug := CategorizeArticle(a.title, a.content);
    match SelectAIAuthor(authors, categorySlug)
    case None => None
    case Some(author) =>
      if categorySlug !in categories then None
      else
        var summary := GenerateSummary(replies.summary, a.content);
        var slug := CreateSlug(a.title);
        var article := ArticleRecord(
          a.title, slug, summary, GenerateFullContent(replies.fullContent, a.content),
          author.id, categories[categorySlug].id, ExtractTags(a.title, a.content),
          a.publishedAt, CalculateReadTime(a.content), true, Some(a.url));
        Some(Publication(article, SummaryRecord(slug, a.sourceId, summary, ExtractKeyPoints(replies.keyPoints), SummaryModel)))
  }

  lemma UpdateTwice<K, V>(m: map<K, V>, k: K, first: V, second: V)
    ensures m[k := first][k := second] == m[k := second]
  {
  }

  /**
   * A published article keeps the item's title, URL and date, is marked as
   * generated, has a well-formed slug of at most 50 characters, a read time of
   * at least a minute, at most five tags, an existing author and the category
   * its text falls in; its summary row repeats its summary and names the model.
   */
  lemma EnrichSpec(a: ExternalArticle, replies: Replies, authors: seq<Author>, categories: map<string, Category>)
    requires Enrich(a, replies, authors, categories).Some?
    ensures var p := Enrich(a, replies, authors, categories).value;
      var art := p.article;
      var sum := p.summary;
      && art.title == a.title && art.publishedAt == a.publishedAt
      && art.isAIGenerated
      && IsSlug(art.slug) && |art.slug| <= 50
      && art.readTime >= 1
      && |art.tags| <= MaxTags
      && (exists w :: w in authors && w.id == art.authorId)
      && art.categoryId == categories[CategorizeArticle(a.title, a.content)].id
      && art.summary == GenerateSummary(replies.summary, a.content)
      && sum.summaryContent == art.summary && sum.sourceId == a.sourceId
      && sum.aiModel == SummaryModel
  {
    CreateSlugIsSlug(a.title);
    var author := SelectAIAuthor(authors, CategorizeArticle(a.title, a.content));
    assert author.value in authors;
  }

  /**
   * The write that throws during one `processArticle` call, if one does: a
   * lost connection, or data the database refuses (a key-point answer that
   * parses to something other than a list of strings fails at the summary).
   */
  datatype Write = ExternalWrite | ArticleWrite | SummaryWrite | MarkWrite

  /** How one `processArticle` call ends. */
  datatype Outcome =
    | DuplicateUrl       // creating the external row violated the unique URL; nothing is written
    | MissingReference   // no author or no category; the external row stays unprocessed
    | DuplicateSlug      // creating the article violated the unique slug; the external row stays unprocessed
    | Aborted(at: Write) // that write threw; the rows written before it stay
    | Published          // all three rows written and the external row marked processed

  /** The outcomes after which the article row exists. */
  predicate ArticleWritten(o: Outcome) {
    o == Aborted(SummaryWrite) || o == Aborted(MarkWrite) || o == Published
  }

  /** The outcomes after which the summary row exists. */
  predicate SummaryWritten(o: Outcome) {
    o == Aborted(MarkWrite) || o == Published
  }

  function NewExternal(a: ExternalArticle, processed: bool): ExternalRecord {
    ExternalRecord(a.title, a.content, a.url, a.sourceId, a.publishedAt, processed)
  }

  /**
   * The three writes that publish an enriched article: `article.create`,
   * `newsSummary.create` and marking the external row processed. The write
   * `fault` throws, and the writes before it stay.
   */
  method Commit(store: Store, p: Publication, url: Url, fault: Option<Write>) returns (outcome: Outcome)
    requires store.Valid() && fault != Some(ExternalWrite)
    requires p.article.sourceUrl == Some(url) && p.summary.article == p.article.slug
    requires url in store.externals && !store.externals[url].processed
    requires url !in AggregatedUrls(store.articles, store.aggregated)
    requires p.article.slug !in store.articles
    modifies store
    ensures store.Valid()
    ensures store.sources == old(store.sources) && store.authors == old(store.authors)
    ensures store.categories == old(store.categories)
    ensures outcome == if fault.None? then Published else Aborted(fault.value)
    ensures ArticleWritten(outcome) ==>
      store.articles == old(store.articles)[p.article.slug := p.article]
      && store.aggregated == old(store.aggregated) + {p.article.slug}
    ensures !ArticleWritten(outcome) ==>
      store.articles == old(store.articles) && store.aggregated == old(store.aggregated)
    ensures SummaryWritten(outcome) ==> store.summaries == old(store.summaries) + [p.summary]
    ensures !SummaryWritten(outcome) ==> store.summaries == old(store.summaries)
    ensures outcome == Published ==>
      store.externals == old(store.externals)[url := old(store.externals)[url].(processed := true)]
    ensures outcome != Published ==> store.externals == old(store.externals)
  {
    if fault == Some(ArticleWrite) {
      return Aborted(ArticleWrite);
    }
    store.CreateArticle(p.article);
    if fault == Some(SummaryWrite) {
      return Aborted(SummaryWrite);
    }
    store.AddSummary(p.summary);
    if fault.Some? {
      assert fault.value.MarkWrite?;
      return Aborted(MarkWrite);
    }
    store.MarkProcessed(url, p.article.slug);
    return Published;
  }

  /**
   * The rest of `processArticle` once the external row for `a` is stored:
   * enriches the article, refuses a taken slug, and otherwise commits the
   * article, its summary and the processed mark until `fault` throws.
   */
  method PublishStored(store: Store, a: ExternalArticle, replies: Replies, fault: Option<Write>)
    returns (outcome: Outcome)
    requires store.Valid() && fault != Some(ExternalWrite)
    requires a.url in store.externals && store.externals[a.url] == NewExternal(a, false)
    requires a.url !in AggregatedUrls(store.articles, store.aggregated)
    modifies store
    ensures store.Valid()
    ensures store.sources == old(store.sources) && store.authors == old(store.authors)
    ensures store.categories == old(store.categories)
    ensures outcome.Aborted? ==> fault == Some(outcome.at) && outcome.at != ExternalWrite
    ensures outcome != DuplicateUrl
    ensures store.externals == old(store.externals)[a.url := NewExternal(a, outcome == Published)]
    ensures var e := Enrich(a, replies, old(store.authors), old(store.categories));
      && (outcome == MissingReference <==> e.None?)
      && (outcome == DuplicateSlug <==> e.Some? && e.value.article.slug in old(store.articles))
      && (e.Some? && e.value.article.slug !in old(store.articles) ==>
            outcome == if fault.None? then Published else Aborted(fault.value))
      && (ArticleWritten(outcome) ==> e.Some? && e.value.article.slug !in old(store.articles))
      && (ArticleWritten(outcome) ==>
            store.articles == old(store.articles)[e.value.article.slug := e.value.article]
            && store.aggregated == old(store.aggregated) + {e.value.article.slug})
      && (SummaryWritten(outcome) ==> store.summaries == old(store.summaries) + [e.value.summary])
    ensures !ArticleWritten(outcome) ==>
      store.articles == old(store.articles) && store.aggregated == old(store.aggregated)
    ensures !SummaryWritten(outcome) ==> store.summaries == old(store.summaries)
  {
    // summary, key points, category, author lookup, slug and the article's fields
    var enriched := Enrich(a, replies, store.authors, store.categories);
    if enriched.None? {
      return MissingReference;
    }
    var p := enriched.value;
    if p.article.slug in store.articles {
      return DuplicateSlug;
    }
    outcome := Commit(store, p, a.url, fault);
    if outcome == Published {
      assert NewExternal(a, false).(processed := true) == NewExternal(a, true);
    }
  }

  /**
   * `processArticle`: stores the external article, enriches it, writes the
   * article and its summary and marks the external article processed. Every
   * failure, a refused unique key or the write `fault` that throws, is
   * swallowed after whatever rows were already written.
   */
  method ProcessArticle(store: Store, a: ExternalArticle, replies: Replies, fault: Option<Write>)
    returns (outcome: Outcome)
    requires store.Valid()
    modifies store
    ensures store.Valid()
    ensures store.sources == old(store.sources) && store.authors == old(store.authors)
    ensures store.categories == old(store.categories)
    ensures outcome == DuplicateUrl <==> a.url in old(store.externals)
    ensures outcome.Aborted? ==> fault == Some(outcome.at)
    ensures outcome == DuplicateUrl || outcome == Aborted(ExternalWrite) ==>
      store.externals == old(store.externals)
    ensures outcome != DuplicateUrl && outcome != Aborted(ExternalWrite) ==>
      store.externals == old(store.externals)[a.url := NewExternal(a, outcome == Published)]
    ensures var e := Enrich(a, replies, old(store.authors), old(store.categories));
      var isNew := a.url !in old(store.externals) && fault != Some(ExternalWrite);
      && (outcome == Aborted(ExternalWrite) <==> a.url !in old(store.externals) && fault == Some(ExternalWrite))
      && (outcome == MissingReference <==> isNew && e.None?)
      && (outcome == DuplicateSlug <==> isNew && e.Some? && e.value.article.slug in old(store.articles))
      && (isNew && e.Some? && e.value.article.slug !in old(store.articles) ==>
            outcome == if fault.None? then Published else Aborted(fault.value))
      && (ArticleWritten(outcome) ==> isNew && e.Some? && e.value.article.slug !in old(store.articles))
      && (ArticleWritten(outcome) ==>
            store.articles == old(store.articles)[e.value.article.slug := e.value.article]
            && store.aggregated == old(store.aggregated) + {e.value.article.slug})
      && (SummaryWritten(outcome) ==> store.summaries == old(store.summaries) + [e.value.summary])
    ensures !ArticleWritten(outcome) ==>
      store.articles == old(store.articles) && store.aggregated == old(store.aggregated)
    ensures !SummaryWritten(outcome) ==> store.summaries == old(store.summaries)
    ensures Extends(old(store.Snapshot()), store.Snapshot())
    ensures forall s :: s in store.articles && s !in old(store.articles) ==> store.articles[s].sourceUrl == Some(a.url)
    ensures a.url in store.externals || fault == Some(ExternalWrite)
  {
    if a.url in store.externals {
      return DuplicateUrl;
    }
    if fault == Some(ExternalWrite) {
      return Aborted(ExternalWrite);
    }
    ghost var t0 := store.Snapshot();
    UnstoredUrlIsUnclaimed(t0, a.url);
    store.AddExternal(NewExternal(a, false));
    ghost var e := Enrich(a, replies, store.authors, store.categories);
    outcome := PublishStored(store, a, replies, fault);
    var row := NewExternal(a, outcome == Published);
    UpdateTwice(t0.externals, a.url, NewExternal(a, false), row);
    if ArticleWritten(outcome) {
      ExtendsByArticle(t0, row, e.value.article, store.Snapshot());
    } else {
      ExtendsByNewRow(t0, row, store.Snapshot());
    }
  }


  /** Adding an external row for a new URL, and at most appending summaries, extends the tables. */
  lemma ExtendsByNewRow(t: Tables, row: ExternalRecord, t': Tables)
    requires row.url !in t.externals
    requires t'.externals == t.externals[row.url := row]
    requires t'.articles == t.articles && t'.aggregated == t.aggregated && t.summaries <= t'.summaries
    ensures Extends(t, t')
  {
  }

  /** Adding an external row for a new URL together with the article written from it extends the tables. */
  lemma ExtendsByArticle(t: Tables, row: ExternalRecord, article: ArticleRecord, t': Tables)
    requires row.url !in t.externals && article.slug !in t.articles && article.sourceUrl == Some(row.url)
    requires t'.externals == t.externals[row.url := row]
    requires t'.articles == t.articles[article.slug := article] && t'.aggregated == t.aggregated + {article.slug}
    requires t.summaries <= t'.summaries
    ensures Extends(t, t')
  {
  }

  /** A fetched article is stored as an external article unless creating that row threw. */
  predicate Ingested(externals: map<Url, ExternalRecord>, faults: Url -> Option<Write>, a: ExternalArticle) {
    a.url in externals || faults(a.url) == Some(ExternalWrite)
  }

  /** The first `j` articles stay ingested as the store grows, and the next one joins them. */
  lemma IngestedStep(articles: seq<ExternalArticle>, j: nat, before: map<Url, ExternalRecord>,
                     after: map<Url, ExternalRecord>, faults: Url -> Option<Write>)
    requires j < |articles| && before.Keys <= after.Keys
    requires forall k :: 0 <= k < j ==> Ingested(before, faults, articles[k])
    requires Ingested(after, faults, articles[j])
    ensures forall k :: 0 <= k < j + 1 ==> Ingested(after, faults, articles[k])
  {
  }

  /** Every article added since `first` comes from one of the first `j + 1` articles once the next one is processed. */
  lemma OriginsStep(articles: seq<ExternalArticle>, j: nat, first: map<string, ArticleRecord>,
                    before: map<string, ArticleRecord>, after: map<string, ArticleRecord>)
    requires j < |articles|
    requires forall s :: s in before ==> s in after && after[s] == before[s]
    requires forall s :: s in before && s !in first ==>
      exists k :: 0 <= k < j && Some(articles[k].url) == before[s].sourceUrl
    requires forall s :: s in after && s !in before ==> after[s].sourceUrl == Some(articles[j].url)
    ensures forall s :: s in after && s !in first ==>
      exists k :: 0 <= k < j + 1 && Some(articles[k].url) == after[s].sourceUrl
  {
    forall s | s in after && s !in first
      ensures exists k :: 0 <= k < j + 1 && Some(articles[k].url) == after[s].sourceUrl
    {
      if s !in before {
        assert Some(articles[j].url) == after[s].sourceUrl;
      } else {
        var k :| 0 <= k < j && Some(articles[k].url) == before[s].sourceUrl;
        assert Some(articles[k].url) == after[s].sourceUrl;
      }
    }
  }

  /**
   * `for (const article of articles) await this.processArticle(article)`:
   * earlier rows are kept as they were, every article added comes from one of
   * `articles` whose URL was not stored before, and each of `articles` is
   * stored unless creating its external row threw.
   */
  method ProcessAll(store: Store, articles: seq<ExternalArticle>, llm: Url -> Replies, faults: Url -> Option<Write>)
    requires store.Valid()
    modifies store
    ensures store.Valid()
    ensures store.sources == old(store.sources) && store.authors == old(store.authors)
    ensures store.categories == old(store.categories)
    ensures Extends(old(store.Snapshot()), store.Snapshot())
    ensures forall s :: s in store.articles && s !in old(store.articles) ==>
      store.articles[s].sourceUrl.Some? && store.articles[s].sourceUrl.value in Urls(articles)
    ensures forall k :: 0 <= k < |articles| ==> Ingested(store.externals, faults, articles[k])
  {
    for j := 0 to |articles|
      invariant store.Valid()
      invariant store.sources == old(store.sources) && store.authors == old(store.authors)
      invariant store.categories == old(store.categories)
      invariant Extends(old(store.Snapshot()), store.Snapshot())
      invariant forall s :: s in store.articles && s !in old(store.articles) ==>
        exists k :: 0 <= k < j && Some(articles[k].url) == store.articles[s].sourceUrl
      invariant forall k :: 0 <= k < j ==> Ingested(store.externals, faults, articles[k])
    {
      ghost var before := store.Snapshot();
      var url := articles[j].url;
      var outcome := ProcessArticle(store, articles[j], llm(url), faults(url));
      ExtendsTransitive(old(store.Snapshot()), before, store.Snapshot());
      IngestedStep(articles, j, before.externals, store.externals, faults);
      OriginsStep(articles, j, old(store.articles), before.articles, store.articles);
    }
    forall s | s in store.articles && s !in old(store.articles)
      ensures store.articles[s].sourceUrl.Some? && store.articles[s].sourceUrl.value in Urls(articles)
    {
      var k :| 0 <= k < |articles| && Some(articles[k].url) == store.articles[s].sourceUrl;
      assert Urls(articles)[k] == articles[k].url;
    }
  }

  // ---------------------------------------------------------------------------
  // aggregateNews

  predicate IsActive(source: NewsSource) {
    source.isActive
  }

  /** A source after a completed pass: `lastScrapedAt` is the time of the run. */
  function Stamp(source: NewsSource, now: Timestamp): NewsSource {
    source.(lastScrapedAt := Some(now))
  }

  /** The sources after a run: every active one stamped, the others untouched. */
  function AfterRun(sources: seq<NewsSource>, now: Timestamp): (r: seq<NewsSource>)
    ensures |r| == |sources|
    ensures forall k :: 0 <= k < |sources| ==>
      r[k] == if sources[k].isActive then Stamp(sources[k], now) else sources[k]
  {
    Seqs.Map((s: NewsSource) => if s.isActive then Stamp(s, now) else s, sources)
  }

  function Ids(sources: seq<NewsSource>): set<string> {
    set s | s in sources :: s.id
  }

  /** One more source on a prefix adds its id. */
  lemma IdsSnoc(sources: seq<NewsSource>, i: nat)
    requires i < |sources|
    ensures Ids(sources[..i + 1]) == Ids(sources[..i]) + {sources[i].id}
  {
    assert sources[..i + 1] == sources[..i] + [sources[i]];
  }

  /** The sources with every one whose id is in `done` stamped. */
  function StampAll(sources: seq<NewsSource>, done: set<string>, now: Timestamp): (r: seq<NewsSource>)
    ensures |r| == |sources|
    ensures forall k :: 0 <= k < |sources| ==>
      r[k] == if sources[k].id in done then Stamp(sources[k], now) else sources[k]
  {
    Seqs.Map((s: NewsSource) => if s.id in done then Stamp(s, now) else s, sources)
  }

  /** `newsSource.update({where: {id}, data: {lastScrapedAt}})` on the list of sources. */
  function StampId(sources: seq<NewsSource>, id: string, now: Timestamp): (r: seq<NewsSource>)
    ensures |r| == |sources|
    ensures forall k :: 0 <= k < |sources| ==>
      r[k] == if sources[k].id == id then Stamp(sources[k], now) else sources[k]
  {
    Seqs.Map((s: NewsSource) => if s.id == id then Stamp(s, now) else s, sources)
  }

  lemma StampOneMore(sources: seq<NewsSource>, done: set<string>, id: string, now: Timestamp)
    ensures StampId(StampAll(sources, done, now), id, now) == StampAll(sources, done + {id}, now)
  {
  }

  /** With distinct ids, stamping the ids of the active sources stamps exactly the active sources. */
  lemma StampActive(sources: seq<NewsSource>, now: Timestamp)
    requires DistinctIds(sources)
    ensures StampAll(sources, Ids(Seqs.Filter(IsActive, sources)), now) == AfterRun(sources, now)
  {
    forall k | 0 <= k < |sources|
      ensures StampAll(sources, Ids(Seqs.Filter(IsActive, sources)), now)[k] == AfterRun(sources, now)[k]
    {
      ActiveIds(sources, k);
    }
  }

  /** With distinct ids, a source's id is among the active ids exactly when the source is active. */
  lemma ActiveIds(sources: seq<NewsSource>, k: nat)
    requires DistinctIds(sources) && k < |sources|
    ensures sources[k].id in Ids(Seqs.Filter(IsActive, sources)) <==> sources[k].isActive
  {
    var active := Seqs.Filter(IsActive, sources);
    Seqs.FilterSpec(IsActive, sources);
    if sources[k].isActive {
      assert sources[k] in active;
    }
    if sources[k].id in Ids(active) {
      var x :| x in active && x.id == sources[k].id;
      var m :| 0 <= m < |sources| && sources[m] == x;
      assert m == k;
    }
  }

  /** The articles one source yields: from its feed when `rssUrl` is truthy, else from its homepage. */
  function SourceArticles(source: NewsSource, web: Web, stored: set<Url>, now: Timestamp): seq<ExternalArticle> {
    if TruthyOpt(source.rssUrl) then
      match web.feeds(source.rssUrl.value)
      case None => []
      case Some(items) => RssArticles(Seqs.Prefix(items, MaxFeedItems), stored, source, web.pages)
    else
      match web.homepages(source.url)
      case None => []
      case Some(blocks) => ScrapedArticles(Seqs.Prefix(blocks, MaxScrapedBlocks), source, now).GetOr([])
  }

  /** The branch of `aggregateNews` that picks the feed or the homepage. */
  method FetchSource(store: Store, source: NewsSource, web: Web, now: Timestamp) returns (articles: seq<ExternalArticle>)
    ensures articles == SourceArticles(source, web, store.externals.Keys, now)
  {
    if TruthyOpt(source.rssUrl) {
      var requested;
      articles, requested := FetchFromRss(store, source, web.feeds(source.rssUrl.value), web.pages);
    } else {
      articles := ScrapeWebsite(source, web.homepages(source.url), now);
    }
  }

  /**
   * One pass of the loop in `aggregateNews`: fetches the source's new
   * articles against the URLs `seen` stored at that point, processes them,
   * and stamps the source.
   */
  method ProcessSource(store: Store, source: NewsSource, web: Web, llm: Url -> Replies,
                       faults: Url -> Option<Write>, now: Timestamp)
    returns (ghost fetched: seq<ExternalArticle>, ghost seen: set<Url>)
    requires store.Valid()
    modifies store
    ensures store.Valid()
    ensures store.authors == old(store.authors) && store.categories == old(store.categories)
    ensures store.sources == StampId(old(store.sources), source.id, now)
    ensures Extends(old(store.Snapshot()), store.Snapshot())
    ensures seen == old(store.externals).Keys
    ensures fetched == SourceArticles(source, web, seen, now)
    ensures forall k :: 0 <= k < |fetched| ==> Ingested(store.externals, faults, fetched[k])
  {
    var articles := FetchSource(store, source, web, now);
    fetched, seen := articles, store.externals.Keys;
    ProcessAll(store, articles, llm, faults);
    store.MarkScraped(source.id, now);
  }

  /** `fetched[i]` is what the i-th of `sources` yields against the stored URLs `seen[i]`. */
  ghost predicate FetchedAs(fetched: seq<seq<ExternalArticle>>, seen: seq<set<Url>>, sources: seq<NewsSource>,
                            web: Web, now: Timestamp)
    decreases |sources|
  {
    && |fetched| == |seen| == |sources|
    && (sources != [] ==>
          var n := |sources| - 1;
          && FetchedAs(fetched[..n], seen[..n], sources[..n], web, now)
          && fetched[n] == SourceArticles(sources[n], web, seen[n], now))
  }

  lemma {:induction false} FetchedAtEach(fetched: seq<seq<ExternalArticle>>, seen: seq<set<Url>>,
                                         sources: seq<NewsSource>, web: Web, now: Timestamp)
    requires FetchedAs(fetched, seen, sources, web, now)
    ensures forall i :: 0 <= i < |sources| ==> fetched[i] == SourceArticles(sources[i], web, seen[i], now)
    decreases |sources|
  {
    if sources != [] {
      var n := |sources| - 1;
      FetchedAtEach(fetched[..n], seen[..n], sources[..n], web, now);
      forall i | 0 <= i < |sources|
        ensures fetched[i] == SourceArticles(sources[i], web, seen[i], now)
      {
        if i < n {
          assert fetched[..n][i] == fetched[i] && seen[..n][i] == seen[i] && sources[..n][i] == sources[i];
          assert fetched[..n][i] == SourceArticles(sources[..n][i], web, seen[..n][i], now);
        } else {
          assert fetched[n] == SourceArticles(sources[n], web, seen[n], now);
        }
      }
    }
  }

  /** Articles ingested stay ingested as the store grows, and the next source's batch joins them. */
  lemma IngestedGrows(fetched: seq<seq<ExternalArticle>>, got: seq<ExternalArticle>,
                      before: map<Url, ExternalRecord>, after: map<Url, ExternalRecord>, faults: Url -> Option<Write>)
    requires before.Keys <= after.Keys
    requires forall m, k :: 0 <= m < |fetched| && 0 <= k < |fetched[m]| ==> Ingested(before, faults, fetched[m][k])
    requires forall k :: 0 <= k < |got| ==> Ingested(after, faults, got[k])
    ensures forall m, k :: 0 <= m < |fetched| + 1 && 0 <= k < |(fetched + [got])[m]| ==>
      Ingested(after, faults, (fetched + [got])[m][k])
  {
    forall m, k | 0 <= m < |fetched| + 1 && 0 <= k < |(fetched + [got])[m]|
      ensures Ingested(after, faults, (fetched + [got])[m][k])
    {
      if m < |fetched| {
        assert Ingested(before, faults, fetched[m][k]);
      }
    }
  }

  /** Key sets seen so far stay between the first and the current store's keys as it grows. */
  lemma SeenGrows(seen: seq<set<Url>>, saw: set<Url>, first: set<Url>, before: set<Url>, after: set<Url>)
    requires before <= after && first <= saw <= after
    requires forall m :: 0 <= m < |seen| ==> first <= seen[m] <= before
    ensures forall m :: 0 <= m < |seen| + 1 ==> first <= (seen + [saw])[m] <= after
  {
  }

  /** One more source processed extends the record of what the sources yielded. */
  lemma FetchedAsSnoc(fetched: seq<seq<ExternalArticle>>, seen: seq<set<Url>>, sources: seq<NewsSource>, i: nat,
                      got: seq<ExternalArticle>, saw: set<Url>, web: Web, now: Timestamp)
    requires i < |sources|
    requires FetchedAs(fetched, seen, sources[..i], web, now)
    requires got == SourceArticles(sources[i], web, saw, now)
    ensures FetchedAs(fetched + [got], seen + [saw], sources[..i + 1], web, now)
  {
    assert (fetched + [got])[..i] == fetched && (seen + [saw])[..i] == seen;
    assert sources[..i + 1][..i] == sources[..i];
  }

  /**
   * `aggregateNews`: for each active source in turn, fetches its new articles
   * (from `rssUrl` when it is truthy, else by scraping `url`), processes them
   * one by one with the model's answers and the failing write for their URL,
   * and stamps the source with the time of the run. `fetched[i]` is what the
   * i-th active source yielded against the URLs `seen[i]` stored at that
   * point. Nothing stored before is changed or lost, every fetched article is
   * stored unless its first write threw, every new article comes from a URL
   * that was not stored before, and the store stays consistent.
   */
  method AggregateNews(store: Store, web: Web, llm: Url -> Replies, faults: Url -> Option<Write>, now: Timestamp)
    returns (ghost fetched: seq<seq<ExternalArticle>>, ghost seen: seq<set<Url>>)
    requires store.Valid()
    modifies store
    ensures store.Valid()
    ensures store.authors == old(store.authors) && store.categories == old(store.categories)
    ensures store.sources == AfterRun(old(store.sources), now)
    ensures Extends(old(store.Snapshot()), store.Snapshot())
    ensures |fetched| == |seen| == |Seqs.Filter(IsActive, old(store.sources))|
    ensures forall i :: 0 <= i < |fetched| ==>
      fetched[i] == SourceArticles(Seqs.Filter(IsActive, old(store.sources))[i], web, seen[i], now)
    ensures forall i :: 0 <= i < |seen| ==> old(store.externals).Keys <= seen[i] <= store.externals.Keys
    ensures forall i, k :: 0 <= i < |fetched| && 0 <= k < |fetched[i]| ==>
      Ingested(store.externals, faults, fetched[i][k])
  {
    ghost var initial := store.sources;
    var active := Seqs.Filter(IsActive, store.sources);
    fetched, seen := [], [];
    for i := 0 to |active|
      invariant store.Valid()
      invariant store.authors == old(store.authors) && store.categories == old(store.categories)
      invariant store.sources == StampAll(initial, Ids(active[..i]), now)
      invariant Extends(old(store.Snapshot()), store.Snapshot())
      invariant |fetched| == |seen| == i
      invariant FetchedAs(fetched, seen, active[..i], web, now)
      invariant forall m :: 0 <= m < i ==> old(store.externals).Keys <= seen[m] <= store.externals.Keys
      invariant forall m, k :: 0 <= m < i && 0 <= k < |fetched[m]| ==> Ingested(store.externals, faults, fetched[m][k])
    {
      var source := active[i];
      ghost var before := store.Snapshot();
      ghost var got: seq<ExternalArticle>, saw: set<Url>;
      got, saw := ProcessSource(store, source, web, llm, faults, now);
      ExtendsTransitive(old(store.Snapshot()), before, store.Snapshot());
      IngestedGrows(fetched, got, before.externals, store.externals, faults);
      SeenGrows(seen, saw, old(store.externals).Keys, before.externals.Keys, store.externals.Keys);
      FetchedAsSnoc(fetched, seen, active, i, got, saw, web, now);
      fetched, seen := fetched + [got], seen + [saw];
      IdsSnoc(active, i);
      StampOneMore(initial, Ids(active[..i]), source.id, now);
    }
    assert active[..|active|] == active;
    FetchedAtEach(fetched, seen, active, web, now);
    StampActive(initial, now);
  }
}
