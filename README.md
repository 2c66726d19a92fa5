# AI news website: a verified model of the aggregation pipeline and its controllers

This project models the deterministic core of the AI news website in Dafny and
proves properties of that model. The website is a TypeScript backend with a
Next.js client.

- **News aggregator** (`newsAggregator.ts`). It reads each active news source
  from its RSS feed, or else scrapes its homepage. It keeps the article links it
  has not stored yet. For each new article it runs an enrichment chain:
  - keyword categoriser;
  - author choice;
  - slug, read time and tags;
  - three language-model stages, each with a deterministic fallback.

  It then writes, one after another: an external-article row, the article,
  its summary, and the "processed" mark. Each write may throw. The database
  refuses a second external row for the same URL and a second article with the
  same slug. A throw or a refusal ends that article, and the rows written before
  it stay. Last, it stamps the source with the time of the run.
- **Admin controller**:
  - the required-field check and the derived slug and read time of a hand-written article;
  - the partial-update merges for articles and news sources;
  - the 404 paths;
  - the pagination arithmetic.
- **Categories and authors controllers**:
  - the statistics folds: view total, count, rounded average, and counts by name and by month;
  - the `articleCount` flattening;
  - the 404 paths;
  - the paginated article listings.
- **Client library**:
  - the queries over the bundled sample articles (`lib/data.ts`), with the
    fallbacks of their API-backed versions;
  - the mock summary generator (`lib/ai-summary.ts`), which holds a second copy
    of the categoriser.

Modules, one per component:

- `Wrappers`, `Text`, `Seqs`: support modules. `Option`; ASCII case and
  whitespace, `includes`, `trim`, `substring`, `split`; and `filter`, `map`,
  `slice` and a stable sort.
- `Schema`: the shared records, the truthiness tests and the HTTP status codes.
- `Enrichment`: the pure functions of the aggregator.
- `Aggregator`: the store and the fetch, process and aggregate methods.
- `Admin`: the admin controller.
- `Paging`: the shared pagination arithmetic.
- `Tally`: the statistics folds.
- `Categories` and `Authors`: the two controllers.
- `SampleData`: the client's sample-data queries (`lib/data.ts`).
- `AISummary`: the mock summary generator (`lib/ai-summary.ts`).

How the source's values are represented:

- A string field that is missing, `null` or empty is the empty string, since
  all three are falsy.
- Nullable columns are `Option`s. Request fields that must tell `undefined`
  apart from `null` are a three-way `Field`.
- Network replies, parsed feeds, scraped blocks, page texts, language-model
  answers and the clock are parameters. They are not effects.

## Model

| member | source | states |
|---|---|---|
| Enrichment.CategorizeArticle | backend/src/services/newsAggregator.ts:299-313 | The category is always one of the five seeded slugs. |
| Enrichment.CategorizeIsFirstMatch | backend/src/services/newsAggregator.ts:300-312 | The text tested is the lower-cased title, a space and the content. The first rule with a keyword in that text decides, whatever later rules match. |
| Enrichment.CategorizeResearchWins | backend/src/services/newsAggregator.ts:302-303 | A text containing "research", "paper" or "study" is filed under research, whatever else it contains. |
| Enrichment.CategorizeDefaultIff | backend/src/services/newsAggregator.ts:310-311 | machine-learning is chosen exactly when none of the twelve keywords occurs, in both directions. |
| Enrichment.CategorizeStudyExample | backend/src/services/newsAggregator.ts:299-303 | A concrete title and body mentioning a study and a research paper give research. |
| Enrichment.CreateSlugIsSlug | backend/src/services/newsAggregator.ts:372-380 | Every slug has at most 50 characters, all from [a-z0-9_-], and never contains "--". |
| Enrichment.SlugIsFixedPoint | backend/src/services/newsAggregator.ts:372-380 | A string already of slug shape is its own slug. |
| Enrichment.CreateSlugIdempotent | backend/src/services/newsAggregator.ts:372-380 | Deriving a slug from a slug changes nothing. |
| Enrichment.CalculateReadTime | backend/src/services/newsAggregator.ts:382-386 | The read time is at least one minute. |
| Enrichment.ReadTimeByRuns | backend/src/services/newsAggregator.ts:382-386 | The read time is ceil((1 + number of maximal whitespace runs) / 200). The empty content gives 1. |
| Enrichment.WordCountIsRunsPlusOne | backend/src/services/newsAggregator.ts:384 | `split(/\s+/)` yields one piece more than there are whitespace runs. |
| Enrichment.ReadTimeOfWords | backend/src/services/newsAggregator.ts:382-386 | n single-spaced words take ceil(n / 200) minutes, so 400 words take 2. |
| Enrichment.ExtractTags | backend/src/services/newsAggregator.ts:360-370 | The tags are a prefix of the matching vocabulary terms, and there are min(matches, 5) of them. |
| Enrichment.ExtractTagsSpec | backend/src/services/newsAggregator.ts:360-370 | The tags follow the vocabulary's order as a subsequence. Each tag, lower-cased, occurs in the lower-cased text. When at most five terms match, all of them are returned. |
| Enrichment.TagsInIsFilter | backend/src/services/newsAggregator.ts:367-369 | The recursive tag matcher is `commonTags.filter(tag => content.includes(tag.toLowerCase()))`. |
| Enrichment.PreferredAuthorName | backend/src/services/newsAggregator.ts:319-327 | A slug in the five-entry table gives its name. A slug naming an `Object.prototype` property gives no name, since the lookup yields a non-string. Any other slug gives Claude AI Reporter. A name given is always a seeded author name. |
| Enrichment.CategorizedSlugsArePreferred | backend/src/services/newsAggregator.ts:183-186 | Every slug the categoriser produces has a preferred author name. |
| Enrichment.FirstNamed | backend/src/services/newsAggregator.ts:328 | `find` gives the first author with exactly that name, or nothing when no author has it. |
| Enrichment.SelectAIAuthor | backend/src/services/newsAggregator.ts:315-329 | If some author has the preferred name, the result is the first such author. Otherwise, or when there is no preferred name, it is `authors[0]`. It is none exactly when there are no authors. |
| Enrichment.SeededAuthorsArePreferred | backend/src/services/newsAggregator.ts:319-328 | When the three seeded authors exist, an author is always chosen, and it has the preferred name whenever the slug has one. |
| Enrichment.GenerateSummary | backend/src/services/newsAggregator.ts:258-262 | A non-empty model answer is used as is. A failed or empty one gives the first min(200, length) characters of the content. |
| Enrichment.GenerateFullContent | backend/src/services/newsAggregator.ts:353-356 | A non-empty model answer is used. Otherwise the content is used verbatim. |
| Enrichment.ExtractKeyPoints | backend/src/services/newsAggregator.ts:283-296 | A failed or empty answer gives the fixed three points. An answer that parses gives the parsed list. A non-empty answer that does not parse gives its split lines. |
| Enrichment.KeyPointLinesSpec | backend/src/services/newsAggregator.ts:288 | For text that is not JSON: the first five non-blank lines of the answer, in order and untrimmed, or all of them when there are fewer. |
| Aggregator.Or | backend/src/services/newsAggregator.ts:86 | `a \|\| b` on strings: `a` when it is non-empty, else `b`. |
| Aggregator.ExtractContent | backend/src/services/newsAggregator.ts:144-166 | A prefix of the trimmed page text of length min(5000, its length): the whole trimmed text when it fits, exactly its first 5000 characters otherwise; "" when the request failed. |
| Aggregator.RssArticlesIsFilterMap | backend/src/services/newsAggregator.ts:74-92 | The feed loop is the filter of the complete, unstored items followed by building one article from each. |
| Aggregator.RssArticlesAreNew | backend/src/services/newsAggregator.ts:74-92 | The feed articles are no more than the items. Each has a link not already stored, a non-empty title and url, and the source's id and name. |
| Aggregator.RssArticlesComplete | backend/src/services/newsAggregator.ts:74-92 | Every item with a title, a link and a date whose link is not stored yields an article. |
| Aggregator.FetchFromRss | backend/src/services/newsAggregator.ts:69-101 | The loop's result is the feed articles of the first 10 items, in feed order, with content falling back from the page text to the snippet to the body. A failed feed gives []. The pages requested are exactly the returned URLs, none of them stored. |
| Aggregator.ScrapeFailsExactly | backend/src/services/newsAggregator.ts:116-134 | The scrape fails exactly when some listed block's link cannot be resolved, in both directions. |
| Aggregator.ScrapedArticlesSpec | backend/src/services/newsAggregator.ts:116-134 | A successful scrape yields at most one article per block, each with a non-empty title and content, the run's time, and the source's id and name. |
| Aggregator.ScrapedFromListed | backend/src/services/newsAggregator.ts:116-131 | A successful scrape yields one article per listed block, in order, with the resolved link as url, the trimmed heading as title, and the trimmed paragraph or else the title as content. |
| Aggregator.ScrapeFailureSticks | backend/src/services/newsAggregator.ts:124 | Once a block's link fails to resolve, every longer prefix of blocks fails too. |
| Aggregator.ScrapeWebsite | backend/src/services/newsAggregator.ts:103-142 | The loop that stops at i >= 5 computes the scrape of the first five blocks. A resolution error, or a failed request, gives []. |
| Aggregator.Enrich | backend/src/services/newsAggregator.ts:182-226 | The chain yields nothing exactly when there is no author or the category is missing. Otherwise the article points back at the URL, and the summary names the article. |
| Aggregator.EnrichSpec | backend/src/services/newsAggregator.ts:197-226 | A produced article keeps the title and date. It is AI generated, with a well-formed slug, read time >= 1 from the original content, at most five tags, an existing author, and the category's id. Its summary row carries the same summary, with model gpt-3.5-turbo. |
| Aggregator.ExtendsTransitive | backend/src/services/newsAggregator.ts:35-49 | A store that grows by keeping every row and adding aggregated articles for new URLs keeps doing so over several steps. |
| Aggregator.UnstoredUrlIsUnclaimed | backend/src/services/newsAggregator.ts:171-179 | In a consistent store, no aggregated article comes from a URL that has no external row. |
| Aggregator.AddExternalKeepsConsistent | backend/src/services/newsAggregator.ts:171-179 | A new unprocessed external row keeps the store consistent. |
| Aggregator.CreateArticleKeepsConsistent | backend/src/services/newsAggregator.ts:201-215 | An article for an unprocessed external row that has no aggregated article yet keeps the store consistent, and has no summary yet. |
| Aggregator.AddSummaryKeepsConsistent | backend/src/services/newsAggregator.ts:218-226 | The first summary of an aggregated article keeps the store consistent. |
| Aggregator.MarkProcessedKeepsConsistent | backend/src/services/newsAggregator.ts:229-232 | Marking a row processed once its aggregated article and that article's summary exist keeps the store consistent. |
| Aggregator.Store.constructor | backend/src/services/newsAggregator.ts:27-33 | A database with the given sources, authors, categories and seeded or hand-written articles, and no rows written by the aggregator, is consistent. |
| Aggregator.Store.AddExternal | backend/src/services/newsAggregator.ts:171-179 | The external row is added under its URL and nothing else changes. |
| Aggregator.Store.CreateArticle | backend/src/services/newsAggregator.ts:201-215 | The article is added under its slug and recorded as written by the aggregator. Nothing else changes. |
| Aggregator.Store.AddSummary | backend/src/services/newsAggregator.ts:218-226 | The summary is appended and nothing else changes. |
| Aggregator.Store.MarkProcessed | backend/src/services/newsAggregator.ts:229-232 | Only that external row changes, becoming processed. |
| Aggregator.Store.MarkScraped | backend/src/services/newsAggregator.ts:52-55 | Only the source with that id is stamped with the run's time. |
| Aggregator.Commit | backend/src/services/newsAggregator.ts:201-232 | The article, the summary and the mark are written in that order until the failing write. The rows before it stay, and the outcome names the write that threw. With no failure the article is published and its external row processed. |
| Aggregator.PublishStored | backend/src/services/newsAggregator.ts:181-232 | After the external row: a missing author or category, or a slug already taken by any article, writes nothing more. Otherwise the commit's outcome, with the external row processed exactly when published. |
| Aggregator.ProcessArticle | backend/src/services/newsAggregator.ts:168-238 | A stored URL is refused and changes nothing. A throwing external write changes nothing. Otherwise one external row is added, processed exactly when published. A missing author or category, or a slug taken by any article, seeded ones included, leaves no article. The article row exists exactly after a published or later-aborted commit, with sourceUrl = url. No earlier row changes, and the URL is stored unless its first write threw. |
| Aggregator.IngestedStep | backend/src/services/newsAggregator.ts:47-49 | An article stored before stays stored as later articles are processed. |
| Aggregator.OriginsStep | backend/src/services/newsAggregator.ts:47-49 | Every article added while processing a batch comes from one of the batch's URLs. |
| Aggregator.ProcessAll | backend/src/services/newsAggregator.ts:47-49 | Every article added comes from one of the fetched URLs. Earlier rows are kept. Every fetched article is stored unless creating its external row threw. |
| Aggregator.AfterRun | backend/src/services/newsAggregator.ts:31-55 | After a run, an active source has the run's time as lastScrapedAt. Inactive sources are untouched. |
| Aggregator.StampActive | backend/src/services/newsAggregator.ts:31-35 | With distinct ids, stamping the ids of the active sources stamps exactly the active sources. |
| Aggregator.ActiveIds | backend/src/services/newsAggregator.ts:31-33 | With distinct ids, a source's id is among the active ids exactly when the source is active. |
| Aggregator.FetchSource | backend/src/services/newsAggregator.ts:41-45 | A truthy rssUrl reads the feed. Otherwise the homepage is scraped. |
| Aggregator.ProcessSource | backend/src/services/newsAggregator.ts:37-55 | One source: the articles fetched against the URLs stored at its start are all stored unless their first write threw. The source is stamped and earlier rows kept. |
| Aggregator.FetchedAtEach | backend/src/services/newsAggregator.ts:35-55 | The record built source by source gives, for each active source, what it yielded against the URLs stored when its turn came. |
| Aggregator.FetchedAsSnoc | backend/src/services/newsAggregator.ts:35-55 | Processing one more source extends that record by its articles. |
| Aggregator.IngestedGrows | backend/src/services/newsAggregator.ts:35-49 | Articles of earlier sources stay stored while later sources are processed. |
| Aggregator.AggregateNews | backend/src/services/newsAggregator.ts:27-67 | The run stamps exactly the active sources and keeps every existing row. fetched[i] is what the i-th active source yielded against the URLs stored at its turn, and each of its articles is stored unless its first write threw. The store stays consistent whichever writes threw: at most one aggregator-written article per URL, at most one summary per article, and a processed row has both. |
| Admin.NewArticleSpec | backend/src/controllers/adminController.ts:88-116 | A created article's slug is `createSlug(title)`, so it is one of slug shape. Its read time is `calculateReadTime(content)`, at least 1. It is not AI generated and is PUBLISHED, and its tags default to []. |
| Admin.Nullable | backend/src/controllers/adminController.ts:113-114 | A URL field becomes a value exactly when one was sent. `undefined` and `null` both store null. |
| Admin.StoreKeepsWellFormed | backend/src/controllers/adminController.ts:101-121 | A write that respects the unique slug and the author and category references keeps the table well formed. |
| Admin.RemoveKeepsWellFormed | backend/src/controllers/adminController.ts:230-232 | Deleting a row keeps the table well formed. |
| Admin.AdminStore.CreateArticle | backend/src/controllers/adminController.ts:67-135 | A missing required field answers 400 and writes nothing. A taken id or slug, or an unknown author or category, answers 500 and writes nothing. Otherwise the new row is added and 201 is answered. |
| Admin.MergeArticleChanges | backend/src/controllers/adminController.ts:163-194 | A field changes only when a truthy value is sent, and then takes it. The slug changes only with a different title, and the read time only with different content. sourceUrl and imageUrl take null or "" as well. id, publishedAt and isAIGenerated never change. |
| Admin.MergeKeepsDerived | backend/src/controllers/adminController.ts:163-187 | An update keeps the slug equal to `createSlug(title)`, and the read time equal to `calculateReadTime(content)`, when they were before. |
| Admin.MergeArticleIdempotent | backend/src/controllers/adminController.ts:163-194 | Sending the same update twice gives the row the first one gave. |
| Admin.MergeEmptyArticleBody | backend/src/controllers/adminController.ts:182-194 | A body that sends nothing leaves the row as it was. |
| Admin.AdminStore.UpdateArticle | backend/src/controllers/adminController.ts:137-213 | An unknown id answers 404 and changes nothing. A merged row that breaks a constraint answers 500 and changes nothing. Otherwise just that row is replaced by the merge. |
| Admin.AdminStore.DeleteArticle | backend/src/controllers/adminController.ts:215-245 | An unknown id answers 404 and changes nothing. Otherwise exactly that row is removed. |
| Admin.DeleteUndoesCreate | backend/src/controllers/adminController.ts:101-121 | Deleting a just-created article restores the table. |
| Admin.MergeSourceChanges | backend/src/controllers/adminController.ts:302-311 | name and url change only when truthy. rssUrl, logoUrl and isActive change whenever sent, so `isActive: false` and `rssUrl: null` take effect. id and lastScrapedAt never change. |
| Admin.MergeSourceIdempotent | backend/src/controllers/adminController.ts:302-311 | Sending the same source update twice gives the row the first one gave. |
| Admin.AdminStore.UpdateNewsSource | backend/src/controllers/adminController.ts:286-325 | An unknown id answers 404 and changes nothing. Otherwise just that source is replaced by the merge. |
| Paging.Skip | backend/src/controllers/adminController.ts:331-333 | skip = (page - 1) * limit. |
| Paging.PageCount | backend/src/controllers/adminController.ts:359 | pages = ceil(total / limit): the least count of pages of `limit` rows that holds `total` rows. |
| Paging.Paginate | backend/src/controllers/adminController.ts:355-360 | The pagination object echoes page, limit and total, with pages = ceil(total / limit). |
| Paging.WindowSpec | backend/src/controllers/adminController.ts:335-338 | A page holds at most `limit` rows, taken in order from position skip. |
| Paging.WindowLocates | backend/src/controllers/categoriesController.ts:129-153 | Row i is shown on page i / limit + 1, at position i % limit. |
| Paging.NonEmptyPages | backend/src/controllers/categoriesController.ts:152-183 | A page is non-empty exactly when its number is at most `pages`. |
| Paging.FirstPagesArePrefix | backend/src/controllers/authorsController.ts:113-138 | The first n pages, one after another, are the first n * limit rows. |
| Paging.AllPagesShowEverything | backend/src/controllers/authorsController.ts:113-167 | Walking pages 1 to `pages` shows every row once, in order. |
| Tally.HistogramCounts | backend/src/controllers/categoriesController.ts:228-232 | The counting `reduce` gives each key its number of occurrences, and holds only keys that occur. |
| Tally.TotalWithout | backend/src/controllers/categoriesController.ts:228-232 | The sum of a dictionary's counts is the same whichever key is taken out first. |
| Tally.TotalBump | backend/src/controllers/categoriesController.ts:230 | `acc[k] = (acc[k] \|\| 0) + 1` raises the sum of the counts by one. |
| Tally.HistogramTotal | backend/src/controllers/categoriesController.ts:235-239 | The counts sum to the number of articles. |
| Tally.CountBy | backend/src/controllers/authorsController.ts:212-216 | The accumulator loop computes the histogram of the keys. |
| Tally.SumBounds | backend/src/controllers/authorsController.ts:207 | No single view count exceeds the total. |
| Tally.RoundedMean | backend/src/controllers/categoriesController.ts:225 | `Math.round(total / n)`: the integer r with 2·total - n < 2·r·n <= 2·total + n, i.e. the nearest integer with halves rounded up. |
| Tally.AverageViews | backend/src/controllers/authorsController.ts:209 | 0 without articles, else the rounded mean. |
| Tally.Summarize | backend/src/controllers/categoriesController.ts:223-239 | The count, the view total and its rounded mean. The per-group and per-month counts count each key's articles, and each dictionary sums to the article count. |
| Categories.PublishedIn | backend/src/controllers/categoriesController.ts:146-151 | Exactly the category's PUBLISHED articles: a subsequence in query order, each with as many copies as in the table. |
| Categories.FlatteningRoundTrip | backend/src/controllers/categoriesController.ts:19-23 | `articleCount` carries `_count.articles`, and every other field survives. The flattening has an inverse. |
| Categories.Counted | backend/src/controllers/categoriesController.ts:9-15 | A category's count is the number of its published articles. |
| Categories.GetCategories | backend/src/controllers/categoriesController.ts:4-36 | One entry per category, in order, each with its fields unchanged and its published-article count. |
| Categories.Lookup | backend/src/controllers/categoriesController.ts:42-66 | 404 exactly when no category matches. Otherwise a matching stored category, with its published-article count. |
| Categories.GetCategoryById | backend/src/controllers/categoriesController.ts:38-79 | 404 exactly when no category has that id. Otherwise that category and its published-article count. |
| Categories.GetCategoryBySlug | backend/src/controllers/categoriesController.ts:81-122 | 404 exactly when no category has that slug. Otherwise a stored category with that slug, and its published-article count. |
| Categories.GetCategoryArticles | backend/src/controllers/categoriesController.ts:124-194 | 404 exactly when the category is missing. Otherwise the requested page of its published articles, and pagination over all of them. |
| Categories.NotFoundReadsNoArticles | backend/src/controllers/categoriesController.ts:133-144 | The 404 is decided before any article is read: it is the same whatever the article table holds. |
| Categories.GetCategoryStats | backend/src/controllers/categoriesController.ts:196-258 | 404 exactly when the category is missing. Otherwise the statistics of its published articles, grouped by author name. |
| Categories.AuthorCountIsArticleCount | backend/src/controllers/categoriesController.ts:228-232 | An author name's count is the number of the category's articles by an author of that name. |
| Authors.ArticleCount | backend/src/controllers/authorsController.ts:17-21 | `_count.articles` is the number of table positions holding an article of the author, published or not. |
| Authors.CountIsPositions | backend/src/controllers/authorsController.ts:17-21 | Filtering the table by author keeps exactly as many rows as there are positions holding that author's articles. |
| Authors.PublishedBy | backend/src/controllers/authorsController.ts:130-135 | Exactly the author's PUBLISHED articles: a subsequence in query order, each with as many copies as in the table. |
| Authors.PublishedWithinCount | backend/src/controllers/authorsController.ts:76-78 | The author's published articles never outnumber their article count. |
| Authors.FlatteningRoundTrip | backend/src/controllers/authorsController.ts:27-31 | `articleCount` carries `_count.articles`, and every other field survives. The flattening has an inverse. |
| Authors.GetAuthors | backend/src/controllers/authorsController.ts:4-52 | The requested page of authors, each with its fields and its article count, and pagination over all authors. |
| Authors.GetAuthorById | backend/src/controllers/authorsController.ts:54-106 | 404 exactly when no author has that id. Otherwise the author, their article count and their first ten published articles. |
| Authors.GetAuthorArticles | backend/src/controllers/authorsController.ts:108-178 | 404 exactly when the author is missing. Otherwise the requested page of their published articles, and pagination over all of them. |
| Authors.NotFoundReadsNoArticles | backend/src/controllers/authorsController.ts:117-128 | The 404 is decided before any article is read. |
| Authors.GetAuthorStats | backend/src/controllers/authorsController.ts:180-242 | 404 exactly when the author is missing. Otherwise the statistics of their published articles, grouped by category name. |
| Authors.CategoryCountIsArticleCount | backend/src/controllers/authorsController.ts:212-216 | A category name's count is the number of the author's articles in a category of that name. |
| SampleData.Samples.GetLatestArticlesSync | lib/data.ts:244-248 | The module array is replaced by its stable newest-first sort, and its first `limit` articles are returned. |
| SampleData.LatestArticlesSpec | lib/data.ts:244-248 | The sorted array is a permutation of the old one, newest first. The result holds min(limit, n) articles, none older than any article left out. |
| SampleData.LatestArticlesSettle | lib/data.ts:245-246 | Sorting again does not reorder the array further. |
| SampleData.Samples.GetArticlesByCategorySync | lib/data.ts:250-252 | Exactly the articles of that category slug, in array order, each with as many copies as in the array. |
| SampleData.Samples.GetArticlesByAuthorSync | lib/data.ts:254-256 | Exactly the articles with that author id, in array order, each with as many copies as in the array. |
| SampleData.Samples.SearchArticlesSync | lib/data.ts:258-264 | Exactly the articles whose lower-cased title, summary or some tag contains the lower-cased query, in array order, each with as many copies as in the array. |
| SampleData.EmptyQueryMatchesAll | lib/data.ts:258-264 | The empty query returns every article. |
| SampleData.SearchIgnoresContent | lib/data.ts:260-264 | The content is not searched. |
| SampleData.SearchIgnoresQueryCase | lib/data.ts:259 | Lower-casing the query again changes nothing. |
| SampleData.Samples.GetLatestArticles | lib/data.ts:192-203 | An answer with articles returns them. An answer without articles returns the first `limit` articles unsorted, leaving the array as it was. A failed request sorts the array, as the sync query does. |
| SampleData.Samples.GetArticlesByCategory | lib/data.ts:205-214 | A failed request returns the sync filter. An answer returns its articles, or [] without them. |
| SampleData.Samples.GetArticlesByAuthor | lib/data.ts:216-225 | A failed request returns the sync filter. An answer returns its articles, or [] without them. |
| SampleData.Samples.SearchArticles | lib/data.ts:227-241 | A failed request returns the sync search. An answer returns its articles, or [] without them. |
| AISummary.FetchedOnePerSource | lib/ai-summary.ts:41-84 | The mock fetchers give one article per source, in source order. Each names its source and reads the clock once. Its URL is the source's url + '/latest-article' when rssUrl is set, else + '/latest-update'. |
| AISummary.ConfiguredFetch | lib/ai-summary.ts:17-36 | The four configured sources give four articles: two from feeds, two scraped. |
| AISummary.AISummaryGenerator.FetchExternalArticles | lib/ai-summary.ts:38-56 | The result is the newest-first stable sort of the pushed articles: sorted, a permutation of them, one per source. |
| AISummary.SummaryDependsOnlyOnSource | lib/ai-summary.ts:86-99 | Two articles with the same source get the same mock summary. |
| AISummary.GenerateKeyPoints | lib/ai-summary.ts:101-108 | Always the same four key points. |
| AISummary.KeyPointsIgnoreArticle | lib/ai-summary.ts:101-108 | Any two articles get the same key points. |
| AISummary.CategorizersAgree | lib/ai-summary.ts:111-126 | The client's if-else categoriser gives the same slug as the aggregator's categoriser for every title and content. |

## Left out

- Network access, HTML parsing, feed parsing and link resolution (HTTP
  requests, CSS selectors, removing elements, the RSS parser, `new URL(link,
  base)`). Feeds are given as item lists, homepages as blocks, and pages as
  their extracted text. A block carries its link already resolved, and `None`
  means resolution throws.
- The language-model calls, their prompts and `JSON.parse`. Each stage gets
  the call's outcome. A parse that yields something other than a list of
  strings is not modelled.
- Prisma query semantics:
  - `orderBy` clauses are not modelled. Each query returns the catalog's
    sequence in the order it is given.
  - `findUnique` is the first match.
  - getNewsSources, getDashboardStats and getUsers' user query are left to the
    database; only getUsers' pagination arithmetic is modelled.
  - A unique constraint on news-source columns, cascades on delete, and
    foreign keys other than author and category, are not modelled.
- Aggregator.ProcessArticle: the external row's `sourceId` reference is not
  checked, since the sources come from the same table. The summary row refers
  to the created article by its slug; the code passes the created article's id.
- Aggregator.ProcessArticle: the three language-model calls of one article are
  taken as independent of the order in which they are issued.
- Aggregator.AggregateNews: a throwing `newsSource.update` (line 52) is not
  modelled. The run's catch at line 57 would leave that source unstamped.
- Aggregator.AggregateNews: `new Date()` at lines 54 and 130 is one instant,
  `now`, for the whole run. The model does not tell apart the moments at
  which different sources are scraped and stamped.
- Aggregator.ProcessArticle: an article the seed script or an administrator
  wrote may share its sourceUrl with one the aggregator writes later.
  `fetchFromRSS` only looks in the external-article table (lines 77-79). The
  one-article-per-URL invariant is therefore about the aggregator's own
  articles.
- The fire-and-forget aggregation trigger, cron jobs, time-outs, overlapping
  runs and all logging.
- `toLowerCase`, `\s`, `\w` and `trim` are modelled on ASCII. Lower-casing
  leaves every other character as it is, so mappings such as 'İ' or the Kelvin
  sign to ASCII letters are not modelled. `toISOString` month keys are given
  strings, and the clock is a parameter.
- `substring(0, n)` with n = 200, 5000 or 50 counts UTF-16 code units. The
  model's Text.Take counts characters, so the two differ on text outside the
  Basic Multilingual Plane.
- Aggregator.AggregateNews: the consistency invariant assumes administrators
  do not edit or delete articles the aggregator wrote. An admin update
  (adminController.ts:164-194) can change such an article's slug or sourceUrl,
  and a delete (adminController.ts:230) leaves its external and summary rows
  behind.
- Aggregator.AggregateNews: language-model answers and scrape faults are given
  per article URL. Two attempts at the same URL therefore get the same answers
  and faults, and a retry of a failed article cannot succeed.
- Aggregator.ProcessArticle: failing reads are not modelled: the
  `externalArticle.findUnique` at newsAggregator.ts:77, the `aIAuthor.findMany`
  at newsAggregator.ts:316 and the `category.findUnique` at
  newsAggregator.ts:188 always answer.
- Enrichment.SeededAuthorsArePreferred: for a slug naming an `Object.prototype`
  property there is no preferred name, and the code falls back to
  `authors[0]`. The lemma promises the preferred name only when the slug has
  one, which every slug the categoriser produces does.
- Tally.CountBy: a group name that is a property of `Object.prototype` (for
  example "constructor") would make `acc[name] || 0` read that property. The
  model counts such names like any other.
- Tally.RoundedMean: `Math.round` of a floating-point quotient is modelled by
  exact integer arithmetic. The two differ only when the quotient cannot be
  represented.
- Paging.Skip: `parseInt` of a non-number, a page below 1 and a limit below 1
  are not modelled. Page and limit are taken to be at least 1.
- SampleData.Samples.GetLatestArticlesSync: a negative `limit` is not
  modelled. `sort` is modelled as a stable sort, as the language requires.
- The type definitions, UI pages and components, routes, the HTTP client
  and the seed script. Of the seed script, only the author names and category
  slugs are kept, as constants.
