/**
 * The client-side summary generator: a fixed list of four sources, mock
 * fetchers that return one article per source, the merge-and-sort of
 * `fetchExternalArticles`, the mock summary and key points, and a second copy
 * of the keyword categoriser written as an if-else chain.
 * `new Date()` is a clock the caller supplies, read once per fetched source.
 */
module AISummary {
  import opened Wrappers
  import opened Text
  import opened Schema
  import Seqs
  import Enrichment

  datatype ExternalNewsSource = ExternalNewsSource(name: string, url: string, rssUrl: Option<string>)

  datatype ExternalArticle = ExternalArticle(
    title: string, content: string, url: string, publishedAt: Timestamp, source: string)

  /** The sources the generator is configured with; the first two have a feed. */
  const ConfiguredSources: seq<ExternalNewsSource> := [
    ExternalNewsSource("OpenAI Blog", "https://openai.com/blog", Some("https://openai.com/blog/rss.xml")),
    ExternalNewsSource("Google AI Blog", "https://ai.googleblog.com", Some("https://ai.googleblog.com/feeds/posts/default")),
    ExternalNewsSource("Anthropic News", "https://www.anthropic.com/news", None),
    ExternalNewsSource("DeepMind Blog", "https://deepmind.google/discover/blog", None)
  ]

  const RssSuffix: string := "/latest-article"
  const ScrapeSuffix: string := "/latest-update"

  /** The mock feed reader: one article at `url + '/latest-article'`. */
  function FetchFromRss(source: ExternalNewsSource, now: Timestamp): seq<ExternalArticle> {
    [ExternalArticle("Latest " + source.name + " Article", "Mock content from RSS feed",
      source.url + RssSuffix, now, source.name)]
  }

  /** The mock scraper: one article at `url + '/latest-update'`. */
  function ScrapeWebsite(source: ExternalNewsSource, now: Timestamp): seq<ExternalArticle> {
    [ExternalArticle("Latest " + source.name + " Update", "Mock content from website scraping",
      source.url + ScrapeSuffix, now, source.name)]
  }

  /** `if (source.rssUrl)`: the feed when the source has a non-empty feed URL, else the scraper. */
  function FetchSource(source: ExternalNewsSource, now: Timestamp): seq<ExternalArticle> {
    if TruthyOpt(source.rssUrl) then FetchFromRss(source, now) else ScrapeWebsite(source, now)
  }

  /** The articles pushed by the loop over `sources`, before the sort; source `i` reads the clock as `clock(i)`. */
  function Fetched(sources: seq<ExternalNewsSource>, clock: nat -> Timestamp): seq<ExternalArticle> {
    if sources == [] then []
    else Fetched(sources[..|sources| - 1], clock) + FetchSource(sources[|sources| - 1], clock(|sources| - 1))
  }

  function PublishedAt(a: ExternalArticle): int {
    a.publishedAt
  }

  /** The mock fetchers give exactly one article per source, in source order, from the source it names. */
  lemma {:induction false} FetchedOnePerSource(sources: seq<ExternalNewsSource>, clock: nat -> Timestamp)
    ensures |Fetched(sources, clock)| == |sources|
    ensures forall i :: 0 <= i < |sources| ==>
      && Fetched(sources, clock)[i].source == sources[i].name
      && Fetched(sources, clock)[i].publishedAt == clock(i)
      && Fetched(sources, clock)[i].url == sources[i].url + (if TruthyOpt(sources[i].rssUrl) then RssSuffix else ScrapeSuffix)
  {
    if sources != [] {
      var init := sources[..|sources| - 1];
      FetchedOnePerSource(init, clock);
      forall i | 0 <= i < |init|
        ensures sources[i] == init[i]
      {
      }
    }
  }

  /** With the configured sources: four articles, the two feeds read, the other two scraped. */
  lemma ConfiguredFetch(clock: nat -> Timestamp)
    ensures |Fetched(ConfiguredSources, clock)| == 4
    ensures Fetched(ConfiguredSources, clock)[0].url == "https://openai.com/blog" + RssSuffix
    ensures Fetched(ConfiguredSources, clock)[1].url == "https://ai.googleblog.com" + RssSuffix
    ensures Fetched(ConfiguredSources, clock)[2].url == "https://www.anthropic.com/news" + ScrapeSuffix
    ensures Fetched(ConfiguredSources, clock)[3].url == "https://deepmind.google/discover/blog" + ScrapeSuffix
  {
    FetchedOnePerSource(ConfiguredSources, clock);
  }

  class AISummaryGenerator {
    const sources: seq<ExternalNewsSource>

    constructor()
      ensures sources == ConfiguredSources
    {
      sources := ConfiguredSources;
    }

    /**
     * fetchExternalArticles: pushes each source's articles in turn, then sorts
     * them newest first; the result is a sorted permutation of what was fetched,
     * one article per source.
     */
    method FetchExternalArticles(clock: nat -> Timestamp) returns (articles: seq<ExternalArticle>)
      ensures articles == Seqs.SortDesc(Fetched(sources, clock), PublishedAt)
      ensures Seqs.SortedDesc(articles, PublishedAt)
      ensures multiset(articles) == multiset(Fetched(sources, clock))
      ensures |articles| == |sources|
    {
      var pushed: seq<ExternalArticle> := [];
      for i := 0 to |sources|
        invariant pushed == Fetched(sources[..i], clock)
      {
        Seqs.PrefixSnoc(sources, i);
        assert sources[..i + 1][..i] == sources[..i];
        pushed := pushed + FetchSource(sources[i], clock(i));
      }
      assert sources[..|sources|] == sources;
      FetchedOnePerSource(sources, clock);
      Seqs.SortDescSorted(pushed, PublishedAt);
      articles := Seqs.SortDesc(pushed, PublishedAt);
    }
  }

  /** The mock summary: a fixed text that names the article's source. */
  function GenerateSummary(article: ExternalArticle): string {
    "This article from " + article.source
      + " discusses significant developments in AI technology. The key insights include technical"
      + " breakthroughs and their potential impact on the industry. This represents an important"
      + " milestone in the ongoing evolution of artificial intelligence capabilities."
  }

  /** Two articles from the same source get the same summary, whatever their title and content. */
  lemma SummaryDependsOnlyOnSource(a: ExternalArticle, b: ExternalArticle)
    requires a.source == b.source
    ensures GenerateSummary(a) == GenerateSummary(b)
  {
  }

  const MockKeyPoints: seq<string> := [
    "New AI model achieves breakthrough performance",
    "Significant improvements in efficiency and accuracy",
    "Potential applications across multiple industries",
    "Important considerations for ethical deployment"
  ]

  /** The mock key points: the same four points for every article. */
  function GenerateKeyPoints(article: ExternalArticle): (points: seq<string>)
    ensures |points| == 4
  {
    MockKeyPoints
  }

  /** The key points do not depend on the article at all. */
  lemma KeyPointsIgnoreArticle(a: ExternalArticle, b: ExternalArticle)
    ensures GenerateKeyPoints(a) == GenerateKeyPoints(b)
  {
  }

  /** categorizArticle: the keyword tests written out as an if-else chain. */
  function CategorizArticle(article: ExternalArticle): string {
    var content := Lower(article.title + " " + article.content);
    if Contains(content, "research") || Contains(content, "paper") || Contains(content, "study") then "research"
    else if Contains(content, "ethics") || Contains(content, "policy") || Contains(content, "regulation") then "ethics-policy"
    else if Contains(content, "industry") || Contains(content, "business") || Contains(content, "market") then "ai-industry"
    else if Contains(content, "application") || Contains(content, "deployment") || Contains(content, "use case") then "applications"
    else "machine-learning"
  }

  /** Both copies of the categoriser file every article under the same slug. */
  lemma CategorizersAgree(article: ExternalArticle)
    ensures CategorizArticle(article) == Enrichment.CategorizeArticle(article.title, article.content)
  {
    var text := Enrichment.MatchedText(article.title, article.content);
    var rules := Enrichment.CategoryRules;
    AnyOfThree(text, rules[0].keywords);
    AnyOfThree(text, rules[1].keywords);
    AnyOfThree(text, rules[2].keywords);
    AnyOfThree(text, rules[3].keywords);
    assert rules[1..][1..][1..][1..] == [];
  }

  lemma AnyOfThree(text: string, keywords: seq<string>)
    requires |keywords| == 3
    ensures Enrichment.MentionsAny(text, keywords)
      <==> Contains(text, keywords[0]) || Contains(text, keywords[1]) || Contains(text, keywords[2])
  {
    if Contains(text, keywords[0]) {
      assert keywords[0] in keywords;
    } else if Contains(text, keywords[1]) {
      assert keywords[1] in keywords;
    } else if Contains(text, keywords[2]) {
      assert keywords[2] in keywords;
    }
  }
}
