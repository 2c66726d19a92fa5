/**
 * The per-item enrichment chain of the news aggregator: the keyword categoriser,
 * slug and read-time derivation, tag extraction, author selection and the
 * deterministic fallbacks of the three language-model stages.
 * Language-model calls are not made here: each stage receives the call's outcome.
 */
module Enrichment {
  import opened Wrappers
  import opened Text
  import opened Schema
  import Seqs

  // ---------------------------------------------------------------------------
  // Categoriser

  /** One line of the decision list: any keyword present selects the slug. */
  datatype Rule = Rule(keywords: seq<string>, slug: string)

  /** The decision list, in the order the rules are tried. */
  const CategoryRules: seq<Rule> := [
    Rule(["research", "paper", "study"], "research"),
    Rule(["ethics", "policy", "regulation"], "ethics-policy"),
    Rule(["industry", "business", "market"], "ai-industry"),
    Rule(["application", "deployment", "use case"], "applications")
  ]

  /** The category chosen when no rule matches. */
  const DefaultCategory: string := "machine-learning"

  /** The twelve keywords of the decision list. */
  const AllKeywords: seq<string> := [
    "research", "paper", "study", "ethics", "policy", "regulation",
    "industry", "business", "market", "application", "deployment", "use case"
  ]

  /** The text the categoriser and the tag extractor search: `(title + ' ' + content).toLowerCase()`. */
  function MatchedText(title: string, content: string): string {
    Lower(title + " " + content)
  }

  predicate MentionsAny(text: string, keywords: seq<string>) {
    exists k | k in keywords :: Contains(text, k)
  }

  /** The index of the first rule with a keyword in `text`, if any. */
  function FirstMatchingRule(text: string, rules: seq<Rule>): (k: Option<nat>)
    ensures k.Some? ==> k.value < |rules| && MentionsAny(text, rules[k.value].keywords)
    ensures k.Some? ==> forall j :: 0 <= j < k.value ==> !MentionsAny(text, rules[j].keywords)
    ensures k.None? ==> forall j :: 0 <= j < |rules| ==> !MentionsAny(text, rules[j].keywords)
  {
    if rules == [] then None
    else if MentionsAny(text, rules[0].keywords) then Some(0)
    else
      match FirstMatchingRule(text, rules[1..])
      case Some(i) => Some(i + 1)
      case None => None
  }

  /** `categorizeArticle`: the slug of the first matching rule, else machine-learning. */
  function CategorizeArticle(title: string, content: string): (slug: string)
    ensures slug in SeededCategorySlugs
  {
    match FirstMatchingRule(MatchedText(title, content), CategoryRules)
    case Some(i) => CategoryRules[i].slug
    case None => DefaultCategory
  }

  /** The rule order decides: the first rule that matches names the category, whatever later rules match. */
  lemma CategorizeIsFirstMatch(title: string, content: string, i: nat)
    requires i < |CategoryRules|
    requires MentionsAny(MatchedText(title, content), CategoryRules[i].keywords)
    requires forall j :: 0 <= j < i ==> !MentionsAny(MatchedText(title, content), CategoryRules[j].keywords)
    ensures CategorizeArticle(title, content) == CategoryRules[i].slug
  {
    var k := FirstMatchingRule(MatchedText(title, content), CategoryRules);
    assert k.Some?;
    assert !(k.value < i) && !(i < k.value);
  }

  /** Any text mentioning research, paper or study is filed under research. */
  lemma CategorizeResearchWins(title: string, content: string)
    requires var text := MatchedText(title, content);
      Contains(text, "research") || Contains(text, "paper") || Contains(text, "study")
    ensures CategorizeArticle(title, content) == "research"
  {
    var text := MatchedText(title, content);
    assert MentionsAny(text, CategoryRules[0].keywords);
    CategorizeIsFirstMatch(title, content, 0);
  }

  /** machine-learning is chosen exactly when none of the twelve keywords occurs. */
  lemma CategorizeDefaultIff(title: string, content: string)
    ensures CategorizeArticle(title, content) == DefaultCategory
      <==> forall k :: k in AllKeywords ==> !Contains(MatchedText(title, content), k)
  {
    var text := MatchedText(title, content);
    var m := FirstMatchingRule(text, CategoryRules);
    if m.None? {
      forall k | k in AllKeywords
        ensures !Contains(text, k)
      {
        assert !MentionsAny(text, CategoryRules[0].keywords);
        assert !MentionsAny(text, CategoryRules[1].keywords);
        assert !MentionsAny(text, CategoryRules[2].keywords);
        assert !MentionsAny(text, CategoryRules[3].keywords);
      }
    } else {
      var i := m.value;
      var k :| k in CategoryRules[i].keywords && Contains(text, k);
      assert k in AllKeywords;
    }
  }

  /** A worked instance: a study title with "research paper" in the body is filed under research. */
  lemma CategorizeStudyExample()
    ensures CategorizeArticle("New Study on Transformer Efficiency", "Findings from a research paper") == "research"
  {
    var raw := "New Study on Transformer Efficiency" + " " + "Findings from a research paper";
    var text := MatchedText("New Study on Transformer Efficiency", "Findings from a research paper");
    assert raw[4] == 'S' && raw[5] == 't' && raw[6] == 'u' && raw[7] == 'd' && raw[8] == 'y';
    assert text[4] == 's' && text[5] == 't' && text[6] == 'u' && text[7] == 'd' && text[8] == 'y';
    assert text[4..9] == "study";
    assert OccursAt(text, "study", 4);
    CategorizeResearchWins("New Study on Transformer Efficiency", "Findings from a research paper");
  }

  // ---------------------------------------------------------------------------
  // Slug

  /** What `.replace(/[^\w\s-]/g, '')` keeps. */
  predicate KeptBySlugFilter(c: char) {
    IsWordChar(c) || IsSpace(c) || c == '-'
  }

  /** `.replace(/X+/g, '-')` where X is the class `inRun`; `afterRun` says the previous character was in X. */
  function ReplaceRuns(s: string, inRun: char -> bool, afterRun: bool): string {
    if s == [] then []
    else if inRun(s[0]) then (if afterRun then "" else "-") + ReplaceRuns(s[1..], inRun, true)
    else [s[0]] + ReplaceRuns(s[1..], inRun, false)
  }

  /** `createSlug`: lower-case, strip symbols, whitespace runs and hyphen runs to one hyphen, trim, first 50 characters. */
  function CreateSlug(title: string): string {
    Take(Trim(Collapsed(title)), 50)
  }

  /** The title before trimming and truncation: lower-cased, symbols stripped, whitespace and hyphen runs replaced. */
  function Collapsed(title: string): string {
    var stripped := Seqs.Filter(KeptBySlugFilter, Lower(title));
    var hyphenated := ReplaceRuns(stripped, IsSpace, false);
    ReplaceRuns(hyphenated, IsHyphen, false)
  }

  predicate IsSlugChar(c: char) {
    IsLowerLetter(c) || IsDigit(c) || c == '_' || c == '-'
  }

  predicate NoDoubleHyphen(s: string) {
    forall i :: 0 <= i < |s| - 1 ==> !(s[i] == '-' && s[i + 1] == '-')
  }

  /** The shape every slug has: at most 50 characters from [a-z0-9_-], never "--". */
  predicate IsSlug(s: string) {
    |s| <= 50 && (forall c :: c in s ==> IsSlugChar(c)) && NoDoubleHyphen(s)
  }

  lemma {:induction false} ReplaceRunsMembers(s: string, inRun: char -> bool, afterRun: bool)
    ensures forall c :: c in ReplaceRuns(s, inRun, afterRun) ==> c == '-' || (c in s && !inRun(c))
  {
    if s != [] {
      ReplaceRunsMembers(s[1..], inRun, inRun(s[0]));
      assert s == [s[0]] + s[1..];
    }
  }

  lemma {:induction false} ReplaceHyphenRunsNoDouble(s: string, afterRun: bool)
    ensures NoDoubleHyphen(ReplaceRuns(s, IsHyphen, afterRun))
    ensures afterRun ==> var r := ReplaceRuns(s, IsHyphen, afterRun); r == [] || r[0] != '-'
  {
    if s != [] {
      ReplaceHyphenRunsNoDouble(s[1..], IsHyphen(s[0]));
      var rest := ReplaceRuns(s[1..], IsHyphen, IsHyphen(s[0]));
      if IsHyphen(s[0]) && !afterRun {
        assert ReplaceRuns(s, IsHyphen, afterRun) == "-" + rest;
      } else if !IsHyphen(s[0]) {
        assert ReplaceRuns(s, IsHyphen, afterRun) == [s[0]] + rest;
      }
    }
  }

  lemma {:induction false} ReplaceRunsIdentity(s: string, inRun: char -> bool, afterRun: bool)
    requires forall c :: c in s ==> !inRun(c)
    ensures ReplaceRuns(s, inRun, afterRun) == s
  {
    if s != [] {
      assert s[0] in s;
      ReplaceRunsIdentity(s[1..], inRun, false);
    }
  }

  lemma {:induction false} ReplaceHyphenRunsIdentity(s: string, afterRun: bool)
    requires NoDoubleHyphen(s)
    requires afterRun ==> s == [] || s[0] != '-'
    ensures ReplaceRuns(s, IsHyphen, afterRun) == s
  {
    if s != [] {
      assert NoDoubleHyphen(s[1..]) by {
        forall i | 0 <= i < |s[1..]| - 1
          ensures !(s[1..][i] == '-' && s[1..][i + 1] == '-')
        {
          assert s[1..][i] == s[i + 1] && s[1..][i + 1] == s[i + 2];
        }
      }
      ReplaceHyphenRunsIdentity(s[1..], IsHyphen(s[0]));
    }
  }

  lemma TakeKeepsSlugShape(s: string, n: nat)
    requires (forall c :: c in s ==> IsSlugChar(c)) && NoDoubleHyphen(s)
    ensures var t := Take(s, n); (forall c :: c in t ==> IsSlugChar(c)) && NoDoubleHyphen(t)
  {
    var t := Take(s, n);
    assert forall i :: 0 <= i < |t| ==> t[i] == s[i];
    forall c | c in t
      ensures IsSlugChar(c)
    {
      var i :| 0 <= i < |t| && t[i] == c;
      assert s[i] in s;
    }
  }

  /** Every slug is at most 50 characters from [a-z0-9_-] and never holds "--". */
  lemma CreateSlugIsSlug(title: string)
    ensures IsSlug(CreateSlug(title))
  {
    var collapsed := Collapsed(title);
    CollapsedShape(title);
    TrimWithoutSpace(collapsed);
    TakeKeepsSlugShape(collapsed, 50);
  }

  /** The collapsed title holds only slug characters, no whitespace and no "--". */
  lemma CollapsedShape(title: string)
    ensures forall c :: c in Collapsed(title) ==> IsSlugChar(c) && !IsSpace(c)
    ensures NoDoubleHyphen(Collapsed(title))
  {
    var lowered := Lower(title);
    var stripped := Seqs.Filter(KeptBySlugFilter, lowered);
    var hyphenated := ReplaceRuns(stripped, IsSpace, false);
    var collapsed := ReplaceRuns(hyphenated, IsHyphen, false);
    Seqs.FilterSpec(KeptBySlugFilter, lowered);
    assert forall c :: c in lowered ==> !IsUpper(c);
    ReplaceRunsMembers(stripped, IsSpace, false);
    ReplaceRunsMembers(hyphenated, IsHyphen, false);
    assert forall c :: c in collapsed ==> IsSlugChar(c) && !IsSpace(c);
    ReplaceHyphenRunsNoDouble(hyphenated, false);
  }

  /** A string that already has the shape of a slug is its own slug. */
  lemma SlugIsFixedPoint(s: string)
    requires IsSlug(s)
    ensures CreateSlug(s) == s
  {
    CollapsedOfSlug(s);
    SlugHasNoSpace(s);
    TrimWithoutSpace(s);
    assert Take(s, 50) == s;
  }

  lemma SlugHasNoSpace(s: string)
    requires IsSlug(s)
    ensures forall c :: c in s ==> !IsSpace(c)
  {
  }

  /** Lower-casing, stripping and collapsing leave a slug-shaped string as it is. */
  lemma CollapsedOfSlug(s: string)
    requires IsSlug(s)
    ensures Collapsed(s) == s
  {
    assert forall i :: 0 <= i < |s| ==> s[i] in s;
    assert Lower(s) == s;
    Seqs.FilterKeepsAll(KeptBySlugFilter, s);
    ReplaceRunsIdentity(s, IsSpace, false);
    ReplaceHyphenRunsIdentity(s, false);
  }

  /** Deriving a slug twice changes nothing. */
  lemma CreateSlugIdempotent(title: string)
    ensures CreateSlug(CreateSlug(title)) == CreateSlug(title)
  {
    CreateSlugIsSlug(title);
    SlugIsFixedPoint(CreateSlug(title));
  }

  // ---------------------------------------------------------------------------
  // Read time

  const WordsPerMinute: nat := 200

  /** `s.split(/\s+/)`: the pieces between maximal whitespace runs, empty pieces at the ends included. */
  function SplitOnWhitespace(s: string): (words: seq<string>)
    ensures |words| >= 1
  {
    if s == [] then [""]
    else if IsSpace(s[0]) then
      if |s| > 1 && IsSpace(s[1]) then SplitOnWhitespace(s[1..]) else [""] + SplitOnWhitespace(s[1..])
    else
      var rest := SplitOnWhitespace(s[1..]);
      [[s[0]] + rest[0]] + rest[1..]
  }

  /** The number of maximal whitespace runs in `s`; `afterSpace` says the character before `s` was whitespace. */
  function WhitespaceRuns(s: string, afterSpace: bool): nat {
    if s == [] then 0
    else (if IsSpace(s[0]) && !afterSpace then 1 else 0) + WhitespaceRuns(s[1..], IsSpace(s[0]))
  }

  /** `Math.ceil(a / b)` for naturals. */
  function CeilDiv(a: nat, b: nat): (q: nat)
    requires b > 0
    ensures q * b >= a
    ensures q > 0 ==> (q - 1) * b < a
  {
    var q := (a + b - 1) / b;
    assert a + b - 1 == q * b + (a + b - 1) % b;
    q
  }

  /** `calculateReadTime`: one minute per started 200 pieces of `split(/\s+/)`. */
  function CalculateReadTime(content: string): (minutes: nat)
    ensures minutes >= 1
  {
    CeilDiv(|SplitOnWhitespace(content)|, WordsPerMinute)
  }

  lemma {:induction false} WordCountIsRunsPlusOne(s: string)
    ensures |SplitOnWhitespace(s)| == 1 + WhitespaceRuns(s, false)
  {
    if s != [] {
      WordCountIsRunsPlusOne(s[1..]);
      var t := s[1..];
      assert WhitespaceRuns(t, false) == WhitespaceRuns(t, true) + (if t != [] && IsSpace(t[0]) then 1 else 0);
    }
  }

  /** The read time counts whitespace runs: ceil((1 + runs) / 200); so even "" takes one minute. */
  lemma ReadTimeByRuns(content: string)
    ensures CalculateReadTime(content) == CeilDiv(1 + WhitespaceRuns(content, false), WordsPerMinute)
    ensures CalculateReadTime("") == 1
  {
    WordCountIsRunsPlusOne(content);
  }

  predicate IsWord(w: string) {
    w != [] && forall c :: c in w ==> !IsSpace(c)
  }

  lemma {:induction false} RunsAfterWord(w: string, rest: string, afterSpace: bool)
    requires IsWord(w)
    ensures WhitespaceRuns(w + rest, afterSpace) == WhitespaceRuns(rest, false)
    decreases |w|
  {
    assert (w + rest)[0] == w[0] && w[0] in w;
    assert (w + rest)[1..] == w[1..] + rest;
    if |w| > 1 {
      assert forall c :: c in w[1..] ==> c in w;
      RunsAfterWord(w[1..], rest, false);
    }
  }

  lemma {:induction false} RunsOfSingleSpacedWords(words: seq<string>)
    requires |words| >= 1
    requires forall k :: 0 <= k < |words| ==> IsWord(words[k])
    ensures WhitespaceRuns(Join(words, " "), false) == |words| - 1
  {
    if |words| > 1 {
      var tail := Join(words[1..], " ");
      RunsOfSingleSpacedWords(words[1..]);
      assert Join(words, " ") == words[0] + (" " + tail);
      RunsAfterWord(words[0], " " + tail, false);
      JoinStartsWithFirst(words[1..]);
      assert (" " + tail)[1..] == tail;
    } else {
      RunsAfterWord(words[0], "", false);
      assert words[0] + "" == words[0];
    }
  }

  lemma {:induction false} JoinStartsWithFirst(words: seq<string>)
    requires |words| >= 1 && words[0] != []
    ensures Join(words, " ") != [] && Join(words, " ")[0] == words[0][0]
  {
  }

  /** A body of n single-spaced words takes ceil(n / 200) minutes; 400 words take 2. */
  lemma ReadTimeOfWords(words: seq<string>)
    requires |words| >= 1
    requires forall k :: 0 <= k < |words| ==> IsWord(words[k])
    ensures CalculateReadTime(Join(words, " ")) == CeilDiv(|words|, WordsPerMinute)
    ensures |words| == 400 ==> CalculateReadTime(Join(words, " ")) == 2
  {
    RunsOfSingleSpacedWords(words);
    WordCountIsRunsPlusOne(Join(words, " "));
  }

  // ---------------------------------------------------------------------------
  // Tags

  /** The tag vocabulary, in the order tags are reported. */
  const TagVocabulary: seq<string> := [
    "AI", "Machine Learning", "Deep Learning", "Neural Networks",
    "OpenAI", "Google", "Microsoft", "Meta", "Research", "Technology"
  ]

  const MaxTags: nat := 5

  /** The vocabulary terms whose lower-case form occurs in `text`, in vocabulary order. */
  function MatchingTags(text: string): seq<string> {
    TagsIn(text, TagVocabulary)
  }

  /** `vocabulary.filter(tag => text.includes(tag.toLowerCase()))`. */
  function TagsIn(text: string, vocabulary: seq<string>): (tags: seq<string>)
    ensures |tags| <= |vocabulary|
  {
    if vocabulary == [] then []
    else (if Contains(text, Lower(vocabulary[0])) then [vocabulary[0]] else []) + TagsIn(text, vocabulary[1..])
  }

  function Mentions(text: string): string -> bool {
    tag => Contains(text, Lower(tag))
  }

  lemma {:induction false} TagsInIsFilter(text: string, vocabulary: seq<string>)
    ensures TagsIn(text, vocabulary) == Seqs.Filter(Mentions(text), vocabulary)
  {
    if vocabulary != [] {
      TagsInIsFilter(text, vocabulary[1..]);
    }
  }

  /** `extractTags`: the first five matching vocabulary terms. */
  function ExtractTags(title: string, content: string): (tags: seq<string>)
    ensures var matching := MatchingTags(MatchedText(title, content));
      tags <= matching && |tags| == if |matching| < MaxTags then |matching| else MaxTags
  {
    Seqs.Prefix(MatchingTags(MatchedText(title, content)), MaxTags)
  }

  /** Tags come from the vocabulary in its order, each occurs in the text, and all matches are kept up to five. */
  lemma ExtractTagsSpec(title: string, content: string)
    ensures var tags := ExtractTags(title, content);
      var text := MatchedText(title, content);
      && Seqs.IsSubsequence(tags, TagVocabulary)
      && (forall t :: t in tags ==> Contains(text, Lower(t)))
      && (|MatchingTags(text)| <= MaxTags ==>
            forall t :: t in TagVocabulary && Contains(text, Lower(t)) ==> t in tags)
  {
    var text := MatchedText(title, content);
    TagsInIsFilter(text, TagVocabulary);
    Seqs.PrefixOfFilterSpec(Mentions(text), TagVocabulary, MaxTags);
  }

  // ---------------------------------------------------------------------------
  // Author selection

  /** The category-to-author table of `selectAIAuthor`. */
  const AuthorForCategory: map<string, string> := map[
    "machine-learning" := "Claude AI Reporter",
    "ai-industry" := "GPT News Writer",
    "research" := "Claude AI Reporter",
    "ethics-policy" := "Gemini Analyst",
    "applications" := "GPT News Writer"
  ]

  const FallbackAuthorName: string := "Claude AI Reporter"

  /**
   * The properties every object literal inherits from `Object.prototype`.
   * Looking one of them up in `authorMap` yields a function or an object,
   * which is truthy and equal to no author's name.
   */
  const ObjectPrototypeNames: set<string> := {
    "constructor", "__proto__", "toString", "toLocaleString", "valueOf", "hasOwnProperty",
    "isPrototypeOf", "propertyIsEnumerable", "__defineGetter__", "__defineSetter__",
    "__lookupGetter__", "__lookupSetter__"
  }

  /**
   * `authorMap[categorySlug] || 'Claude AI Reporter'`: the name looked for, or
   * None when the lookup yields an inherited non-string that no name equals.
   */
  function PreferredAuthorName(categorySlug: string): (name: Option<string>)
    ensures categorySlug in AuthorForCategory ==> name == Some(AuthorForCategory[categorySlug])
    ensures categorySlug !in AuthorForCategory && categorySlug !in ObjectPrototypeNames ==>
      name == Some(FallbackAuthorName)
    ensures name.None? <==> categorySlug in ObjectPrototypeNames
    ensures name.Some? ==> name.value in SeededAuthorNames
  {
    if categorySlug in AuthorForCategory then Some(AuthorForCategory[categorySlug])
    else if categorySlug in ObjectPrototypeNames then None
    else Some(FallbackAuthorName)
  }

  /** Every slug the categoriser can produce has a preferred author name. */
  lemma CategorizedSlugsArePreferred(title: string, content: string)
    ensures PreferredAuthorName(CategorizeArticle(title, content)).Some?
  {
    var slug := CategorizeArticle(title, content);
    assert slug in AuthorForCategory;
  }

  /** The index of the first author called `name`. */
  function FirstNamed(authors: seq<Author>, name: string): (k: Option<nat>)
    ensures k.Some? ==> k.value < |authors| && authors[k.value].name == name
    ensures k.Some? ==> forall j :: 0 <= j < k.value ==> authors[j].name != name
    ensures k.None? ==> forall j :: 0 <= j < |authors| ==> authors[j].name != name
  {
    if authors == [] then None
    else if authors[0].name == name then Some(0)
    else
      match FirstNamed(authors[1..], name)
      case Some(i) => Some(i + 1)
      case None => None
  }

  /**
   * `selectAIAuthor`: the first author with the preferred name, else the first
   * author, else none when there are no authors.
   */
  function SelectAIAuthor(authors: seq<Author>, categorySlug: string): (author: Option<Author>)
    ensures author.None? <==> authors == []
    ensures author.Some? ==> author.value in authors
    ensures PreferredAuthorName(categorySlug).Some? ==>
      var name := PreferredAuthorName(categorySlug).value;
      (exists i :: 0 <= i < |authors| && authors[i].name == name) ==>
        exists k :: 0 <= k < |authors| && author == Some(authors[k]) && authors[k].name == name
          && forall j :: 0 <= j < k ==> authors[j].name != name
    ensures PreferredAuthorName(categorySlug).Some? ==>
      var name := PreferredAuthorName(categorySlug).value;
      authors != [] && (forall i :: 0 <= i < |authors| ==> authors[i].name != name) ==>
        author == Some(authors[0])
    ensures PreferredAuthorName(categorySlug).None? && authors != [] ==> author == Some(authors[0])
  {
    match PreferredAuthorName(categorySlug)
    case None => if authors == [] then None else Some(authors[0])
    case Some(name) =>
      match FirstNamed(authors, name)
      case Some(k) => Some(authors[k])
      case None => if authors == [] then None else Some(authors[0])
  }

  /** With the seeded authors present, an author is always chosen, and it has the preferred name whenever the slug has one. */
  lemma SeededAuthorsArePreferred(authors: seq<Author>, categorySlug: string)
    requires forall n :: n in SeededAuthorNames ==> exists i :: 0 <= i < |authors| && authors[i].name == n
    ensures SelectAIAuthor(authors, categorySlug).Some?
    ensures PreferredAuthorName(categorySlug).Some? ==>
      SelectAIAuthor(authors, categorySlug).value.name == PreferredAuthorName(categorySlug).value
  {
    if PreferredAuthorName(categorySlug).Some? {
      var name := PreferredAuthorName(categorySlug).value;
      assert exists i :: 0 <= i < |authors| && authors[i].name == name;
    } else {
      assert SeededAuthorNames[0] in SeededAuthorNames;
    }
  }

  // ---------------------------------------------------------------------------
  // Language-model stages and their fallbacks

  /** The outcome of one chat-completion call: it threw, or it answered with some text. */
  datatype Completion = Failed | Replied(text: string)

  /** A completion counts only when it answered with non-empty text (`content || fallback`). */
  predicate Usable(c: Completion) {
    c.Replied? && c.text != ""
  }

  const SummaryFallbackLength: nat := 200

  /** `generateSummary`: the model's summary, or the first 200 characters of the content. */
  function GenerateSummary(reply: Completion, content: string): (summary: string)
    ensures Usable(reply) ==> summary == reply.text
    ensures !Usable(reply) ==> summary <= content
    ensures !Usable(reply) ==>
      |summary| == if |content| < SummaryFallbackLength then |content| else SummaryFallbackLength
  {
    if Usable(reply) then reply.text else Take(content, SummaryFallbackLength)
  }

  /** `generateFullContent`: the model's article, or the original content verbatim. */
  function GenerateFullContent(reply: Completion, content: string): (body: string)
    ensures Usable(reply) ==> body == reply.text
    ensures !Usable(reply) ==> body == content
  {
    if Usable(reply) then reply.text else content
  }

  /**
   * The outcome of the key-point call: it threw, or it answered with `text`;
   * `json` is what `JSON.parse(text)` yields when the text parses as a list of strings.
   */
  datatype KeyPointsReply = KeyPointsFailed | KeyPointsText(text: string, json: Option<seq<string>>)

  const FallbackKeyPoints: seq<string> := ["Key AI development", "Industry impact", "Technical advancement"]

  const MaxKeyPointLines: nat := 5

  /** A line that survives `line.trim().length > 0`. */
  predicate NotBlank(line: string) {
    Trim(line) != []
  }

  /** The answer read line by line: the first five non-blank lines, untrimmed. */
  function KeyPointLines(text: string): seq<string> {
    Seqs.Prefix(Seqs.Filter(NotBlank, Split(text, '\n')), MaxKeyPointLines)
  }

  /** `extractKeyPoints`: the parsed list, else the answer's lines, else the fixed three points. */
  function ExtractKeyPoints(reply: KeyPointsReply): (points: seq<string>)
    ensures reply.KeyPointsFailed? || reply.text == "" ==> points == FallbackKeyPoints
    ensures reply.KeyPointsText? && reply.text != "" && reply.json.Some? ==> points == reply.json.value
    ensures reply.KeyPointsText? && reply.text != "" && reply.json.None? ==> points == KeyPointLines(reply.text)
  {
    if reply.KeyPointsText? && reply.text != "" then
      match reply.json
      case Some(parsed) => parsed
      case None => KeyPointLines(reply.text)
    else FallbackKeyPoints
  }

  /**
   * Read line by line, the key points are the first five non-blank lines of
   * the answer, in order, none holding a line break; all of them when there
   * are at most five.
   */
  lemma KeyPointLinesSpec(text: string)
    ensures var points := KeyPointLines(text);
      var lines := Split(text, '\n');
      var kept := Seqs.Filter(NotBlank, lines);
      && points <= kept
      && |points| == (if |kept| < MaxKeyPointLines then |kept| else MaxKeyPointLines)
      && Seqs.IsSubsequence(points, lines)
      && (forall p :: p in points ==> NotBlank(p) && '\n' !in p)
      && (|Seqs.Filter(NotBlank, lines)| <= MaxKeyPointLines ==>
            forall l :: l in lines && NotBlank(l) ==> l in points)
  {
    var lines := Split(text, '\n');
    Seqs.PrefixOfFilterSpec(NotBlank, lines, MaxKeyPointLines);
    SplitPiecesAvoidSeparator(text, '\n');
  }
}
