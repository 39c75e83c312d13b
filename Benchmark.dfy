/** The markdown keyword baseline of the benchmark: split a markdown document into
    `## ` sections (title lines kept as text), score each section by the share of
    the query's words it contains, and return the best `limit` sections. */
module Benchmark {
  import opened Wrappers
  import opened PyText
  import opened Patterns
  import opened Sections
  import opened StableSort
  import opened HybridSearch

  /** One result: the score, the section's stripped text cut to 200 characters, its
      header, and the constant method tag. */
  datatype BenchHit = BenchHit(score: real, content: string, header: string, searchMethod: string)

  function ScoreOf(h: BenchHit): real { h.score }

  /** `set(query.lower().split())`. */
  function QueryWords(query: string): set<string> {
    SetOf(SplitWhitespace(Lower(query)))
  }

  /** `set(re.findall(r'\w+', text.lower()))`. */
  function SectionWords(text: string): set<string> {
    SetOf(Words(Lower(text)))
  }

  /** The text a section is matched against: its header, a space, and its body. */
  function SectionText(s: Section): string {
    s.header + " " + s.body
  }

  /** The result a section gives under the word extractor `words`: one when it
      shares a word with the query, scored by the shared fraction of the query. */
  function SectionMatch(words: string -> set<string>, query: set<string>, s: Section): Option<BenchHit> {
    var ws := words(SectionText(s));
    if |query * ws| > 0 then
      Some(BenchHit(KeywordScore(query, ws), Prefix(Strip(s.body), 200), s.header, "markdown-keyword"))
    else None
  }

  function SectionMatcher(words: string -> set<string>, query: set<string>): Section -> Option<BenchHit> {
    s => SectionMatch(words, query, s)
  }

  /** The results of the sections, in document order, before sorting. */
  function Matches(words: string -> set<string>, query: set<string>, sections: seq<Section>): seq<BenchHit> {
    FilterMap(sections, SectionMatcher(words, query))
  }

  /** The answer: the results sorted by score (stable, highest first), then the
      first `limit` of them. */
  function MarkdownRanked(words: string -> set<string>, query: set<string>, sections: seq<Section>, limit: int): seq<BenchHit> {
    Prefix(SortDesc(ScoreOf, Matches(words, query, sections)), limit)
  }

  /** A result comes from a section sharing at least one word with the query; its
      score is the shared fraction of the query's words, in (0, 1]; its content
      is the stripped section text cut to 200 characters. Every such section gives
      one. */
  lemma MatchesMeaning(words: string -> set<string>, query: set<string>, sections: seq<Section>, h: BenchHit)
    ensures h in Matches(words, query, sections) <==>
      exists k :: 0 <= k < |sections| && SectionMatch(words, query, sections[k]) == Some(h)
    ensures h in Matches(words, query, sections) ==>
      exists k :: 0 <= k < |sections|
        && query * words(SectionText(sections[k])) != {}
        && h.score == KeywordScore(query, words(SectionText(sections[k])))
        && h.content == Prefix(Strip(sections[k].body), 200)
        && h.header == sections[k].header
    ensures h in Matches(words, query, sections) ==> 0.0 < h.score <= 1.0 && |h.content| <= 200
  {
    FilterMapMembers(sections, SectionMatcher(words, query), h);
  }

  /** A query without words matches nothing (and nothing is divided by zero). */
  lemma {:induction false} NoQueryNoMatches(words: string -> set<string>, sections: seq<Section>)
    ensures Matches(words, {}, sections) == []
  {
    if sections != [] {
      NoQueryNoMatches(words, sections[..|sections| - 1]);
      assert SectionMatch(words, {}, sections[|sections| - 1]).None?;
    }
  }

  /** The answer is the top `limit` of the results: sorted by score with results
      of equal score in document order, a prefix of the sorted results holding
      `limit` of them (or all when there are fewer), none more often than it occurs
      among them, and no result left out scoring higher than one kept. It has at
      most one result per section and is empty for a query without words. */
  lemma MarkdownRankedProperties(words: string -> set<string>, query: set<string>, sections: seq<Section>, limit: int)
    ensures var matches := Matches(words, query, sections);
      var r := MarkdownRanked(words, query, sections, limit);
      && SortedDesc(ScoreOf, r)
      && (forall k :: WithKey(ScoreOf, SortDesc(ScoreOf, matches), k) == WithKey(ScoreOf, matches, k))
      && r == SortDesc(ScoreOf, matches)[..|r|]
      && multiset(r) <= multiset(matches)
      && (limit >= 0 ==> |r| == Min(limit, |matches|))
      && (forall x, y :: x in multiset(matches) - multiset(r) && y in r ==> ScoreOf(x) <= ScoreOf(y))
      && |r| <= |sections|
    ensures query == {} ==> MarkdownRanked(words, query, sections, limit) == []
  {
    SortDescCorrect(ScoreOf, Matches(words, query, sections));
    TopPrefix(ScoreOf, Matches(words, query, sections), limit);
    if query == {} {
      NoQueryNoMatches(words, sections);
    }
  }

  /** A blank query has no words. */
  lemma {:induction false} NoRunsInBlank(s: string, i: nat)
    requires i <= |s|
    requires forall k :: i <= k < |s| ==> IsSpace(s[k])
    ensures RunsFrom(s, i, IsNonSpace) == []
    decreases |s| - i
  {
    if i < |s| {
      NoRunsInBlank(s, i + 1);
    }
  }

  lemma BlankQuery(query: string)
    requires IsBlank(query)
    ensures QueryWords(query) == {}
  {
    NoRunsInBlank(Lower(query), 0);
  }

  /** The words of a query are its lower-cased white-space separated pieces, and
      the words of a section are the lower-cased `\w` words of its text. */
  lemma WordsMeaning(query: string, text: string, w: string)
    ensures w in QueryWords(query) <==> exists i, e :: IsRun(Lower(query), i, e, IsNonSpace) && w == Lower(query)[i..e]
    ensures w in SectionWords(text) <==> exists i, e :: IsRun(text, i, e, IsWordChar) && w == Lower(text[i..e])
  {
    RunsExact(Lower(query), IsNonSpace);
    LowerWords(text);
  }

  /** Adding a section adds its result, if any. */
  lemma MatchesSnoc(words: string -> set<string>, query: set<string>, sections: seq<Section>, i: nat)
    requires i < |sections|
    ensures Matches(words, query, sections[..i + 1]) ==
      Matches(words, query, sections[..i]) +
      (if SectionMatch(words, query, sections[i]).Some? then [SectionMatch(words, query, sections[i]).value] else [])
  {
    assert sections[..i + 1] == sections[..i] + [sections[i]];
    FilterMapSnoc(sections[..i], sections[i], SectionMatcher(words, query));
  }

  /** The scoring loop and the final sort of `markdown_search`, for the word
      extractor `words`. */
  method MarkdownSearchWith(words: string -> set<string>, queryWords: set<string>, sections: seq<Section>, limit: int)
    returns (r: seq<BenchHit>)
    ensures r == MarkdownRanked(words, queryWords, sections, limit)
  {
    var scored: seq<BenchHit> := [];
    for i := 0 to |sections|
      invariant scored == Matches(words, queryWords, sections[..i])
    {
      var section := sections[i];
      var textWords := words(section.header + " " + section.body);
      var overlap := |queryWords * textWords|;
      MatchesSnoc(words, queryWords, sections, i);
      if overlap > 0 {
        var hit := BenchHit((overlap as real) / (|queryWords| as real), Prefix(Strip(section.body), 200),
                            section.header, "markdown-keyword");
        assert SectionMatch(words, queryWords, section) == Some(hit);
        scored := scored + [hit];
      }
    }
    assert sections[..|sections|] == sections;
    r := Prefix(SortDesc(ScoreOf, scored), limit);
  }

  /** `markdown_search` once the file is read: split the text into sections
      (title lines kept), score, sort and cut. */
  method MarkdownSearch(text: string, query: string, limit: int) returns (r: seq<BenchHit>)
    ensures r == MarkdownRanked(SectionWords, QueryWords(query), SplitSections(text, false), limit)
  {
    var sections := ParseSections(text, false);
    r := MarkdownSearchWith(SectionWords, QueryWords(query), sections, limit);
  }
}
