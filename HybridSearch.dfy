/** Keyword extraction and re-ranking (scripts/hybrid_search.py): dense candidates
    re-scored by keyword overlap with the query, and a keyword-only search over a
    page of points. The dense search and the scroll are parameters. */
module HybridSearch {
  import opened Wrappers
  import opened PyText
  import opened Patterns
  import opened StableSort
  import opened MemoryClient

  function SetOf(s: seq<string>): (r: set<string>)
  {
    set w | w in s
  }

  /** `extract_keywords`: the lower-cased words, the identifiers and error codes in
      their original case, and the hexadecimal literals. */
  function ExtractKeywords(text: string): (ks: set<string>)
  {
    SetOf(Words(Lower(text))) + SetOf(Identifiers(text)) + SetOf(HexLiterals(text))
  }

  /** Every keyword is a lower-cased word of the text, or an identifier token or a
      hexadecimal literal occurring in it; and every word of the text, lower-cased,
      is a keyword. */
  lemma KeywordsOfText(text: string)
    ensures forall i, e :: IsRun(text, i, e, IsWordChar) ==> Lower(text[i..e]) in ExtractKeywords(text)
    ensures forall w :: w in ExtractKeywords(text) ==>
      || (exists i, e :: IsRun(text, i, e, IsWordChar) && w == Lower(text[i..e]))
      || (IsIdentifierToken(w) && Contains(text, w))
      || (IsHexLiteral(w) && Contains(text, w))
  {
    LowerWords(text);
    IdentifiersFromShape(text, 0);
    HexLiteralsFromShape(text, 0);
    forall w | w in ExtractKeywords(text)
      ensures || (exists i, e :: IsRun(text, i, e, IsWordChar) && w == Lower(text[i..e]))
              || (IsIdentifierToken(w) && Contains(text, w))
              || (IsHexLiteral(w) && Contains(text, w))
    {
      if w in Identifiers(text) {
        var k :| 0 <= k < |Identifiers(text)| && Identifiers(text)[k] == w;
      } else if w in HexLiterals(text) {
        var k :| 0 <= k < |HexLiterals(text)| && HexLiterals(text)[k] == w;
      }
    }
  }

  lemma {:induction false} SubsetSize(a: set<string>, b: set<string>)
    requires a <= b
    ensures |a| <= |b|
    decreases |b|
  {
    if a != {} {
      var x :| x in a;
      SubsetSize(a - {x}, b - {x});
    }
  }

  /** `overlap / len(query_keywords)`, 0 for a query without keywords. */
  function KeywordScore(query: set<string>, content: set<string>): (r: real)
    ensures 0.0 <= r <= 1.0
    ensures query == {} ==> r == 0.0
    ensures r > 0.0 <==> query * content != {}
  {
    SubsetSize(query * content, query);
    if query != {} then (|query * content| as real) / (|query| as real) else 0.0
  }

  /** A dense hit with its scores: `**r` plus `dense_score`, `keyword_score` and
      `combined_score`. */
  datatype Scored = Scored(hit: SearchHit, denseScore: real, keywordScore: real, combinedScore: real)

  function Combined(s: Scored): real { s.combinedScore }

  /** `dense_weight * score + keyword_weight * keyword_score`. */
  function Blend(denseWeight: real, denseScore: real, keywordWeight: real, keywordScore: real): real {
    denseWeight * denseScore + keywordWeight * keywordScore
  }

  // The searches below are stated for any keyword extractor `extract`; the methods
  // with the scripts' own signatures use `ExtractKeywords`.

  /** The record the loop appends for one dense hit. */
  function ScoreHit(extract: string -> set<string>, query: set<string>, h: SearchHit,
                    denseWeight: real, keywordWeight: real): Scored {
    var ks := KeywordScore(query, extract(h.memory.content));
    Scored(h, h.score, ks, Blend(denseWeight, h.score, keywordWeight, ks))
  }

  function ScoreAll(extract: string -> set<string>, query: set<string>, hits: seq<SearchHit>,
                    denseWeight: real, keywordWeight: real): seq<Scored> {
    seq(|hits|, k requires 0 <= k < |hits| => ScoreHit(extract, query, hits[k], denseWeight, keywordWeight))
  }

  lemma ScoreAllSnoc(extract: string -> set<string>, query: set<string>, hits: seq<SearchHit>,
                     denseWeight: real, keywordWeight: real, i: nat)
    requires i < |hits|
    ensures ScoreAll(extract, query, hits[..i + 1], denseWeight, keywordWeight)
            == ScoreAll(extract, query, hits[..i], denseWeight, keywordWeight) + [ScoreHit(extract, query, hits[i], denseWeight, keywordWeight)]
  {
  }

  /** The answer of `hybrid_search` for the query's keywords and the dense hits:
      every hit scored, sorted by combined score (stable, highest first), and the
      first `limit` kept. */
  function Ranked(extract: string -> set<string>, query: set<string>, hits: seq<SearchHit>,
                  denseWeight: real, keywordWeight: real, limit: int): seq<Scored> {
    Prefix(SortDesc(Combined, ScoreAll(extract, query, hits, denseWeight, keywordWeight)), limit)
  }

  /** The loop of `hybrid_search` with the keyword extractor `extract`. */
  method HybridSearchWith(extract: string -> set<string>, query: string, limit: int,
                          denseWeight: real, keywordWeight: real,
                          denseSearch: (string, int) -> seq<SearchHit>) returns (results: seq<Scored>)
    ensures results == Ranked(extract, extract(query), denseSearch(query, limit * 2), denseWeight, keywordWeight, limit)
  {
    var candidates := denseSearch(query, limit * 2);
    var queryKeywords := extract(query);
    var scored: seq<Scored> := [];
    for i := 0 to |candidates|
      invariant scored == ScoreAll(extract, queryKeywords, candidates[..i], denseWeight, keywordWeight)
    {
      var r := candidates[i];
      var contentKeywords := extract(r.memory.content);
      var keywordScore := 0.0;
      if |queryKeywords| > 0 {
        var overlap := |queryKeywords * contentKeywords|;
        keywordScore := (overlap as real) / (|queryKeywords| as real);
      }
      var combinedScore := denseWeight * r.score + keywordWeight * keywordScore;
      assert Scored(r, r.score, keywordScore, combinedScore) == ScoreHit(extract, queryKeywords, r, denseWeight, keywordWeight);
      ScoreAllSnoc(extract, queryKeywords, candidates, denseWeight, keywordWeight, i);
      scored := scored + [Scored(r, r.score, keywordScore, combinedScore)];
    }
    assert candidates[..|candidates|] == candidates;
    scored := SortDesc(Combined, scored);
    results := Prefix(scored, limit);
  }

  /** `hybrid_search`: asks the dense search for `limit * 2` candidates, scores each
      by its keywords, sorts by combined score (stable, highest first) and keeps the
      first `limit`. */
  method HybridSearch(query: string, limit: int, denseWeight: real, keywordWeight: real,
                      denseSearch: (string, int) -> seq<SearchHit>) returns (results: seq<Scored>)
    ensures results == Ranked(ExtractKeywords, ExtractKeywords(query), denseSearch(query, limit * 2), denseWeight, keywordWeight, limit)
  {
    results := HybridSearchWith(ExtractKeywords, query, limit, denseWeight, keywordWeight, denseSearch);
  }

  /** The answer is sorted by combined score, holds `limit` records (or every
      candidate when there are fewer), and each is the scored record of one of the
      candidates. It is a prefix of the sorted permutation of the scored
      candidates, so no candidate appears more often than it was found, and no
      scored candidate left out has a higher combined score than one kept. */
  lemma RankedProperties(extract: string -> set<string>, query: set<string>, hits: seq<SearchHit>,
                         denseWeight: real, keywordWeight: real, limit: int)
    ensures var all := ScoreAll(extract, query, hits, denseWeight, keywordWeight);
      var r := Ranked(extract, query, hits, denseWeight, keywordWeight, limit);
      && SortedDesc(Combined, r)
      && |r| <= |hits|
      && (limit >= 0 ==> |r| == Min(limit, |hits|))
      && r == SortDesc(Combined, all)[..|r|]
      && multiset(r) <= multiset(all)
      && (forall x, y :: x in multiset(all) - multiset(r) && y in r ==> Combined(x) <= Combined(y))
      && forall k :: 0 <= k < |r| ==> r[k].hit in hits && r[k] == ScoreHit(extract, query, r[k].hit, denseWeight, keywordWeight)
  {
    var all := ScoreAll(extract, query, hits, denseWeight, keywordWeight);
    var sorted := SortDesc(Combined, all);
    SortDescCorrect(Combined, all);
    TopPrefix(Combined, all, limit);
    var r := Prefix(sorted, limit);
    forall k | 0 <= k < |r|
      ensures r[k].hit in hits && r[k] == ScoreHit(extract, query, r[k].hit, denseWeight, keywordWeight)
    {
      assert r[k] == sorted[k];
      assert sorted[k] in multiset(all);
      var j :| 0 <= j < |all| && all[j] == sorted[k];
    }
  }

  /** Records of equal combined score keep the order of the dense search. */
  lemma RankedStable(extract: string -> set<string>, query: set<string>, hits: seq<SearchHit>,
                     denseWeight: real, keywordWeight: real, c: real)
    ensures WithKey(Combined, SortDesc(Combined, ScoreAll(extract, query, hits, denseWeight, keywordWeight)), c)
         == WithKey(Combined, ScoreAll(extract, query, hits, denseWeight, keywordWeight), c)
  {
    SortDescCorrect(Combined, ScoreAll(extract, query, hits, denseWeight, keywordWeight));
  }

  /** In the sorted list, an item with a higher key comes before one with a lower
      key. */
  lemma HigherFirst<T>(key: T -> real, s: seq<T>, i: nat, j: nat)
    requires SortedDesc(key, s) && i < |s| && j < |s|
    requires key(s[i]) > key(s[j])
    ensures i < j
  {
  }

  /** With the default weights 0.7 and 0.3, a hit of dense score 0.6 whose content
      holds every query keyword outranks a hit of dense score 0.9 that shares none. */
  lemma KeywordsOutweighDense(extract: string -> set<string>, query: set<string>, a: SearchHit, b: SearchHit,
                              sorted: seq<Scored>, i: nat, j: nat)
    requires query != {}
    requires a.score == 0.6 && query <= extract(a.memory.content)
    requires b.score == 0.9 && query * extract(b.memory.content) == {}
    requires SortedDesc(Combined, sorted) && i < |sorted| && j < |sorted|
    requires sorted[i] == ScoreHit(extract, query, a, 0.7, 0.3) && sorted[j] == ScoreHit(extract, query, b, 0.7, 0.3)
    ensures i < j
  {
    assert query * extract(a.memory.content) == query;
    var n := |query| as real;
    assert KeywordScore(query, extract(a.memory.content)) == n / n == 1.0;
    assert KeywordScore(query, extract(b.memory.content)) == 0.0;
    assert Combined(sorted[i]) == 0.72;
    assert Combined(sorted[j]) == 0.63;
    HigherFirst(Combined, sorted, i, j);
  }

  /** A keyword-only result: `content`, `memory_type`, `importance` (missing ones
      are `None`), `keyword_score` and the set `matched_keywords`. */
  datatype KeywordHit = KeywordHit(content: string, memoryType: Option<string>, importance: Option<real>,
                                   keywordScore: real, matched: set<string>)

  function KeywordScoreOf(h: KeywordHit): real { h.keywordScore }

  /** The result a payload gives, if any: only when the query has keywords and
      shares at least one with the content (missing content reads as `""`). */
  function KeywordMatch(extract: string -> set<string>, query: set<string>, p: RawPayload): Option<KeywordHit> {
    var content := p.content.GetOr("");
    var ck := extract(content);
    if |query| > 0 && |query * ck| > 0 then
      Some(KeywordHit(content, p.memoryType, p.importance, KeywordScore(query, ck), query * ck))
    else None
  }

  /** The result a point gives: a point without a payload gives none (the search
      raises before it is reached; see `KeywordOnlySearch`). */
  function PointMatch(extract: string -> set<string>, query: set<string>, pt: RawPoint): Option<KeywordHit> {
    if pt.payload.None? then None else KeywordMatch(extract, query, pt.payload.value)
  }

  function Matcher(extract: string -> set<string>, query: set<string>): RawPoint -> Option<KeywordHit> {
    pt => PointMatch(extract, query, pt)
  }

  /** The results of a page of points, in page order. */
  function KeywordMatches(extract: string -> set<string>, query: set<string>, pts: seq<RawPoint>): seq<KeywordHit> {
    FilterMap(pts, Matcher(extract, query))
  }

  /** The answer of `keyword_only_search` for the query's keywords and a page whose
      points all have payloads. */
  function KeywordRanked(extract: string -> set<string>, query: set<string>, pts: seq<RawPoint>, limit: int): seq<KeywordHit> {
    Prefix(SortDesc(KeywordScoreOf, KeywordMatches(extract, query, pts)), limit)
  }

  /** A result is the match of one of the page's payloads: it shares at least one
      keyword with the query, `matched_keywords` is the shared set, and its score is
      the shared fraction of the query's keywords, in (0, 1]. Every payload sharing
      a keyword gives one. */
  lemma KeywordMatchesMeaning(extract: string -> set<string>, query: set<string>, pts: seq<RawPoint>, h: KeywordHit)
    ensures h in KeywordMatches(extract, query, pts) <==>
      exists k :: 0 <= k < |pts| && pts[k].payload.Some? && KeywordMatch(extract, query, pts[k].payload.value) == Some(h)
    ensures h in KeywordMatches(extract, query, pts) ==>
      && h.matched == query * extract(h.content) && h.matched != {}
      && h.keywordScore == KeywordScore(query, extract(h.content))
      && 0.0 < h.keywordScore <= 1.0
  {
    FilterMapMembers(pts, Matcher(extract, query), h);
  }

  /** The answer is the top `limit` of the page's results: sorted by keyword
      score, a prefix of the sorted results holding `limit` of them (or all when
      there are fewer), none more often than it occurs among them, and no result
      left out scoring higher than one kept. It has at most one result per point,
      and a query without keywords matches nothing. */
  lemma KeywordRankedProperties(extract: string -> set<string>, query: set<string>, pts: seq<RawPoint>, limit: int)
    ensures var matches := KeywordMatches(extract, query, pts);
      var r := KeywordRanked(extract, query, pts, limit);
      && SortedDesc(KeywordScoreOf, r)
      && r == SortDesc(KeywordScoreOf, matches)[..|r|]
      && multiset(r) <= multiset(matches)
      && (limit >= 0 ==> |r| == Min(limit, |matches|))
      && (forall x, y :: x in multiset(matches) - multiset(r) && y in r ==> KeywordScoreOf(x) <= KeywordScoreOf(y))
      && |r| <= |pts|
    ensures query == {} ==> KeywordRanked(extract, query, pts, limit) == []
  {
    var matches := KeywordMatches(extract, query, pts);
    SortDescCorrect(KeywordScoreOf, matches);
    TopPrefix(KeywordScoreOf, matches, limit);
    assert |matches| <= |pts|;
    if query == {} {
      NoKeywordsNoMatches(extract, pts);
    }
  }

  /** A query without keywords matches nothing. */
  lemma {:induction false} NoKeywordsNoMatches(extract: string -> set<string>, pts: seq<RawPoint>)
    ensures KeywordMatches(extract, {}, pts) == []
  {
    if pts != [] {
      NoKeywordsNoMatches(extract, pts[..|pts| - 1]);
      assert PointMatch(extract, {}, pts[|pts| - 1]).None?;
    }
  }

  lemma KeywordMatchesSnoc(extract: string -> set<string>, query: set<string>, pts: seq<RawPoint>, i: nat)
    requires i < |pts|
    ensures KeywordMatches(extract, query, pts[..i + 1]) ==
      KeywordMatches(extract, query, pts[..i]) +
      (if PointMatch(extract, query, pts[i]).Some? then [PointMatch(extract, query, pts[i]).value] else [])
  {
    assert pts[..i + 1] == pts[..i] + [pts[i]];
    FilterMapSnoc(pts[..i], pts[i], Matcher(extract, query));
  }

  /** The loop of `keyword_only_search` with the keyword extractor `extract`. */
  method KeywordOnlySearchWith(extract: string -> set<string>, query: string, limit: int, page: Option<ScrollResult>)
    returns (r: Result<seq<KeywordHit>, string>)
    ensures r.Err? <==> exists k :: 0 <= k < |ScrollPoints(page)| && ScrollPoints(page)[k].payload.None?
    ensures r.Ok? ==> r.value == KeywordRanked(extract, extract(query), ScrollPoints(page), limit)
  {
    var queryKeywords := extract(query);
    var points := ScrollPoints(page);
    var results: seq<KeywordHit> := [];
    for i := 0 to |points|
      invariant forall k :: 0 <= k < i ==> points[k].payload.Some?
      invariant results == KeywordMatches(extract, queryKeywords, points[..i])
    {
      if points[i].payload.None? {
        return Err("payload");
      }
      var payload := points[i].payload.value;
      var content := payload.content.GetOr("");
      var contentKeywords := extract(content);
      KeywordMatchesSnoc(extract, queryKeywords, points, i);
      ghost var m := PointMatch(extract, queryKeywords, points[i]);
      assert m == KeywordMatch(extract, queryKeywords, payload);
      if |queryKeywords| > 0 {
        var overlap := |queryKeywords * contentKeywords|;
        if overlap > 0 {
          var hit := KeywordHit(content, payload.memoryType, payload.importance,
                                (overlap as real) / (|queryKeywords| as real),
                                queryKeywords * contentKeywords);
          assert m == Some(hit);
          results := results + [hit];
        } else {
          assert m == None;
        }
      } else {
        assert m == None;
      }
    }
    assert points[..|points|] == points;
    r := Ok(Prefix(SortDesc(KeywordScoreOf, results), limit));
  }

  /** `keyword_only_search` on a scroll answer: a point without `"payload"` raises
      `KeyError`; otherwise the matching points, sorted by keyword score (stable,
      highest first), the first `limit` of them. */
  method KeywordOnlySearch(query: string, limit: int, page: Option<ScrollResult>) returns (r: Result<seq<KeywordHit>, string>)
    ensures r.Err? <==> exists k :: 0 <= k < |ScrollPoints(page)| && ScrollPoints(page)[k].payload.None?
    ensures r.Ok? ==> r.value == KeywordRanked(ExtractKeywords, ExtractKeywords(query), ScrollPoints(page), limit)
  {
    r := KeywordOnlySearchWith(ExtractKeywords, query, limit, page);
  }
}
