/** The client-side logic of `MemoryClient` (scripts/memory_client.py): the payload a
    stored point starts with, the filter conditions sent with each query, the
    projection of the store's answers into result records, and the markdown import.
    The HTTP calls themselves are not modelled: their answers are parameters and the
    points to upsert are results. */
module MemoryClient {
  import opened Wrappers
  import opened PyText
  import opened Sections

  /** The arguments of `MemoryClient.store`; `None` is Python's `None`. */
  datatype StoreRequest = StoreRequest(
    content: string,
    memoryType: string,
    importance: real,
    entities: Option<seq<string>>,
    sessionId: Option<string>,
    metadata: Option<map<string, string>>)

  /** The payload of a point in the collection, with the consolidation (M1),
      importance-tracking (M2) and ColBERT (M3) fields. */
  datatype Payload = Payload(
    content: string,
    memoryType: string,
    agentId: string,
    importance: real,
    initialImportance: real,
    timestamp: string,
    entities: seq<string>,
    sessionId: Option<string>,
    metadata: map<string, string>,
    consolidated: bool,
    consolidatedInto: seq<string>,
    consolidationBatchId: Option<string>,
    retrievalCount: nat,
    utilizationCount: nat,
    outcomeCount: nat,
    lastRetrieved: Option<string>,
    lastUtilized: Option<string>,
    lastBoosted: Option<string>,
    importanceHistory: seq<real>,
    boostCooldownUntil: Option<string>,
    hasColbert: bool,
    colbertTokenCount: nat)

  datatype Point = Point(id: string, vector: seq<real>, payload: Payload)

  /** A payload whose tracking fields are as a fresh point's: nothing retrieved,
      used, boosted or consolidated yet, and the importance history holding only the
      starting importance. */
  predicate FreshTracking(p: Payload) {
    && p.initialImportance == p.importance
    && p.importanceHistory == [p.importance]
    && p.retrievalCount == 0 && p.utilizationCount == 0 && p.outcomeCount == 0
    && p.lastRetrieved.None? && p.lastUtilized.None? && p.lastBoosted.None?
    && p.boostCooldownUntil.None?
    && !p.consolidated && p.consolidatedInto == [] && p.consolidationBatchId.None?
    && !p.hasColbert && p.colbertTokenCount == 0
  }

  /** The point `store` upserts. The id (`uuid4`), the embedding and the clock
      reading are parameters. */
  function NewPoint(agentId: string, req: StoreRequest, id: string, vector: seq<real>, now: string): (p: Point)
    ensures p.id == id && p.vector == vector
    ensures FreshTracking(p.payload)
    ensures p.payload.agentId == agentId && p.payload.timestamp == now
    ensures p.payload.content == req.content && p.payload.memoryType == req.memoryType
    ensures p.payload.importance == req.importance && p.payload.sessionId == req.sessionId
    ensures req.entities.None? ==> p.payload.entities == []
    ensures req.metadata.None? ==> p.payload.metadata == map[]
    ensures req.entities.Some? ==> p.payload.entities == req.entities.value
    ensures req.metadata.Some? ==> p.payload.metadata == req.metadata.value
  {
    Point(id, vector, Payload(
      req.content, req.memoryType, agentId, req.importance, req.importance, now,
      req.entities.GetOr([]), req.sessionId, req.metadata.GetOr(map[]),
      false, [], None,
      0, 0, 0, None, None, None, [req.importance], None,
      false, 0))
  }

  /** The payload fields a filter condition can name. */
  datatype Field = AgentId | MemoryType | Importance | Timestamp | Entities

  /** A `must` condition: `match.value`, `match.any` or `range.gte`. */
  datatype Condition =
    | MatchValue(field: Field, value: string)
    | MatchAny(field: Field, any: seq<string>)
    | AtLeast(field: Field, bound: real)
    | AtLeastTime(field: Field, since: string)

  /** The text values a payload holds under a field (an array field holds several). */
  function TextValues(f: Field, p: Payload): seq<string> {
    match f
    case AgentId => [p.agentId]
    case MemoryType => [p.memoryType]
    case Timestamp => [p.timestamp]
    case Entities => p.entities
    case Importance => []
  }

  /** Lexicographic order of ISO-8601 timestamps written in one format, which is
      their order in time. */
  predicate TextAtMost(a: string, b: string) {
    a == [] || (b != [] && (a[0] < b[0] || (a[0] == b[0] && TextAtMost(a[1..], b[1..]))))
  }

  /** How the store evaluates one condition on a payload. */
  predicate Holds(c: Condition, p: Payload) {
    match c
    case MatchValue(f, v) => v in TextValues(f, p)
    case MatchAny(f, vs) => exists v :: v in vs && v in TextValues(f, p)
    case AtLeast(f, b) => f == Importance && p.importance >= b
    case AtLeastTime(f, t) => f == Timestamp && TextAtMost(t, p.timestamp)
  }

  /** A payload passes a `must` list when it meets every condition. */
  predicate Satisfies(must: seq<Condition>, p: Payload) {
    forall k :: 0 <= k < |must| ==> Holds(must[k], p)
  }

  lemma SatisfiesSnoc(must: seq<Condition>, c: Condition)
    ensures forall p :: Satisfies(must + [c], p) <==> Satisfies(must, p) && Holds(c, p)
  {
    forall p ensures Satisfies(must + [c], p) <==> Satisfies(must, p) && Holds(c, p) {
      if Satisfies(must, p) && Holds(c, p) {
        forall k | 0 <= k < |must| + 1 ensures Holds((must + [c])[k], p) {
          if k < |must| {
            assert (must + [c])[k] == must[k];
          }
        }
      }
      if Satisfies(must + [c], p) {
        assert Holds((must + [c])[|must|], p);
        forall k | 0 <= k < |must| ensures Holds(must[k], p) {
          assert (must + [c])[k] == must[k];
        }
      }
    }
  }

  lemma SatisfiesOne(c: Condition)
    ensures forall p :: Satisfies([c], p) <==> Holds(c, p)
  {
    forall p ensures Satisfies([c], p) <==> Holds(c, p) {
      assert [c][0] == c;
    }
  }

  lemma MatchAnyMeaning(vs: seq<string>)
    ensures forall p :: Holds(MatchAny(MemoryType, vs), p) <==> p.memoryType in vs
  {
    forall p ensures Holds(MatchAny(MemoryType, vs), p) <==> p.memoryType in vs {
      assert TextValues(MemoryType, p) == [p.memoryType];
    }
  }

  /** Python's truth value of an optional list: given and not empty. */
  predicate Given<T>(xs: Option<seq<T>>) { xs.Some? && xs.value != [] }

  /** The filter of `search`: the agent's points, of one of `memoryTypes` when that
      list is given and not empty, with importance at least `minImportance` when that
      is positive. */
  function SearchFilter(agentId: string, memoryTypes: Option<seq<string>>, minImportance: real): (must: seq<Condition>)
    ensures must != [] && must[0] == MatchValue(AgentId, agentId)
    ensures |must| == 1 + (if Given(memoryTypes) then 1 else 0) + (if minImportance > 0.0 then 1 else 0)
    ensures forall p :: Satisfies(must, p) <==>
      && p.agentId == agentId
      && (Given(memoryTypes) ==> p.memoryType in memoryTypes.value)
      && (minImportance > 0.0 ==> p.importance >= minImportance)
  {
    var base := [MatchValue(AgentId, agentId)];
    SatisfiesOne(base[0]);
    var typed := if Given(memoryTypes) then base + [MatchAny(MemoryType, memoryTypes.value)] else base;
    SatisfiesSnoc(base, MatchAny(MemoryType, memoryTypes.GetOr([])));
    MatchAnyMeaning(memoryTypes.GetOr([]));
    SatisfiesSnoc(typed, AtLeast(Importance, minImportance));
    if minImportance > 0.0 then typed + [AtLeast(Importance, minImportance)] else typed
  }

  /** The filter of `get_recent`: the agent's points stamped at or after `cutoff`, of
      type `memoryType` when that is given and not empty. */
  function RecentFilter(agentId: string, cutoff: string, memoryType: Option<string>): (must: seq<Condition>)
    ensures |must| == if memoryType.Some? && memoryType.value != "" then 3 else 2
    ensures forall p :: Satisfies(must, p) <==>
      && p.agentId == agentId
      && TextAtMost(cutoff, p.timestamp)
      && (memoryType.Some? && memoryType.value != "" ==> p.memoryType == memoryType.value)
  {
    var base := [MatchValue(AgentId, agentId), AtLeastTime(Timestamp, cutoff)];
    SatisfiesOne(MatchValue(AgentId, agentId));
    assert base == [MatchValue(AgentId, agentId)] + [AtLeastTime(Timestamp, cutoff)];
    SatisfiesSnoc([MatchValue(AgentId, agentId)], AtLeastTime(Timestamp, cutoff));
    SatisfiesSnoc(base, MatchValue(MemoryType, memoryType.GetOr("")));
    if memoryType.Some? && memoryType.value != "" then base + [MatchValue(MemoryType, memoryType.value)] else base
  }

  /** The filter of `get_by_entities`: the agent's points tagged with every one of
      `entities`. */
  method EntitiesFilter(agentId: string, entities: seq<string>) returns (must: seq<Condition>)
    ensures |must| == 1 + |entities|
    ensures forall p :: Satisfies(must, p) <==>
      p.agentId == agentId && forall e :: e in entities ==> e in p.entities
  {
    must := [MatchValue(AgentId, agentId)];
    var i := 0;
    while i < |entities|
      invariant 0 <= i <= |entities|
      invariant |must| == 1 + i && must[0] == MatchValue(AgentId, agentId)
      invariant forall k :: 0 <= k < i ==> must[k + 1] == MatchValue(Entities, entities[k])
    {
      must := must + [MatchValue(Entities, entities[i])];
      i := i + 1;
    }
    forall p ensures Satisfies(must, p) <==> p.agentId == agentId && forall e :: e in entities ==> e in p.entities {
      if p.agentId == agentId && forall e :: e in entities ==> e in p.entities {
        forall k | 0 <= k < |must| ensures Holds(must[k], p) {
          if k > 0 {
            assert must[k] == MatchValue(Entities, entities[k - 1]);
          }
        }
      }
      if Satisfies(must, p) {
        assert Holds(must[0], p);
        forall e | e in entities ensures e in p.entities {
          var k :| 0 <= k < |entities| && entities[k] == e;
          assert Holds(must[k + 1], p);
        }
      }
    }
  }

  /** A payload as the store returns it: any key may be missing. */
  datatype RawPayload = RawPayload(
    content: Option<string>,
    memoryType: Option<string>,
    importance: Option<real>,
    entities: Option<seq<string>>,
    timestamp: Option<string>)

  /** A point in a search or scroll answer; `score` only comes with a search. */
  datatype RawPoint = RawPoint(score: Option<real>, payload: Option<RawPayload>)

  /** A memory as the client methods return it. */
  datatype Memory = Memory(content: string, memoryType: string, importance: real, entities: seq<string>, timestamp: string)

  datatype SearchHit = SearchHit(score: real, memory: Memory)

  /** The `"result"` object of a scroll answer and of a count answer. */
  datatype ScrollResult = ScrollResult(points: Option<seq<RawPoint>>)
  datatype CountResult = CountResult(count: Option<int>)

  /** The fields as they are stored, all present. */
  function Raw(p: Payload): RawPayload {
    RawPayload(Some(p.content), Some(p.memoryType), Some(p.importance), Some(p.entities), Some(p.timestamp))
  }

  /** One result record: `payload["content"]` raises `KeyError` when missing, the
      other fields fall back to `"semantic"`, 0.7, `[]` and `""`. */
  function ProjectPayload(raw: RawPayload): (r: Result<Memory, string>)
    ensures r.Err? <==> raw.content.None?
    ensures r.Err? ==> r.error == "content"
    ensures r.Ok? ==> r.value.content == raw.content.value
    ensures r.Ok? && raw.memoryType.None? ==> r.value.memoryType == "semantic"
    ensures r.Ok? && raw.importance.None? ==> r.value.importance == 0.7
    ensures r.Ok? && raw.entities.None? ==> r.value.entities == []
    ensures r.Ok? && raw.timestamp.None? ==> r.value.timestamp == ""
  {
    if raw.content.None? then Err("content")
    else Ok(Memory(raw.content.value, raw.memoryType.GetOr("semantic"), raw.importance.GetOr(0.7),
                   raw.entities.GetOr([]), raw.timestamp.GetOr("")))
  }

  /** A point's record, failing on the first missing key (`"payload"`, then
      `"content"`). */
  function ProjectPoint(pt: RawPoint): Result<Memory, string> {
    if pt.payload.None? then Err("payload") else ProjectPayload(pt.payload.value)
  }

  /** A search hit: `r["score"]` is read before the payload. */
  function ProjectHit(pt: RawPoint): Result<SearchHit, string> {
    if pt.score.None? then Err("score")
    else match ProjectPoint(pt)
      case Err(e) => Err(e)
      case Ok(m) => Ok(SearchHit(pt.score.value, m))
  }

  /** The list comprehension of `get_recent` and `get_by_entities`. */
  function ProjectPoints(pts: seq<RawPoint>): (r: Result<seq<Memory>, string>)
    ensures r.Ok? <==> forall k :: 0 <= k < |pts| ==> ProjectPoint(pts[k]).Ok?
    ensures r.Ok? ==> |r.value| == |pts| && forall k :: 0 <= k < |pts| ==> r.value[k] == ProjectPoint(pts[k]).value
    ensures r.Err? ==> exists k :: 0 <= k < |pts| && ProjectPoint(pts[k]) == Err(r.error)
  {
    if pts == [] then Ok([])
    else match ProjectPoint(pts[0])
      case Err(e) => Err(e)
      case Ok(m) =>
        var rest := ProjectPoints(pts[1..]);
        if rest.Err? then Err(rest.error) else Ok([m] + rest.value)
  }

  /** The list comprehension of `search`. */
  function ProjectHits(pts: seq<RawPoint>): (r: Result<seq<SearchHit>, string>)
    ensures r.Ok? <==> forall k :: 0 <= k < |pts| ==> ProjectHit(pts[k]).Ok?
    ensures r.Ok? ==> |r.value| == |pts| && forall k :: 0 <= k < |pts| ==> r.value[k] == ProjectHit(pts[k]).value
    ensures r.Err? ==> exists k :: 0 <= k < |pts| && ProjectHit(pts[k]) == Err(r.error)
  {
    if pts == [] then Ok([])
    else match ProjectHit(pts[0])
      case Err(e) => Err(e)
      case Ok(h) =>
        var rest := ProjectHits(pts[1..]);
        if rest.Err? then Err(rest.error) else Ok([h] + rest.value)
  }

  /** `data.get("result", [])` of a search answer. */
  function SearchResults(result: Option<seq<RawPoint>>): Result<seq<SearchHit>, string> {
    ProjectHits(result.GetOr([]))
  }

  /** `data.get("result", {}).get("points", [])` of a scroll answer. */
  function ScrollPoints(result: Option<ScrollResult>): (pts: seq<RawPoint>)
    ensures result.None? || result.value.points.None? ==> pts == []
    ensures result.Some? && result.value.points.Some? ==> pts == result.value.points.value
  {
    if result.None? then [] else result.value.points.GetOr([])
  }

  /** `count`: the `"count"` of the answer's `"result"`, 0 when either is missing. */
  function Count(result: Option<CountResult>): (n: int)
    ensures result.None? || result.value.count.None? ==> n == 0
    ensures result.Some? && result.value.count.Some? ==> n == result.value.count.value
  {
    if result.None? then 0 else result.value.count.GetOr(0)
  }

  /** The filter of `count`: only the agent condition. */
  function CountFilter(agentId: string): (must: seq<Condition>)
    ensures forall p :: Satisfies(must, p) <==> p.agentId == agentId
  {
    SatisfiesOne(MatchValue(AgentId, agentId));
    [MatchValue(AgentId, agentId)]
  }

  /** When the store answers a count request with the number of stored payloads
      its filter admits, `count` returns the number of the agent's memories; an
      answer without a result or a count gives 0. */
  lemma CountsAgentMemories(agentId: string, stored: seq<Payload>)
    ensures Count(Some(CountResult(Some(|Filter(stored, (p: Payload) => Satisfies(CountFilter(agentId), p))|))))
         == |Filter(stored, (p: Payload) => p.agentId == agentId)|
    ensures Count(None) == 0 && Count(Some(CountResult(None))) == 0
  {
    FilterSame(stored, (p: Payload) => Satisfies(CountFilter(agentId), p), (p: Payload) => p.agentId == agentId);
  }

  /** The record a stored payload reads back as. */
  function StoredMemory(p: Payload): Memory {
    Memory(p.content, p.memoryType, p.importance, p.entities, p.timestamp)
  }

  /** A scroll page listing stored points with all their payload keys. */
  function PageOf(pts: seq<Point>): seq<RawPoint> {
    seq(|pts|, k requires 0 <= k < |pts| => RawPoint(None, Some(Raw(pts[k].payload))))
  }

  /** A scroll answer of stored points reads back as their records, in page order;
      an answer without a result or without points reads as no records. */
  lemma ScrollRoundTrip(pts: seq<Point>)
    ensures ProjectPoints(ScrollPoints(Some(ScrollResult(Some(PageOf(pts))))))
         == Ok(seq(|pts|, k requires 0 <= k < |pts| => StoredMemory(pts[k].payload)))
    ensures ProjectPoints(ScrollPoints(None)) == Ok([])
    ensures ProjectPoints(ScrollPoints(Some(ScrollResult(None)))) == Ok([])
  {
    var page := PageOf(pts);
    var mems := seq(|pts|, k requires 0 <= k < |pts| => StoredMemory(pts[k].payload));
    assert forall k :: 0 <= k < |page| ==> ProjectPoint(page[k]) == Ok(mems[k]);
    var r := ProjectPoints(page);
    assert r.Ok?;
    assert r.value == mems;
  }

  /** A point written by `store` and read back by any query comes back as it was
      stored: no default is substituted. */
  lemma StoredRoundTrip(agentId: string, req: StoreRequest, id: string, vector: seq<real>, now: string, score: real)
    ensures ProjectPoint(RawPoint(None, Some(Raw(NewPoint(agentId, req, id, vector, now).payload))))
      == Ok(Memory(req.content, req.memoryType, req.importance, req.entities.GetOr([]), now))
    ensures ProjectHit(RawPoint(Some(score), Some(Raw(NewPoint(agentId, req, id, vector, now).payload))))
      == Ok(SearchHit(score, Memory(req.content, req.memoryType, req.importance, req.entities.GetOr([]), now)))
  {
  }

  /** The stored content of a section: `"header: text"`, or the text alone when the
      header is empty. */
  function SectionContent(header: string, text: string): (c: string)
    ensures header == "" ==> c == text
    ensures header != "" ==> |c| == |header| + 2 + |text| && c[..|header|] == header && c[|header|..] == ": " + text
  {
    if header == "" then text else header + ": " + text
  }

  /** The position of the first `c` in `s`, or `|s|` when there is none. */
  function IndexOf(s: string, c: char): (i: nat)
    ensures i <= |s| && (i < |s| ==> s[i] == c)
    ensures forall k :: 0 <= k < i ==> s[k] != c
  {
    if s == [] then 0 else if s[0] == c then 0 else 1 + IndexOf(s[1..], c)
  }

  /** Reads a stored content back into header and text: the part before a first
      `": "` is the header, a content without one is all text. */
  function SplitContent(c: string): (string, string) {
    var i := IndexOf(c, ':');
    if i + 1 < |c| && c[i + 1] == ' ' then (c[..i], c[i + 2..]) else ("", c)
  }

  /** The header and text of a section come back out of its stored content when
      the header has no colon (and, with no header, the text has none). */
  lemma SectionContentReadBack(header: string, text: string)
    requires ':' !in header
    requires header == "" ==> ':' !in text
    ensures SplitContent(SectionContent(header, text)) == (header, text)
  {
    var c := SectionContent(header, text);
    if header != "" {
      assert c[|header|] == ':';
      assert forall k :: 0 <= k < |header| ==> c[k] == header[k];
      assert c[..|header|] == header;
      assert c[|header| + 2..] == text;
    }
  }

  /** The entity tag of a section: the header lower-cased with spaces turned into
      dashes, none for an empty header. */
  function HeaderEntities(header: string): (es: seq<string>)
    ensures header == "" ==> es == []
    ensures header != "" ==> |es| == 1 && |es[0]| == |header| && ' ' !in es[0]
    ensures header != "" ==> forall k :: 0 <= k < |header| ==>
      es[0][k] == (if header[k] == ' ' then '-' else LowerChar(header[k]))
  {
    if header == "" then [] else [ReplaceChar(Lower(header), ' ', '-')]
  }

  /** A section `import_markdown` stores: its stripped body is longer than 50. */
  predicate Importable(s: Section) { |Strip(s.body)| > 50 }

  /** The store call `import_markdown` makes for a section. */
  function ImportRequest(filepath: string, s: Section): StoreRequest {
    StoreRequest(SectionContent(s.header, Strip(s.body)), "semantic", 0.7, Some(HeaderEntities(s.header)),
                 None, Some(map["source" := filepath, "header" := s.header]))
  }

  /** The store calls for the importable sections, one each, in order. */
  function ImportRequests(filepath: string, sections: seq<Section>): (r: seq<StoreRequest>)
    ensures |r| == |Filter(sections, Importable)| <= |sections|
    ensures forall k :: 0 <= k < |r| ==> r[k] == ImportRequest(filepath, Filter(sections, Importable)[k])
  {
    MapImport(filepath, Filter(sections, Importable))
  }

  function MapImport(filepath: string, sections: seq<Section>): (r: seq<StoreRequest>)
    ensures |r| == |sections|
    ensures forall k :: 0 <= k < |sections| ==> r[k] == ImportRequest(filepath, sections[k])
  {
    seq(|sections|, k requires 0 <= k < |sections| => ImportRequest(filepath, sections[k]))
  }

  lemma MapImportAppend(filepath: string, a: seq<Section>, b: seq<Section>)
    ensures MapImport(filepath, a + b) == MapImport(filepath, a) + MapImport(filepath, b)
  {
  }

  lemma ImportStep(filepath: string, sections: seq<Section>, i: nat)
    requires i < |sections|
    ensures ImportRequests(filepath, sections[..i + 1])
      == ImportRequests(filepath, sections[..i]) + (if Importable(sections[i]) then [ImportRequest(filepath, sections[i])] else [])
  {
    assert sections[..i + 1][..i] == sections[..i];
    MapImportAppend(filepath, Filter(sections[..i], Importable), if Importable(sections[i]) then [sections[i]] else []);
  }

  /** `import_markdown` on the file's text: split into sections keeping `# ` lines as
      body text, then one `semantic` store of importance 0.7 per section whose
      stripped body is longer than 50 characters. Returns how many it stored. */
  method ImportMarkdown(filepath: string, text: string) returns (count: nat, stores: seq<StoreRequest>)
    ensures stores == ImportRequests(filepath, SplitSections(text, false))
    ensures count == |stores|
  {
    var sections := ParseSections(text, false);
    count := 0;
    stores := [];
    var i := 0;
    while i < |sections|
      invariant 0 <= i <= |sections|
      invariant stores == ImportRequests(filepath, sections[..i])
      invariant count == |stores|
    {
      ImportStep(filepath, sections, i);
      var header := sections[i].header;
      var body := Strip(sections[i].body);
      if |body| > 50 {
        var entities := if header != "" then [ReplaceChar(Lower(header), ' ', '-')] else [];
        var content := if header != "" then header + ": " + body else body;
        var req := StoreRequest(content, "semantic", 0.7, Some(entities), None,
                                Some(map["source" := filepath, "header" := header]));
        assert req == ImportRequest(filepath, sections[i]);
        stores := stores + [req];
        count := count + 1;
      }
      i := i + 1;
    }
    assert sections[..i] == sections;
  }
}
