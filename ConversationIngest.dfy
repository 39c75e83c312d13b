/** Conversation-turn ingestion: the importance heuristic, the entity tags, the
    length gate and content shaping of one turn, and the two transcript readers
    (a parsed JSON list of turns, or plain `role: message` lines). Every turn that
    passes the gate becomes one `StoreRequest`, returned in order. */
module ConversationIngest {
  import opened Wrappers
  import opened PyText
  import opened Patterns
  import opened MemoryClient

  // ---------------------------------------------------------------------------
  // `calculate_importance`

  /** Words that mark a user's preference or decision. */
  const PreferenceWords: seq<string> := ["prefer", "want", "need", "important", "remember"]
  /** Words that mark an assistant's action. */
  const ActionWords: seq<string> := ["created", "installed", "configured", "deployed"]

  /** `any(w in text.lower() for w in words)`. */
  predicate MentionsAny(text: string, words: seq<string>) {
    exists k :: 0 <= k < |words| && Contains(Lower(text), words[k])
  }

  /** The additive importance estimate of a message, capped at 1.0. The cap is
      never reached: the largest sum is 0.5 + 0.1 + 0.2 + 0.1. */
  function CalculateImportance(text: string, role: string): (imp: real)
    ensures 0.5 <= imp <= 0.9
  {
    var importance := 0.5
      + (if role == "user" then 0.1 + (if MentionsAny(text, PreferenceWords) then 0.2 else 0.0) else 0.0)
      + (if role == "assistant" && MentionsAny(text, ActionWords) then 0.15 else 0.0)
      + (if |text| > 200 then 0.1 else 0.0);
    if importance <= 1.0 then importance else 1.0
  }

  /** A user message scores at least 0.6, and at least 0.8 exactly when it
      mentions a preference word. */
  lemma ImportanceUser(text: string)
    ensures CalculateImportance(text, "user") >= 0.6
    ensures CalculateImportance(text, "user") >= 0.8 <==> MentionsAny(text, PreferenceWords)
  {
  }

  /** An assistant message scores at least 0.65 exactly when it mentions an action
      word. */
  lemma ImportanceAssistant(text: string)
    ensures CalculateImportance(text, "assistant") >= 0.65 <==> MentionsAny(text, ActionWords)
  {
  }

  /** Any other role gets no role bonus: only the length counts. */
  lemma ImportanceOtherRole(text: string, role: string)
    requires role != "user" && role != "assistant"
    ensures CalculateImportance(text, role) == if |text| > 200 then 0.6 else 0.5
  {
  }

  /** Going past 200 characters adds 0.1 whatever the role, when the two texts
      mention the same kinds of words. */
  lemma ImportanceLongerText(short: string, long: string, role: string)
    requires |short| <= 200 < |long|
    requires MentionsAny(short, PreferenceWords) == MentionsAny(long, PreferenceWords)
    requires MentionsAny(short, ActionWords) == MentionsAny(long, ActionWords)
    ensures CalculateImportance(long, role) == CalculateImportance(short, role) + 0.1
  {
  }

  /** A short user message that states a preference scores 0.8. */
  lemma ImportancePreferExample(text: string)
    requires text == "I prefer dark mode for the dashboard"
    ensures CalculateImportance(text, "user") == 0.8
  {
    var low := Lower(text);
    assert low[2] == 'p' && low[3] == 'r' && low[4] == 'e' && low[5] == 'f' && low[6] == 'e' && low[7] == 'r';
    assert low[2..8] == "prefer";
    assert OccursAt(low, PreferenceWords[0], 2);
    assert Contains(low, PreferenceWords[0]);
  }

  // ---------------------------------------------------------------------------
  // `extract_entities`

  /** The fixed keywords looked up in the lower-cased text. */
  const Keywords: seq<string> := ["coolify", "docker", "github", "memory", "skill", "ollama", "qdrant"]

  /** The tags collected before deduplication, in the order they are collected:
      the `@` mentions, the URL hosts, the first five code-like terms, and the
      keywords the lower-cased text contains. */
  function Candidates(text: string): seq<string> {
    Mentions(text) + Hosts(text) + Prefix(CodeTerms(text), 5) + Filter(Keywords, kw => Contains(Lower(text), kw))
  }

  predicate Distinct<T(==)>(s: seq<T>) {
    forall i, j :: 0 <= i < j < |s| ==> s[i] != s[j]
  }

  function Elements<T>(s: seq<T>): set<T> {
    set x | x in s
  }

  /** `list(set(s))`, with the elements in the order of their first occurrence. */
  function Dedup<T(==)>(s: seq<T>): seq<T> {
    if s == [] then []
    else
      var rest := Dedup(s[..|s| - 1]);
      if s[|s| - 1] in rest then rest else rest + [s[|s| - 1]]
  }

  /** The deduplicated list holds every element once and nothing else. */
  lemma {:induction false} DedupShape<T>(s: seq<T>)
    ensures Elements(Dedup(s)) == Elements(s)
    ensures Distinct(Dedup(s))
    ensures |Dedup(s)| == |Elements(s)|
  {
    if s != [] {
      var init, last := s[..|s| - 1], s[|s| - 1];
      DedupShape(init);
      assert s == init + [last];
      assert Elements(s) == Elements(init) + {last};
      var rest := Dedup(init);
      if last !in rest {
        assert Elements(rest + [last]) == Elements(rest) + {last};
      }
    }
  }

  /** The tag list: at most ten distinct candidates (which ten survive depends on
      set iteration order; see the README). */
  function ExtractEntities(text: string): seq<string> {
    Prefix(Dedup(Candidates(text)), 10)
  }

  /** The tags are distinct candidates, exactly as many as there are distinct
      candidates up to a cap of ten; with ten or fewer, every candidate is kept. */
  lemma EntitiesBound(text: string)
    ensures Distinct(ExtractEntities(text))
    ensures |ExtractEntities(text)| == Min(|Elements(Candidates(text))|, 10)
    ensures forall e :: e in ExtractEntities(text) ==> e in Candidates(text)
    ensures |Elements(Candidates(text))| <= 10 ==> forall e :: e in Candidates(text) ==> e in ExtractEntities(text)
  {
    var d := Dedup(Candidates(text));
    DedupShape(Candidates(text));
    assert ExtractEntities(text) == d[..Min(10, |d|)];
    forall e | e in ExtractEntities(text)
      ensures e in Candidates(text)
    {
      assert e in Elements(d);
    }
    if |Elements(Candidates(text))| <= 10 {
      forall e | e in Candidates(text)
        ensures e in ExtractEntities(text)
      {
        assert e in Elements(Candidates(text));
      }
    }
  }

  /** What a tag can be: an `@` mention, a URL host, a code-like term, or one of the
      fixed keywords found in the lower-cased text. */
  predicate IsEntity(text: string, e: string) {
    || (e != [] && All(e, IsWordChar) && Contains(text, "@" + e))
    || (e != [] && All(e, IsHostChar) && Contains(text, e))
    || ((IsSnakeCase(e) || IsCamelCase(e)) && Contains(text, e))
    || (e in Keywords && Contains(Lower(text), e))
  }

  /** Every tag is a mention, a host, a code-like term or a keyword of the text. */
  lemma EntitiesKinds(text: string)
    ensures forall e :: e in ExtractEntities(text) ==> IsEntity(text, e)
  {
    EntitiesBound(text);
    MentionsFromShape(text, 0);
    HostsFromShape(text, 0);
    CodeTermsFromShape(text, 0);
    var codes := Prefix(CodeTerms(text), 5);
    var kws := Filter(Keywords, kw => Contains(Lower(text), kw));
    forall e | e in ExtractEntities(text)
      ensures IsEntity(text, e)
    {
      assert e in Mentions(text) || e in Hosts(text) || e in codes || e in kws;
      if e in codes {
        assert e in CodeTerms(text);
      }
    }
  }

  // ---------------------------------------------------------------------------
  // `ingest_turn`

  /** The store request for one turn, or `None` for a content shorter than 20
      characters. The content is stored as `"[role] content"`, the tags and the
      importance are computed from the content alone. */
  function IngestTurn(content: string, role: string, sessionId: Option<string>, now: string): (r: Option<StoreRequest>)
    ensures r.None? <==> |content| < 20
    ensures r.Some? ==>
      && r.value.memoryType == "episodic"
      && r.value.importance == CalculateImportance(content, role)
      && r.value.entities == Some(ExtractEntities(content))
      && r.value.sessionId == sessionId
      && r.value.metadata == Some(map["role" := role, "ingested_at" := now])
  {
    if |content| < 20 then None
    else
      Some(StoreRequest("[" + role + "] " + content, "episodic", CalculateImportance(content, role),
                        Some(ExtractEntities(content)), sessionId,
                        Some(map["role" := role, "ingested_at" := now])))
  }

  /** The stored content is the role in brackets, then a space, then the message,
      which can be read back from it. */
  lemma IngestTurnContent(content: string, role: string, sessionId: Option<string>, now: string)
    requires |content| >= 20
    ensures var c := IngestTurn(content, role, sessionId, now).value.content;
      && StartsWith(c, "[" + role + "] ")
      && c[|role| + 3..] == content
      && |c| == |content| + |role| + 3
  {
  }

  // ---------------------------------------------------------------------------
  // `ingest_transcript`: turns and the requests they give

  /** One transcript turn: a role and a message. */
  datatype Turn = Turn(role: string, text: string)

  /** The request a turn gives: none for an empty message or one the length gate
      rejects. */
  function TurnRequest(sessionId: Option<string>, now: string, t: Turn): Option<StoreRequest> {
    if t.text == "" then None else IngestTurn(t.text, t.role, sessionId, now)
  }

  function Requester(sessionId: Option<string>, now: string): Turn -> Option<StoreRequest> {
    t => TurnRequest(sessionId, now, t)
  }

  /** The requests a sequence of turns gives, in order. */
  function TurnRequests(sessionId: Option<string>, now: string, turns: seq<Turn>): seq<StoreRequest> {
    FilterMap(turns, Requester(sessionId, now))
  }

  /** Every request comes from a turn whose message passes the gate, and is an
      episodic memory of that message; never more requests than turns. */
  lemma TurnRequestsMeaning(sessionId: Option<string>, now: string, turns: seq<Turn>, r: StoreRequest)
    ensures |TurnRequests(sessionId, now, turns)| <= |turns|
    ensures r in TurnRequests(sessionId, now, turns) ==>
      exists k :: 0 <= k < |turns| && |turns[k].text| >= 20 && r == IngestTurn(turns[k].text, turns[k].role, sessionId, now).value
  {
    FilterMapMembers(turns, Requester(sessionId, now), r);
  }

  /** A turn of a parsed JSON transcript: the `"role"` and `"content"` keys, each
      possibly missing. */
  datatype JsonTurn = JsonTurn(role: Option<string>, content: Option<string>)

  /** A JSON turn read with its defaults: role `"user"` and content `""`. */
  function TurnOfJson(j: JsonTurn): Turn {
    Turn(j.role.GetOr("user"), j.content.GetOr(""))
  }

  function JsonRequester(sessionId: Option<string>, now: string): JsonTurn -> Option<StoreRequest> {
    j => TurnRequest(sessionId, now, TurnOfJson(j))
  }

  /** The requests of a JSON transcript: those of its turns read with their
      defaults. */
  function JsonRequests(sessionId: Option<string>, now: string, turns: seq<JsonTurn>): seq<StoreRequest> {
    FilterMap(turns, JsonRequester(sessionId, now))
  }

  /** The JSON reader gives the requests of the turns it reads. */
  lemma {:induction false} JsonRequestsTurns(sessionId: Option<string>, now: string, turns: seq<JsonTurn>)
    ensures JsonRequests(sessionId, now, turns) ==
      TurnRequests(sessionId, now, seq(|turns|, k requires 0 <= k < |turns| => TurnOfJson(turns[k])))
  {
    if turns != [] {
      var init, last := turns[..|turns| - 1], turns[|turns| - 1];
      var read := seq(|turns|, k requires 0 <= k < |turns| => TurnOfJson(turns[k]));
      var readInit := seq(|init|, k requires 0 <= k < |init| => TurnOfJson(init[k]));
      JsonRequestsTurns(sessionId, now, init);
      assert read == readInit + [TurnOfJson(last)];
      FilterMapSnoc(readInit, TurnOfJson(last), Requester(sessionId, now));
    }
  }

  /** The JSON branch of `ingest_transcript`: one store per turn whose content
      passes the gate, counted. */
  method IngestJsonTurns(sessionId: Option<string>, now: string, turns: seq<JsonTurn>)
    returns (count: nat, stores: seq<StoreRequest>)
    ensures stores == JsonRequests(sessionId, now, turns)
    ensures count == |stores| <= |turns|
  {
    count, stores := 0, [];
    for i := 0 to |turns|
      invariant stores == JsonRequests(sessionId, now, turns[..i])
      invariant count == |stores| <= i
    {
      var role := turns[i].role.GetOr("user");
      var text := turns[i].content.GetOr("");
      assert turns[..i + 1] == turns[..i] + [turns[i]];
      FilterMapSnoc(turns[..i], turns[i], JsonRequester(sessionId, now));
      if text != "" {
        var mid := IngestTurn(text, role, sessionId, now);
        if mid.Some? {
          count := count + 1;
          stores := stores + [mid.value];
        }
      }
    }
    assert turns[..|turns|] == turns;
  }

  // ---------------------------------------------------------------------------
  // `ingest_transcript`: the plain-text format

  /** The role and message of a stripped, non-empty line: a case-insensitive
      `user:`, `assistant:` or `m2:` prefix names the role and the rest, stripped,
      is the message; any other line is a user message as a whole. */
  function ParseLine(line: string): (t: Turn)
    ensures t.role == "user" || t.role == "assistant"
    ensures !StartsWith(Lower(line), "user:") && !StartsWith(Lower(line), "assistant:") && !StartsWith(Lower(line), "m2:")
      ==> t == Turn("user", line)
  {
    var low := Lower(line);
    if StartsWith(low, "user:") then Turn("user", Strip(line[5..]))
    else if StartsWith(low, "assistant:") then Turn("assistant", Strip(line[10..]))
    else if StartsWith(low, "m2:") then Turn("assistant", Strip(line[3..]))
    else Turn("user", line)
  }

  /** A message with no surrounding white space. */
  predicate Trimmed(text: string) {
    text != [] && !IsSpace(text[0]) && !IsSpace(text[|text| - 1])
  }

  lemma StripTrimmed(text: string)
    requires Trimmed(text)
    ensures Strip(text) == text
  {
    assert StripLeft(text) == text;
  }

  /** `" " + text` strips back to the message. */
  lemma StripSpaced(text: string)
    requires Trimmed(text)
    ensures Strip(" " + text) == text
  {
    assert (" " + text)[1..] == text;
    assert StripLeft(" " + text) == StripLeft(text) == text;
    StripTrimmed(text);
  }

  /** A line written as `"<role>: <message>"` is already stripped. */
  lemma WrittenStripped(role: string, text: string)
    requires role == "user" || role == "assistant"
    requires Trimmed(text)
    ensures Strip(role + ": " + text) == role + ": " + text
  {
    var line := role + ": " + text;
    assert line[|line| - 1] == text[|text| - 1];
    assert StripLeft(line) == line;
  }

  /** Lower-casing leaves a prefix without capitals in place. */
  lemma LowerKeepsPrefix(p: string, rest: string)
    requires forall k :: 0 <= k < |p| ==> !IsUpper(p[k])
    ensures StartsWith(Lower(p + rest), p)
  {
    var low := Lower(p + rest);
    forall k | 0 <= k < |p|
      ensures low[k] == p[k]
    {
      assert (p + rest)[k] == p[k];
    }
  }

  lemma ParseWrittenUser(text: string)
    requires Trimmed(text)
    ensures ParseLine("user: " + text) == Turn("user", text)
  {
    var line := "user: " + text;
    assert line == "user:" + (" " + text);
    LowerKeepsPrefix("user:", " " + text);
    assert line[5..] == " " + text;
    StripSpaced(text);
  }

  lemma ParseWrittenAssistant(text: string)
    requires Trimmed(text)
    ensures ParseLine("assistant: " + text) == Turn("assistant", text)
  {
    var line := "assistant: " + text;
    assert line == "assistant:" + (" " + text);
    LowerKeepsPrefix("assistant:", " " + text);
    assert Lower(line)[0] == 'a';
    assert !StartsWith(Lower(line), "user:");
    assert line[10..] == " " + text;
    StripSpaced(text);
  }

  /** An `m2:` line is an assistant turn. */
  lemma ParseM2(text: string)
    requires Trimmed(text)
    ensures ParseLine("m2: " + text) == Turn("assistant", text)
  {
    var line := "m2: " + text;
    assert line == "m2:" + (" " + text);
    LowerKeepsPrefix("m2:", " " + text);
    assert Lower(line)[0] == 'm';
    assert !StartsWith(Lower(line), "user:");
    assert !StartsWith(Lower(line), "assistant:");
    assert line[3..] == " " + text;
    StripSpaced(text);
  }

  /** The prefix is matched without regard to case. */
  lemma ParseUpperCase(text: string)
    requires Trimmed(text)
    ensures ParseLine("USER: " + text) == Turn("user", text)
  {
    var line := "USER: " + text;
    var low := Lower(line);
    assert low[0] == 'u' && low[1] == 's' && low[2] == 'e' && low[3] == 'r' && low[4] == ':';
    assert low[..5] == "user:";
    assert line[5..] == " " + text;
    StripSpaced(text);
  }

  /** A line written as `"<role>: <message>"` reads back as that turn: the line
      reader inverts the transcript format for both roles. */
  lemma ParseWritten(role: string, text: string)
    requires role == "user" || role == "assistant"
    requires Trimmed(text)
    ensures ParseLine(Strip(role + ": " + text)) == Turn(role, text)
  {
    var line := role + ": " + text;
    WrittenStripped(role, text);
    if role == "user" {
      assert line == "user: " + text;
      ParseWrittenUser(text);
    } else {
      assert line == "assistant: " + text;
      ParseWrittenAssistant(text);
    }
  }

  /** The turn of one line of the file, or `None` for a blank line. */
  function LineTurn(line: string): Option<Turn> {
    var l := Strip(line);
    if l == "" then None else Some(ParseLine(l))
  }

  /** The turns of the lines of a transcript, in order. */
  function LineTurns(lines: seq<string>): seq<Turn> {
    FilterMap(lines, LineTurn)
  }

  /** The requests of the lines of a plain-text transcript. */
  function LinesRequests(sessionId: Option<string>, now: string, lines: seq<string>): seq<StoreRequest> {
    TurnRequests(sessionId, now, LineTurns(lines))
  }

  /** The requests of a plain-text transcript. */
  function TextRequests(sessionId: Option<string>, now: string, content: string): seq<StoreRequest> {
    LinesRequests(sessionId, now, SplitOn(content, '\n'))
  }

  predicate NonBlank(line: string) {
    !IsBlank(line)
  }

  /** There is one turn per non-blank line. */
  lemma {:induction false} LineTurnsCount(lines: seq<string>)
    ensures |LineTurns(lines)| == |Filter(lines, NonBlank)|
  {
    if lines != [] {
      var init, last := lines[..|lines| - 1], lines[|lines| - 1];
      LineTurnsCount(init);
      assert lines == init + [last];
      FilterSnoc(init, last, NonBlank);
      StripShape(last);
    }
  }

  /** The role and message of one stripped, non-empty line, as the loop of
      `ingest_transcript` works them out. */
  method ReadLine(line: string) returns (role: string, text: string)
    ensures Turn(role, text) == ParseLine(line)
  {
    role, text := "user", line;
    var low := Lower(line);
    if StartsWith(low, "user:") {
      role := "user";
      text := Strip(line[5..]);
    } else if StartsWith(low, "assistant:") {
      role := "assistant";
      text := Strip(line[10..]);
    } else if StartsWith(low, "m2:") {
      role := "assistant";
      text := Strip(line[3..]);
    }
  }

  /** The request one line of the file gives: none for a blank line, else that of
      its turn. */
  function LineRequest(sessionId: Option<string>, now: string, line: string): Option<StoreRequest> {
    if LineTurn(line).Some? then TurnRequest(sessionId, now, LineTurn(line).value) else None
  }

  /** Adding a line to the file adds the request of that line, if any. */
  lemma TextRequestsSnoc(sessionId: Option<string>, now: string, lines: seq<string>, i: nat)
    requires i < |lines|
    ensures LinesRequests(sessionId, now, lines[..i + 1]) ==
      LinesRequests(sessionId, now, lines[..i]) +
      (if LineRequest(sessionId, now, lines[i]).Some? then [LineRequest(sessionId, now, lines[i]).value] else [])
  {
    assert lines[..i + 1] == lines[..i] + [lines[i]];
    FilterMapSnoc(lines[..i], lines[i], LineTurn);
    var before := LineTurns(lines[..i]);
    if LineTurn(lines[i]).Some? {
      var t := LineTurn(lines[i]).value;
      assert LineTurns(lines[..i + 1]) == before + [t];
      FilterMapSnoc(before, t, Requester(sessionId, now));
      assert Requester(sessionId, now)(t) == LineRequest(sessionId, now, lines[i]);
    } else {
      assert LineTurns(lines[..i + 1]) == before;
    }
  }

  /** The body of the line loop of `ingest_transcript`: strip the line, skip it
      when blank, read its role and message, and ingest a non-empty message. */
  method IngestLine(sessionId: Option<string>, now: string, rawLine: string) returns (mid: Option<StoreRequest>)
    ensures mid == LineRequest(sessionId, now, rawLine)
  {
    var line := Strip(rawLine);
    if line == "" {
      return None;
    }
    var role, text := ReadLine(line);
    if text != "" {
      mid := IngestTurn(text, role, sessionId, now);
    } else {
      mid := None;
    }
  }

  /** A transcript line `user: <message>` gives the request `ingest_turn` makes of
      that message as a user turn. */
  lemma LineRequestWritten(sessionId: Option<string>, now: string, text: string)
    requires Trimmed(text)
    ensures LineRequest(sessionId, now, "user: " + text) == IngestTurn(text, "user", sessionId, now)
  {
    WrittenStripped("user", text);
    ParseWrittenUser(text);
    assert "user" + ": " + text == "user: " + text;
  }

  /** The transcript line `user: I prefer dark mode for the dashboard` is stored as
      a user turn of that message with importance 0.8. */
  lemma TranscriptPreferExample(sessionId: Option<string>, now: string, text: string)
    requires text == "I prefer dark mode for the dashboard"
    ensures LineRequest(sessionId, now, "user: " + text).Some?
    ensures LineRequest(sessionId, now, "user: " + text).value.importance == 0.8
  {
    assert Trimmed(text);
    LineRequestWritten(sessionId, now, text);
    assert |text| >= 20;
    ImportancePreferExample(text);
  }

  /** The plain-text branch of `ingest_transcript`: every line is stripped, blank
      lines are skipped, the rest is read as a turn, and every turn whose message
      passes the gate is stored and counted. */
  method IngestTextLines(sessionId: Option<string>, now: string, content: string)
    returns (count: nat, stores: seq<StoreRequest>)
    ensures stores == TextRequests(sessionId, now, content)
    ensures count == |stores|
  {
    var lines := SplitOn(content, '\n');
    count, stores := 0, [];
    for i := 0 to |lines|
      invariant stores == LinesRequests(sessionId, now, lines[..i])
      invariant count == |stores|
    {
      TextRequestsSnoc(sessionId, now, lines, i);
      var mid := IngestLine(sessionId, now, lines[i]);
      if mid.Some? {
        count := count + 1;
        stores := stores + [mid.value];
      }
    }
    assert lines[..|lines|] == lines;
  }

  /** The count of a plain-text transcript is at most its number of non-blank
      lines. */
  lemma TextCountBound(sessionId: Option<string>, now: string, content: string)
    ensures |TextRequests(sessionId, now, content)| <= |Filter(SplitOn(content, '\n'), NonBlank)|
  {
    LineTurnsCount(SplitOn(content, '\n'));
  }

  /** `ingest_transcript` once the file is read: a file that parses as a JSON list
      (`parsed` holds its turns) goes through the JSON branch, any other through
      the line reader. Returns the count and the store requests in order. */
  method IngestTranscript(sessionId: Option<string>, now: string, content: string, parsed: Option<seq<JsonTurn>>)
    returns (count: nat, stores: seq<StoreRequest>)
    ensures parsed.Some? ==> stores == JsonRequests(sessionId, now, parsed.value)
    ensures parsed.None? ==> stores == TextRequests(sessionId, now, content)
    ensures count == |stores|
  {
    if parsed.Some? {
      count, stores := IngestJsonTurns(sessionId, now, parsed.value);
    } else {
      count, stores := IngestTextLines(sessionId, now, content);
    }
  }
}
