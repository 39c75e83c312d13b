# openclaw-m2-memory-skill: a verified model of the memory engine's core

This project models, in Dafny, the text processing and bookkeeping of the agent
memory skill. That is everything between its HTTP calls to the embedding server and
the Qdrant vector store:

- **Hybrid retrieval** (`scripts/hybrid_search.py`). `extract_keywords` takes the
  union of three token sets: lower-cased `\w` words, original-case identifiers and
  hex literals. `hybrid_search` re-scores the dense candidates as
  `dense_weight * score + keyword_weight * overlap / |query keywords|`, sorts
  stably from highest to lowest and keeps the first `limit`. `keyword_only_search`
  keeps the points of a scroll page that share a keyword with the query, ranked by
  their overlap ratio.
- **Markdown sync and export** (`scripts/memory_sync.py`).
  - `sync_from_markdown` splits a document into `## ` sections and drops bodies
    shorter than 30 characters. It skips any body whose 12-character MD5 prefix is
    already in the `sync_state` ledger, and stores the rest as semantic memories.
  - `export_to_markdown` deduplicates the semantic and the recent episodic memories
    by the same hash, first occurrence winning. It renders them as a two-group
    document and returns the number of hashes seen.
- **Conversation ingestion** (`scripts/conversation_ingest.py`).
  - `calculate_importance` is an additive heuristic over `real`.
  - `extract_entities` keeps at most ten distinct tags: `@` mentions, URL hosts,
    code-like terms and fixed keywords.
  - `ingest_turn` applies the 20-character gate and the `"[role] content"` shaping.
  - `ingest_transcript` reads either a parsed JSON list of turns or
    `role: message` lines.
- **Client-side construction** (`scripts/memory_client.py`).
  - The payload of a newly stored point, with its importance-tracking,
    consolidation and ColBERT fields.
  - The `must` filter lists of `search`, `get_recent` and `get_by_entities`,
    given a meaning by a small evaluator of conditions on payloads.
  - The projection of answers into records, with their defaults.
  - `count`, and the older `import_markdown` section importer, whose threshold is
    `> 50` and which keeps title lines.
- **The markdown keyword baseline** (`scripts/benchmark.py`). `markdown_search`
  splits sections, scores word overlap, sorts and truncates.

Modules:

| module | what it holds |
|---|---|
| `Wrappers` | `Option` and `Result` |
| `PyText` | The Python `str` and list operations the scripts use: `isspace`, `strip`, `lower`, `startswith`, `in`, `split`, `join`, `[:n]`, list comprehensions |
| `Patterns` | The `re.findall` scanners for each regular expression in the scripts, with their shape lemmas |
| `StableSort` | `sort(key=..., reverse=True)` as a stable insertion sort, proved sorted, a permutation and order-preserving within each key |
| `Sections` | The `## ` section splitter. It appears three times in the scripts: the sync drops `# ` title lines, the importer and the benchmark keep them |
| `MemoryClient`, `HybridSearch`, `MemorySync`, `ConversationIngest`, `Benchmark` | One module per script |

Loops that append to lists or update counters are methods with `while`/`for`
loops. Each is proved equal to a specification function, and the properties are
lemmas about that function. The pure computations are functions: the payload, the
filters, the projections, the importance and the keyword sets.

The design description of the system and the code differ in three places. The model
follows the code in each.

- **Tie-break.** The description breaks ties of the combined score by the dense
  score. `scripts/hybrid_search.py:85` sorts on the combined score alone, so
  equal-score results keep their dense-search order.
- **Corpus scan.** The description has the keyword-only search scan the whole
  corpus. The code reads one scroll page (`limit: 100`), which the model takes as
  its input.
- **Importance range.** The description gives `calculate_importance` the range
  [0.5, 1.0]. The largest sum the code can reach is 0.9, so the cap at 1.0 never
  fires, and the model proves the tighter range [0.5, 0.9].

## Model

| member | source | states |
|---|---|---|
| PyText.LowerIdempotent | scripts/benchmark.py:40 | `lower()` leaves no upper-case ASCII letter, and lowering a lowered string changes nothing |
| PyText.JoinSplit | scripts/memory_sync.py:87 | Joining the pieces of `split(sep)` with `sep` gives the text back |
| PyText.StripShape | scripts/memory_sync.py:129 | `strip()` is empty exactly for a blank string; otherwise the result neither starts nor ends with whitespace and is no longer than the input |
| PyText.StripStripped | scripts/memory_sync.py:118 | `strip()` is idempotent, so a stripped header stays as it is |
| PyText.SplitOn | scripts/memory_sync.py:114 | `split("\n")` gives at least one piece and no piece contains the separator |
| PyText.SplitJoin | scripts/memory_sync.py:87 | Splitting a `join` of separator-free pieces gives the pieces back |
| PyText.Filter | scripts/conversation_ingest.py:38-40 | A list comprehension keeps exactly the elements satisfying the condition, never more than the input |
| PyText.FilterMapMembers | scripts/hybrid_search.py:116-130 | The results of a filter-and-build loop are exactly the built values of the elements that pass |
| Patterns.LowerWords | scripts/hybrid_search.py:28 | The `\w+` words of `text.lower()` are exactly the lower-cased maximal word runs of `text` |
| Patterns.RunsExact | scripts/benchmark.py:40 | `split()` (and `findall(r'\w+')`) yields exactly the maximal runs of the character class, and nothing else |
| Patterns.IdentifierAtShape | scripts/hybrid_search.py:31 | A match of `\b[A-Z0-9][A-Za-z0-9_-]+\b` is an identifier token with a word boundary on each side |
| Patterns.IdentifiersFromShape | scripts/hybrid_search.py:31 | Every identifier match is an identifier token occurring in the text |
| Patterns.HexLiteralsFromShape | scripts/hybrid_search.py:34 | Every `0x[0-9A-Fa-f]+` match is a hex literal occurring in the text |
| Patterns.MentionsFromShape | scripts/conversation_ingest.py:25 | Every `@(\w+)` capture is a non-empty word that follows an `@` in the text |
| Patterns.HostsFromShape | scripts/conversation_ingest.py:29 | Every `https?://([^\s/]+)` capture is a non-empty run of host characters occurring in the text |
| Patterns.SnakeCaseEndShape | scripts/conversation_ingest.py:33 | A match of the first alternative is a snake_case word ending on a word boundary |
| Patterns.CamelCaseEndShape | scripts/conversation_ingest.py:33 | A match of the second alternative is a CamelCase word ending on a word boundary |
| Patterns.CodeTermsFromShape | scripts/conversation_ingest.py:33 | Every code-term match is a snake_case or CamelCase word occurring in the text |
| StableSort.SortDescCorrect | scripts/hybrid_search.py:85 | `sort(reverse=True)` gives a permutation of the input, non-increasing by key, in which the elements of each key keep their input order |
| StableSort.SortedStableUnique | scripts/hybrid_search.py:85 | A non-increasing, stable order of the same elements is unique, so the sort's result is fully determined |
| StableSort.TopPrefix | scripts/hybrid_search.py:85-87 | `sort(reverse=True)` then `[:limit]` keeps a prefix of the sorted permutation, `min(limit, len)` long for a non-negative limit, itself sorted, and nothing left out has a higher key than anything kept |
| StableSort.HigherFirst | scripts/hybrid_search.py:85 | In a sorted result, an item with a higher key comes before one with a lower key |
| Sections.ParseSections | scripts/memory_sync.py:110-123 | The splitting loop computes the section list of the document, and every emitted section has a non-blank body |
| Sections.SplitNonBlank | scripts/memory_sync.py:116-123 | Every section has a non-blank body and a stripped header |
| Sections.TitleLineIgnored | scripts/memory_sync.py:119-120 | In the sync parser, a `# ` title line anywhere changes nothing |
| Sections.TitleLineKept | scripts/memory_client.py:256-257 | In the import/benchmark parser, a title line is body text; the sync parser drops it |
| Sections.HeaderWithoutTextLost | scripts/memory_sync.py:115-118 | A header followed only by blank lines before the next header is lost: the split is as if it were not there |
| Sections.BlankLinesKeepBlank | scripts/memory_sync.py:120 | Blank lines after a header emit nothing and keep the current body blank |
| Sections.SectionCount | scripts/memory_sync.py:114-123 | A document has at most one section more than it has `## ` lines |
| MemoryClient.NewPoint | scripts/memory_client.py:65-98 | The stored point carries the id, vector, agent, clock, content, type, importance and session given. `initial_importance == importance` and `importance_history == [importance]`. Every counter is 0, and nothing is consolidated, boosted or ColBERT-indexed. Given entities and metadata are stored unchanged; missing entities give `[]`, missing metadata `{}` |
| MemoryClient.SearchFilter | scripts/memory_client.py:120-134 | The agent condition comes first. A type condition is added only when `memory_types` is non-empty, an importance condition only when `min_importance > 0`. The filter admits exactly the agent's points of those types with that importance |
| MemoryClient.MatchAnyMeaning | scripts/memory_client.py:124-128 | A `match.any` on the type admits exactly the points whose type is in the list |
| MemoryClient.RecentFilter | scripts/memory_client.py:167-178 | Two or three conditions. They admit exactly the agent's points stamped at or after the cutoff, of the given type when one is given |
| MemoryClient.EntitiesFilter | scripts/memory_client.py:208-216 | `1 + len(entities)` conditions, admitting exactly the agent's points tagged with every entity |
| MemoryClient.ProjectPayload | scripts/memory_client.py:150-155 | A missing `content` raises. Otherwise the content is kept and missing fields become `"semantic"`, 0.7, `[]` and `""` |
| MemoryClient.ProjectHits | scripts/memory_client.py:148-158 | The search projection keeps length and order, and fails exactly when some hit lacks a key |
| MemoryClient.ProjectPoints | scripts/memory_client.py:191-200 | The scroll projection keeps length and order, and fails exactly when some point lacks a key |
| MemoryClient.ScrollRoundTrip | scripts/memory_client.py:191-200 | A scroll answer listing stored points reads back as their records, in page order; an answer without `result` or without `points` reads as no records |
| MemoryClient.CountsAgentMemories | scripts/memory_client.py:277-290 | When the store answers with the number of points the count filter admits, `count` returns the number of the agent's memories; an answer without `result` or `count` gives 0 |
| MemoryClient.StoredRoundTrip | scripts/memory_client.py:69-98 | A point written by `store` reads back through either projection exactly as it was stored; no default is substituted |
| MemoryClient.SectionContentReadBack | scripts/memory_client.py:267 | The stored `"header: text"` content splits back at its first `": "` into the header and the text, when the header has no colon (and a header-less text has none) |
| MemoryClient.HeaderEntities | scripts/memory_client.py:265 | None for an empty header; otherwise one tag as long as the header, each character the header's lower-cased with a space turned into `-` |
| MemoryClient.ImportRequests | scripts/memory_client.py:263-273 | One store request per section whose stripped body is longer than 50, in order, and no more requests than sections |
| MemoryClient.ImportMarkdown | scripts/memory_client.py:240-275 | The importer keeps title lines, makes the store calls of the importable sections in order, and returns their number |
| HybridSearch.KeywordsOfText | scripts/hybrid_search.py:25-36 | Every lower-cased word of the text is a keyword. Every keyword is such a word, an identifier token of the text or a hex literal of the text |
| HybridSearch.KeywordScore | scripts/hybrid_search.py:64-69 | The overlap ratio lies in [0, 1]. It is 0 for a query without keywords, and positive exactly when query and content share a keyword |
| HybridSearch.HybridSearchWith | scripts/hybrid_search.py:54-87 | The scoring loop, sort and slice compute the ranked answer over the `limit * 2` dense candidates |
| HybridSearch.HybridSearch | scripts/hybrid_search.py:39-87 | `hybrid_search` with the script's keyword extractor equals the ranked answer |
| HybridSearch.RankedProperties | scripts/hybrid_search.py:72-87 | The answer is the first `min(limit, candidates)` of the stably sorted scored candidates (never padded): a prefix of their permutation, sorted by combined score, no candidate more often than found, and no candidate left out scoring higher than one kept. Each record is a candidate with its dense, keyword and combined scores attached |
| HybridSearch.RankedStable | scripts/hybrid_search.py:85 | Records of equal combined score keep the dense search's order; there is no dense-score tie-break |
| HybridSearch.KeywordsOutweighDense | scripts/hybrid_search.py:72-85 | With weights 0.7/0.3, a hit of dense score 0.6 holding every query keyword ranks above a hit of dense score 0.9 sharing none |
| HybridSearch.KeywordMatchesMeaning | scripts/hybrid_search.py:116-130 | A result comes from exactly one kind of point: one whose payload shares a keyword with the query. `matched_keywords` is the shared set, and the score is the shared fraction, in (0, 1] |
| HybridSearch.KeywordRankedProperties | scripts/hybrid_search.py:121-133 | The answer is the first `min(limit, matches)` of the stably sorted matches: a prefix of their permutation, sorted by keyword score, no match left out scoring higher than one kept, at most one per point, and empty for a query without keywords |
| HybridSearch.NoKeywordsNoMatches | scripts/hybrid_search.py:121 | A query without keywords matches no point |
| HybridSearch.KeywordOnlySearchWith | scripts/hybrid_search.py:116-133 | The scan loop fails exactly when a point lacks a payload; otherwise it returns the ranked matches |
| HybridSearch.KeywordOnlySearch | scripts/hybrid_search.py:90-133 | `keyword_only_search` over a scroll answer, with the script's keyword extractor |
| MemorySync.ContentHash | scripts/memory_sync.py:19-21 | `content_hash` is a function of the text alone and is 12 characters long |
| MemorySync.SyncFromMarkdown | scripts/memory_sync.py:110-152 | The sync loop over the sections (title lines dropped) computes the counters, the new ledger and the store calls of the ledger fold |
| MemorySync.SyncStepCases | scripts/memory_sync.py:128-152 | A short body changes nothing. A known hash only bumps `skipped`. A new hash adds one key and one store call and bumps `new` |
| MemorySync.SyncLedger | scripts/memory_sync.py:148-152 | The ledger only grows: its keys become the old keys plus the hashes of the eligible sections, and old entries are kept |
| MemorySync.SyncAdded | scripts/memory_sync.py:140-152 | Each counted new section adds one ledger key and one store call |
| MemorySync.SyncStats | scripts/memory_sync.py:125-137 | `new + skipped` counts the sections of 30 or more characters, and `updated` stays 0 |
| MemorySync.SyncCounted | scripts/memory_sync.py:129-131 | `new + skipped` is at most the number of sections |
| MemorySync.SyncKnown | scripts/memory_sync.py:133-137 | When the ledger knows every hash, every eligible section is skipped and nothing is stored |
| MemorySync.SyncIdempotent | scripts/memory_sync.py:133-152 | Re-running on the same sections with the saved ledger stores nothing, counts nothing new and leaves the ledger unchanged |
| MemorySync.SyncRepeatSkipped | scripts/memory_sync.py:133-137 | Within one run, a section repeating an earlier eligible body only bumps `skipped` |
| MemorySync.ExportSearchFilter | scripts/memory_sync.py:32-37 | The export's search admits exactly the agent's memories of the given types, only `semantic` ones when none are given, with importance at least `min_importance` when that is positive |
| MemorySync.KeepUnseen | scripts/memory_sync.py:50-61 | The dedup loop computes the seen set and the kept list of the dedup fold |
| MemorySync.DedupSeen | scripts/memory_sync.py:48-61 | `seen_hashes` grows by exactly the kept memories' hashes, so by their number |
| MemorySync.DedupKeptFrom | scripts/memory_sync.py:56-61 | Kept memories come from the input, and only episodic ones are kept in the recent pass |
| MemorySync.DedupKeptFresh | scripts/memory_sync.py:52-59 | No kept hash was seen before, and no two kept memories share a hash |
| MemorySync.DedupCovers | scripts/memory_sync.py:50-61 | Every considered memory's hash ends up seen |
| MemorySync.DedupFirst | scripts/memory_sync.py:50-61 | First occurrence wins: each kept memory is the first considered one with its hash |
| MemorySync.EntryText | scripts/memory_sync.py:78-80 | An entry's text has no newline and at most 200 characters |
| MemorySync.RenderEntry | scripts/memory_sync.py:80 | Exactly the entry lines render with the `- **[` prefix |
| MemorySync.RenderFlat | scripts/memory_sync.py:80-82 | A line whose parts hold no newline renders without one; a tags line joins at most five tags with `", "` |
| MemorySync.ExportFileLines | scripts/memory_sync.py:64-87 | When the clock reading, the number renderings and the tags hold no newline, splitting the written file on `\n` gives back exactly the rendered lines, one per document line |
| MemorySync.EntriesKinds | scripts/memory_sync.py:75-82 | A group's entries render only entry and tags lines |
| MemorySync.GroupHeadings | scripts/memory_sync.py:71-74 | A group shows its own heading exactly when it has memories, and never another group's |
| MemorySync.ExportGroups | scripts/memory_sync.py:71-83 | Each group's heading is in the document exactly when the group is non-empty |
| MemorySync.ExportGroupOrder | scripts/memory_sync.py:43-46 | The semantic group follows the four preamble lines, and the recent group follows the semantic group |
| MemorySync.AppendEntry | scripts/memory_sync.py:75-82 | One memory appends its entry line, then a tags line when it has entities |
| MemorySync.AppendGroup | scripts/memory_sync.py:72-83 | A non-empty group appends its heading, a blank line, its entries and a blank line; an empty group appends nothing |
| MemorySync.ExportToMarkdown | scripts/memory_sync.py:48-89 | The export returns the size of `seen_hashes` and the `\n`-join of the rendered document of the deduplicated groups |
| MemorySync.EntriesCount | scripts/memory_sync.py:75-80 | Each memory contributes exactly one entry line |
| MemorySync.ExportLinesCount | scripts/memory_sync.py:64-83 | The document has one entry line per memory of either group |
| MemorySync.ExportCount | scripts/memory_sync.py:48-89 | The return value equals the number of rendered entries. No recent memory repeats a semantic hash, only episodic recent memories are kept, and every semantic memory's hash is represented |
| ConversationIngest.CalculateImportance | scripts/conversation_ingest.py:45-65 | The importance lies in [0.5, 0.9], inside the [0.5, 1.0] of the cap |
| ConversationIngest.ImportanceUser | scripts/conversation_ingest.py:50-53 | A user message scores at least 0.6, and at least 0.8 exactly when it mentions a preference word |
| ConversationIngest.ImportanceAssistant | scripts/conversation_ingest.py:56-58 | An assistant message scores at least 0.65 exactly when it mentions an action word |
| ConversationIngest.ImportanceOtherRole | scripts/conversation_ingest.py:47-65 | Any other role gets no role bonus: 0.6 past 200 characters, else 0.5 |
| ConversationIngest.ImportanceLongerText | scripts/conversation_ingest.py:61-62 | Going past 200 characters adds exactly 0.1 whatever the role |
| ConversationIngest.ImportancePreferExample | scripts/conversation_ingest.py:50-53 | A short user message containing "prefer" scores 0.8 |
| ConversationIngest.DedupShape | scripts/conversation_ingest.py:42 | `list(set(...))` holds each element once and nothing else |
| ConversationIngest.EntitiesBound | scripts/conversation_ingest.py:20-42 | The tags are distinct candidates, as many as there are distinct candidates up to ten; with ten or fewer, every candidate is kept |
| ConversationIngest.EntitiesKinds | scripts/conversation_ingest.py:24-40 | Every tag is an `@` mention, a URL host, a code-like term or a fixed keyword of the text |
| ConversationIngest.IngestTurn | scripts/conversation_ingest.py:82-96 | No request exactly when the content is shorter than 20. Otherwise an episodic memory with the computed importance and entities, the session, and role/time metadata |
| ConversationIngest.IngestTurnContent | scripts/conversation_ingest.py:90 | The stored content is `"[role] "` followed by the message, which can be read back from it |
| ConversationIngest.TurnRequestsMeaning | scripts/conversation_ingest.py:117-120 | Every request comes from a turn of 20 or more characters as `ingest_turn` builds it, and there are never more requests than turns |
| ConversationIngest.JsonRequestsTurns | scripts/conversation_ingest.py:114-117 | A JSON turn reads with the defaults role `"user"` and content `""` |
| ConversationIngest.IngestJsonTurns | scripts/conversation_ingest.py:111-121 | The JSON branch stores one request per turn passing the gate, in order, and returns their count, at most the number of turns |
| ConversationIngest.ParseLine | scripts/conversation_ingest.py:131-142 | The role is user or assistant, and a line without a role prefix is a user turn of the whole line |
| ConversationIngest.ParseWritten | scripts/conversation_ingest.py:126-142 | A line written as `role: message` reads back as that turn, for both roles |
| ConversationIngest.ParseWrittenUser | scripts/conversation_ingest.py:134-136 | `user: message` is a user turn of the message |
| ConversationIngest.ParseWrittenAssistant | scripts/conversation_ingest.py:137-139 | `assistant: message` is an assistant turn of the message |
| ConversationIngest.ParseM2 | scripts/conversation_ingest.py:140-142 | `m2: message` is an assistant turn of the message |
| ConversationIngest.ParseUpperCase | scripts/conversation_ingest.py:134 | The role prefix is matched regardless of case |
| ConversationIngest.ReadLine | scripts/conversation_ingest.py:131-142 | The role/text assignments of the line loop compute the parsed turn |
| ConversationIngest.LineTurnsCount | scripts/conversation_ingest.py:126-130 | There is one turn per non-blank line |
| ConversationIngest.IngestLine | scripts/conversation_ingest.py:127-147 | One line gives the request of its turn, and nothing for a blank line or an empty message |
| ConversationIngest.LineRequestWritten | scripts/conversation_ingest.py:134-145 | A `user: message` line gives exactly the request `ingest_turn` makes of the message |
| ConversationIngest.TranscriptPreferExample | scripts/conversation_ingest.py:126-147 | The line `user: I prefer dark mode for the dashboard` is stored with importance 0.8 |
| ConversationIngest.IngestTextLines | scripts/conversation_ingest.py:126-147 | The text branch stores the requests of the transcript's lines, in order, and counts them |
| ConversationIngest.TextCountBound | scripts/conversation_ingest.py:126-147 | The count is at most the number of non-blank lines |
| ConversationIngest.IngestTranscript | scripts/conversation_ingest.py:103-149 | A parsed JSON list goes through the JSON branch, anything else through the line reader; the count is the number of requests |
| Benchmark.MatchesMeaning | scripts/benchmark.py:43-53 | A result comes from exactly one kind of section: one sharing a word with the query. Its score is the shared fraction, in (0, 1]; its content is the stripped body cut to 200; its header is the section's |
| Benchmark.NoQueryNoMatches | scripts/benchmark.py:46-47 | A query without words matches nothing, so nothing is divided by zero |
| Benchmark.BlankQuery | scripts/benchmark.py:40 | A blank query has no words |
| Benchmark.WordsMeaning | scripts/benchmark.py:40-45 | Query words are the lower-cased whitespace-separated pieces; section words are the lower-cased `\w` words |
| Benchmark.MarkdownRankedProperties | scripts/benchmark.py:55-56 | The answer is the first `min(limit, matches)` of the matches sorted by score, equal scores in document order: a prefix of their permutation, no match left out scoring higher than one kept, at most one per section, and empty for a query without words |
| Benchmark.MarkdownSearchWith | scripts/benchmark.py:43-56 | The scoring loop, sort and slice compute the ranked answer |
| Benchmark.MarkdownSearch | scripts/benchmark.py:19-56 | `markdown_search` splits with title lines kept, then scores, sorts and cuts |

## Left out

- HTTP (aiohttp sessions, the embedding call, Qdrant upsert/search/scroll/count) is left out. The answers of the store are parameters: dense candidates, a scroll page, a count result. Store calls are returned as a sequence of `StoreRequest` values rather than made.
- The runtime `pip install` fallback, `argparse`, the `main` functions, printing, and the benchmark's timing and comparison are left out.
- File reads and writes, and JSON (de)serialisation of the ledger and transcripts, are left out. The document text, the loaded ledger and a parsed turn list are inputs; the new ledger is an output.
- ConversationIngest.IngestTranscript: `parsed` is `Some` only for a file that parses as a JSON list. A JSON document that is not a list falls through to the line reader, as in the code. Non-dict list items and `null` or non-string values are not modelled.
- MD5 is a parameter `md5: string -> Digest` (32 characters), because it is a foreign library. `content_hash` is its 12-character prefix, so hash collisions are whatever that function makes them.
- `datetime.utcnow`, `timedelta` and `uuid4` are parameters (`now`, `cutoff`, `id`). Each `utcnow` call in one sync step gets the same `now`.
- IEEE floating point is not modelled. Scores and importances are `real`, so no rounding occurs.
- The `:.1f` and `{min_importance}` number formatting are the parameters `showTenths` and `showReal`.
- `str.lower()` and `\w` are modelled for ASCII letters and digits only. `isspace()` uses Python's full whitespace set.
- ConversationIngest.ExtractEntities: `list(set(...))` iteration order is unspecified in Python, so the model keeps first occurrences. Its contracts state only membership, distinctness and the count.
- HybridSearch.HybridSearchWith and HybridSearch.KeywordOnlySearchWith are generic over the keyword extractor; `HybridSearch` and `KeywordOnlySearch` instantiate them with `ExtractKeywords`.
- HybridSearch.KeywordOnlySearch: only the single scroll page (`limit: 100`) the code requests is searched, and it is given as input.
- MemorySync.ExportToMarkdown takes the answers of its two store queries (`search` and `get_recent`) as inputs. It does not model the query text, the limits or the one-week cutoff.
- MemorySync.SyncAdded states that the ledger grows by `new` keys. It does not state which keys, which `SyncLedger` does.
- `import_markdown`'s store calls use `memory_type`, importance and metadata as given. The id and embedding of each stored point are covered by `NewPoint` but not chained into the importer.
