/** `scripts/memory_sync.py`: importing a markdown file into the store under a ledger
    of content hashes (`sync_from_markdown`), and exporting stored memories back to
    markdown (`export_to_markdown`). The MD5 digest, the clock, number formatting and
    the file system are parameters. */
module MemorySync {
  import opened Wrappers
  import opened PyText
  import opened Sections
  import opened MemoryClient

  /** An MD5 hex digest: 32 characters. */
  type Digest = s: string | |s| == 32 witness "00000000000000000000000000000000"

  /** `content_hash`: the first 12 characters of the MD5 hex digest of the text. */
  function ContentHash(md5: string -> Digest, text: string): (h: string)
    ensures |h| == 12
  {
    md5(text)[..12]
  }

  // ---------------------------------------------------------------------------
  // sync_from_markdown

  /** What the ledger (`sync_state`) records for a synced hash. */
  datatype LedgerEntry = LedgerEntry(header: string, syncedAt: string)

  type Ledger = map<string, LedgerEntry>

  /** The `stats` counters `new`, `skipped` and `updated`. */
  datatype Stats = Stats(added: nat, skipped: nat, updated: nat)

  /** The ledger, the counters and the store calls made so far. */
  datatype Sync = Sync(ledger: Ledger, stats: Stats, stores: seq<StoreRequest>)

  /** The sections with their bodies stripped: the sync loop works on `text`, the
      stripped body, only. The functions below take sections in this form. */
  function StripBodies(sections: seq<Section>): (r: seq<Section>)
    ensures |r| == |sections|
  {
    seq(|sections|, k requires 0 <= k < |sections| => Section(sections[k].header, Strip(sections[k].body)))
  }

  /** A (stripped) section is synced only if it has at least 30 characters. */
  predicate Eligible(s: Section) { |s.body| >= 30 }

  /** The ledger key of a (stripped) section: the hash of its text (not of the stored
      content, which also carries the header). */
  function SectionHash(md5: string -> Digest, s: Section): string {
    ContentHash(md5, s.body)
  }

  /** The store call for a new (stripped) section: `"header: text"` (or the text
      alone), type `semantic`, importance 0.7, the header tag, and `source`/`synced_at`
      metadata. */
  function SyncRequest(filepath: string, now: string, s: Section): StoreRequest {
    StoreRequest(SectionContent(s.header, s.body), "semantic", 0.7, Some(HeaderEntities(s.header)),
                 None, Some(map["source" := filepath, "synced_at" := now]))
  }

  /** One iteration of the loop over sections. */
  function SyncStep(md5: string -> Digest, filepath: string, now: string, st: Sync, s: Section): Sync {
    if !Eligible(s) then st
    else
      var h := SectionHash(md5, s);
      if h in st.ledger then st.(stats := st.stats.(skipped := st.stats.skipped + 1))
      else Sync(st.ledger[h := LedgerEntry(s.header, now)], st.stats.(added := st.stats.added + 1),
                st.stores + [SyncRequest(filepath, now, s)])
  }

  /** The loop over `sections`, starting from `ledger` and zero counters. */
  function SyncAll(md5: string -> Digest, filepath: string, now: string, ledger: Ledger, sections: seq<Section>): Sync {
    if sections == [] then Sync(ledger, Stats(0, 0, 0), [])
    else SyncStep(md5, filepath, now, SyncAll(md5, filepath, now, ledger, sections[..|sections| - 1]), sections[|sections| - 1])
  }

  /** `sync_from_markdown` on the file's text and the loaded ledger: split into
      sections dropping `# ` title lines, then store each eligible section whose hash
      the ledger does not know yet. Returns the counters, the new ledger (which the
      script saves) and the store calls made, in order. */
  method SyncFromMarkdown(md5: string -> Digest, filepath: string, text: string, ledger0: Ledger, now: string)
    returns (stats: Stats, ledger: Ledger, stores: seq<StoreRequest>)
    ensures Sync(ledger, stats, stores) == SyncAll(md5, filepath, now, ledger0, StripBodies(SplitSections(text, true)))
  {
    var sections := ParseSections(text, true);
    ghost var stripped := StripBodies(sections);
    ledger := ledger0;
    stats := Stats(0, 0, 0);
    stores := [];
    for i := 0 to |sections|
      invariant Sync(ledger, stats, stores) == SyncAll(md5, filepath, now, ledger0, stripped[..i])
    {
      assert stripped[..i + 1][..i] == stripped[..i];
      var section := sections[i];
      var body := Strip(section.body);
      assert stripped[i] == Section(section.header, body);
      ghost var step := SyncStep(md5, filepath, now, Sync(ledger, stats, stores), stripped[i]);
      assert SyncAll(md5, filepath, now, ledger0, stripped[..i + 1]) == step;
      if |body| < 30 {
        assert step == Sync(ledger, stats, stores);
        continue;
      }
      var h := ContentHash(md5, body);
      if h in ledger {
        stats := stats.(skipped := stats.skipped + 1);
        assert step == Sync(ledger, stats, stores);
        continue;
      }
      var request := StoreRequest(SectionContent(section.header, body), "semantic", 0.7,
                                  Some(HeaderEntities(section.header)), None,
                                  Some(map["source" := filepath, "synced_at" := now]));
      assert request == SyncRequest(filepath, now, stripped[i]);
      stores := stores + [request];
      ledger := ledger[h := LedgerEntry(section.header, now)];
      stats := stats.(added := stats.added + 1);
      assert step == Sync(ledger, stats, stores);
    }
    assert stripped[..|sections|] == stripped;
  }

  /** The hashes of the eligible sections. */
  function Hashes(md5: string -> Digest, sections: seq<Section>): set<string> {
    set s | s in sections && Eligible(s) :: SectionHash(md5, s)
  }

  lemma HashesSnoc(md5: string -> Digest, sections: seq<Section>, s: Section)
    ensures Hashes(md5, sections + [s]) == Hashes(md5, sections) + (if Eligible(s) then {SectionHash(md5, s)} else {})
  {
    assert forall x :: x in sections + [s] <==> x in sections || x == s;
  }

  /** The ledger only grows: its keys become the old keys plus the hashes of the
      eligible sections, and entries already there are kept as they were. */
  lemma {:induction false} SyncLedger(md5: string -> Digest, filepath: string, now: string, ledger0: Ledger, sections: seq<Section>)
    ensures SyncAll(md5, filepath, now, ledger0, sections).ledger.Keys == ledger0.Keys + Hashes(md5, sections)
    ensures forall h :: h in ledger0 ==> SyncAll(md5, filepath, now, ledger0, sections).ledger[h] == ledger0[h]
  {
    if sections != [] {
      var init, s := sections[..|sections| - 1], sections[|sections| - 1];
      assert sections == init + [s];
      SyncLedger(md5, filepath, now, ledger0, init);
      HashesSnoc(md5, init, s);
      SyncStepCases(md5, filepath, now, SyncAll(md5, filepath, now, ledger0, init), s);
    }
  }

  /** Each new section adds one key to the ledger and makes one store call: the
      ledger grows by `new` keys (so, with `SyncLedger`, `new` counts the distinct
      hashes the ledger did not know). */
  lemma {:induction false} SyncAdded(md5: string -> Digest, filepath: string, now: string, ledger0: Ledger, sections: seq<Section>)
    ensures |SyncAll(md5, filepath, now, ledger0, sections).ledger| == |ledger0| + SyncAll(md5, filepath, now, ledger0, sections).stats.added
    ensures |SyncAll(md5, filepath, now, ledger0, sections).stores| == SyncAll(md5, filepath, now, ledger0, sections).stats.added
  {
    if sections != [] {
      var init, s := sections[..|sections| - 1], sections[|sections| - 1];
      SyncAdded(md5, filepath, now, ledger0, init);
      var prev := SyncAll(md5, filepath, now, ledger0, init);
      SyncStepCases(md5, filepath, now, prev, s);
      if Eligible(s) && SectionHash(md5, s) !in prev.ledger {
        assert |prev.ledger.Keys + {SectionHash(md5, s)}| == |prev.ledger.Keys| + 1;
      }
    }
  }

  /** `new + skipped` counts the eligible sections, and `updated` stays 0. */
  lemma {:induction false} SyncStats(md5: string -> Digest, filepath: string, now: string, ledger0: Ledger, sections: seq<Section>)
    ensures var r := SyncAll(md5, filepath, now, ledger0, sections);
      && r.stats.added + r.stats.skipped == |Filter(sections, Eligible)|
      && r.stats.updated == 0
  {
    if sections != [] {
      var init, s := sections[..|sections| - 1], sections[|sections| - 1];
      assert sections == init + [s];
      SyncStats(md5, filepath, now, ledger0, init);
      FilterSnoc(init, s, Eligible);
      SyncStepCases(md5, filepath, now, SyncAll(md5, filepath, now, ledger0, init), s);
    }
  }

  /** `new + skipped` is at most the number of sections. */
  lemma SyncCounted(md5: string -> Digest, filepath: string, now: string, ledger0: Ledger, sections: seq<Section>)
    ensures var r := SyncAll(md5, filepath, now, ledger0, sections);
      r.stats.added + r.stats.skipped <= |sections|
  {
    SyncStats(md5, filepath, now, ledger0, sections);
  }

  /** A run over sections whose hashes the ledger already holds changes nothing:
      every eligible section is skipped and nothing is stored. */
  lemma {:induction false} SyncKnown(md5: string -> Digest, filepath: string, now: string, ledger: Ledger, sections: seq<Section>)
    requires Hashes(md5, sections) <= ledger.Keys
    ensures SyncAll(md5, filepath, now, ledger, sections) == Sync(ledger, Stats(0, |Filter(sections, Eligible)|, 0), [])
  {
    if sections != [] {
      var init, s := sections[..|sections| - 1], sections[|sections| - 1];
      assert sections == init + [s];
      HashesSnoc(md5, init, s);
      FilterSnoc(init, s, Eligible);
      SyncKnown(md5, filepath, now, ledger, init);
    }
  }

  /** Re-running on the same sections with the saved ledger (at any time) stores
      nothing, counts no new section and leaves the ledger as it was. */
  lemma SyncIdempotent(md5: string -> Digest, filepath: string, now: string, later: string, ledger0: Ledger, sections: seq<Section>)
    ensures var first := SyncAll(md5, filepath, now, ledger0, sections);
      var second := SyncAll(md5, filepath, later, first.ledger, sections);
      && second.ledger == first.ledger
      && second.stats.added == 0
      && second.stores == []
  {
    SyncLedger(md5, filepath, now, ledger0, sections);
    SyncKnown(md5, filepath, later, SyncAll(md5, filepath, now, ledger0, sections).ledger, sections);
  }

  /** Within one run, an eligible section whose stripped body repeats an earlier
      section's is skipped: it only bumps `skipped`. */
  lemma SyncRepeatSkipped(md5: string -> Digest, filepath: string, now: string, ledger0: Ledger, sections: seq<Section>, i: nat, j: nat)
    requires i < j < |sections|
    requires Eligible(sections[i]) && sections[j].body == sections[i].body
    ensures var before := SyncAll(md5, filepath, now, ledger0, sections[..j]);
      SyncAll(md5, filepath, now, ledger0, sections[..j + 1]) == before.(stats := before.stats.(skipped := before.stats.skipped + 1))
  {
    var init := sections[..j];
    assert sections[..j + 1][..j] == init;
    SyncLedger(md5, filepath, now, ledger0, init);
    assert sections[i] == init[i];
    assert SectionHash(md5, sections[i]) in Hashes(md5, init);
  }

  /** A section whose hash the ledger already holds is skipped; one it does not hold
      is stored once, with its hash added to the ledger. */
  lemma SyncStepCases(md5: string -> Digest, filepath: string, now: string, st: Sync, s: Section)
    ensures var r := SyncStep(md5, filepath, now, st, s);
      && (!Eligible(s) ==> r == st)
      && (Eligible(s) && SectionHash(md5, s) in st.ledger ==>
            r.ledger == st.ledger && r.stores == st.stores && r.stats.skipped == st.stats.skipped + 1)
      && (Eligible(s) && SectionHash(md5, s) !in st.ledger ==>
            && r.ledger.Keys == st.ledger.Keys + {SectionHash(md5, s)}
            && r.stores == st.stores + [SyncRequest(filepath, now, s)]
            && r.stats.added == st.stats.added + 1)
  {
  }

  // ---------------------------------------------------------------------------
  // export_to_markdown

  /** The type list of the export search: `["semantic"]` unless types are given. */
  function ExportTypes(memoryTypes: Option<seq<string>>): (types: seq<string>)
    ensures types != []
    ensures !Given(memoryTypes) ==> types == ["semantic"]
  {
    if Given(memoryTypes) then memoryTypes.value else ["semantic"]
  }

  /** The filter of the export's search admits exactly the agent's memories of
      the given types (only `semantic` ones when no types are given) whose
      importance reaches `minImportance` when that is positive. */
  lemma ExportSearchFilter(agentId: string, memoryTypes: Option<seq<string>>, minImportance: real)
    ensures forall p :: Satisfies(SearchFilter(agentId, Some(ExportTypes(memoryTypes)), minImportance), p) <==>
      && p.agentId == agentId
      && (if Given(memoryTypes) then p.memoryType in memoryTypes.value else p.memoryType == "semantic")
      && (minImportance > 0.0 ==> p.importance >= minImportance)
    ensures |SearchFilter(agentId, Some(ExportTypes(memoryTypes)), minImportance)| == if minImportance > 0.0 then 3 else 2
  {
  }

  function MemoryHash(md5: string -> Digest, m: Memory): string {
    ContentHash(md5, m.content)
  }

  /** The memories a dedup loop considers: all of them, or only the `episodic` ones. */
  predicate Considered(onlyEpisodic: bool, m: Memory) {
    !onlyEpisodic || m.memoryType == "episodic"
  }

  /** `seen_hashes` and the memories kept so far. */
  datatype Dedup = Dedup(seen: set<string>, kept: seq<Memory>)

  /** A dedup loop of `export_to_markdown`: keeps each considered memory whose hash
      is not in `seen` yet, and records its hash. */
  function DedupAll(md5: string -> Digest, seen: set<string>, mems: seq<Memory>, onlyEpisodic: bool): Dedup {
    if mems == [] then Dedup(seen, [])
    else
      var d := DedupAll(md5, seen, mems[..|mems| - 1], onlyEpisodic);
      var m := mems[|mems| - 1];
      if Considered(onlyEpisodic, m) && MemoryHash(md5, m) !in d.seen then Dedup(d.seen + {MemoryHash(md5, m)}, d.kept + [m])
      else d
  }

  /** The first dedup loop: every semantic search hit, starting from no hashes. */
  function SemanticPass(md5: string -> Digest, semantic: seq<Memory>): Dedup {
    DedupAll(md5, {}, semantic, false)
  }

  /** The second dedup loop: the `episodic` recent memories, after the semantic ones. */
  function RecentPass(md5: string -> Digest, semantic: seq<Memory>, recent: seq<Memory>): Dedup {
    DedupAll(md5, SemanticPass(md5, semantic).seen, recent, true)
  }

  /** The hashes of a list of memories. */
  function MemoryHashes(md5: string -> Digest, mems: seq<Memory>): set<string> {
    set m | m in mems :: MemoryHash(md5, m)
  }

  lemma MemoryHashesSnoc(md5: string -> Digest, mems: seq<Memory>, m: Memory)
    ensures MemoryHashes(md5, mems + [m]) == MemoryHashes(md5, mems) + {MemoryHash(md5, m)}
  {
    assert forall x :: x in mems + [m] <==> x in mems || x == m;
  }

  /** The loop over `mems` with `seen_hashes`. */
  method KeepUnseen(md5: string -> Digest, seen0: set<string>, mems: seq<Memory>, onlyEpisodic: bool)
    returns (seen: set<string>, kept: seq<Memory>)
    ensures Dedup(seen, kept) == DedupAll(md5, seen0, mems, onlyEpisodic)
  {
    seen := seen0;
    kept := [];
    for i := 0 to |mems|
      invariant Dedup(seen, kept) == DedupAll(md5, seen0, mems[..i], onlyEpisodic)
    {
      assert mems[..i + 1][..i] == mems[..i];
      var mem := mems[i];
      if !onlyEpisodic || mem.memoryType == "episodic" {
        var h := ContentHash(md5, mem.content);
        if h !in seen {
          seen := seen + {h};
          kept := kept + [mem];
        }
      }
    }
    assert mems[..|mems|] == mems;
  }

  /** `seen` grows by exactly the hashes of the kept memories, none of which was seen
      before and no two of which are equal, so it grows by their number. */
  lemma {:induction false} DedupSeen(md5: string -> Digest, seen0: set<string>, mems: seq<Memory>, onlyEpisodic: bool)
    ensures var d := DedupAll(md5, seen0, mems, onlyEpisodic);
      && d.seen == seen0 + MemoryHashes(md5, d.kept)
      && |d.seen| == |seen0| + |d.kept|
  {
    if mems != [] {
      var init, m := mems[..|mems| - 1], mems[|mems| - 1];
      assert mems == init + [m];
      DedupSeen(md5, seen0, init, onlyEpisodic);
      var d := DedupAll(md5, seen0, init, onlyEpisodic);
      if Considered(onlyEpisodic, m) && MemoryHash(md5, m) !in d.seen {
        MemoryHashesSnoc(md5, d.kept, m);
      }
    }
  }

  /** The kept memories are considered memories of `mems`. */
  lemma {:induction false} DedupKeptFrom(md5: string -> Digest, seen0: set<string>, mems: seq<Memory>, onlyEpisodic: bool)
    ensures forall m :: m in DedupAll(md5, seen0, mems, onlyEpisodic).kept ==> m in mems && Considered(onlyEpisodic, m)
  {
    if mems != [] {
      var init, m := mems[..|mems| - 1], mems[|mems| - 1];
      assert mems == init + [m];
      DedupKeptFrom(md5, seen0, init, onlyEpisodic);
    }
  }

  /** No kept hash was in `seen` before. */
  predicate FreshHashes(md5: string -> Digest, kept: seq<Memory>, seen: set<string>) {
    forall k :: 0 <= k < |kept| ==> MemoryHash(md5, kept[k]) !in seen
  }

  /** No two kept memories have the same hash. */
  predicate DistinctHashes(md5: string -> Digest, kept: seq<Memory>) {
    forall k, l :: 0 <= k < l < |kept| ==> MemoryHash(md5, kept[k]) != MemoryHash(md5, kept[l])
  }

  /** The kept memories have hashes not seen before and pairwise distinct. */
  lemma {:induction false} DedupKeptFresh(md5: string -> Digest, seen0: set<string>, mems: seq<Memory>, onlyEpisodic: bool)
    ensures FreshHashes(md5, DedupAll(md5, seen0, mems, onlyEpisodic).kept, seen0)
    ensures DistinctHashes(md5, DedupAll(md5, seen0, mems, onlyEpisodic).kept)
  {
    if mems != [] {
      var init, m := mems[..|mems| - 1], mems[|mems| - 1];
      assert mems == init + [m];
      DedupKeptFresh(md5, seen0, init, onlyEpisodic);
      DedupSeen(md5, seen0, init, onlyEpisodic);
      var d := DedupAll(md5, seen0, init, onlyEpisodic);
      if Considered(onlyEpisodic, m) && MemoryHash(md5, m) !in d.seen {
        var kept := d.kept + [m];
        forall k | 0 <= k < |d.kept|
          ensures MemoryHash(md5, kept[k]) != MemoryHash(md5, m)
        {
          assert kept[k] == d.kept[k] && d.kept[k] in d.kept;
        }
      }
    }
  }

  /** Every considered memory's hash ends up in `seen`. */
  lemma {:induction false} DedupCovers(md5: string -> Digest, seen0: set<string>, mems: seq<Memory>, onlyEpisodic: bool)
    ensures forall m :: m in mems && Considered(onlyEpisodic, m) ==> MemoryHash(md5, m) in DedupAll(md5, seen0, mems, onlyEpisodic).seen
  {
    if mems != [] {
      var init, m := mems[..|mems| - 1], mems[|mems| - 1];
      assert mems == init + [m];
      DedupCovers(md5, seen0, init, onlyEpisodic);
    }
  }

  /** Each kept memory is the first considered memory of `mems` with its hash. */
  predicate FirstOccurrences(md5: string -> Digest, mems: seq<Memory>, kept: seq<Memory>, onlyEpisodic: bool) {
    forall k :: 0 <= k < |kept| ==> IsFirst(md5, mems, kept[k], onlyEpisodic)
  }

  /** `x` occurs in `mems` at a position where no earlier considered memory has its hash. */
  predicate IsFirst(md5: string -> Digest, mems: seq<Memory>, x: Memory, onlyEpisodic: bool) {
    exists j :: 0 <= j < |mems| && mems[j] == x && FirstWithHash(md5, mems, j, onlyEpisodic)
  }

  /** First occurrence wins: a kept memory is the first considered memory of `mems`
      with its hash. */
  lemma {:induction false} DedupFirst(md5: string -> Digest, seen0: set<string>, mems: seq<Memory>, onlyEpisodic: bool)
    ensures FirstOccurrences(md5, mems, DedupAll(md5, seen0, mems, onlyEpisodic).kept, onlyEpisodic)
  {
    if mems != [] {
      var init, m := mems[..|mems| - 1], mems[|mems| - 1];
      assert mems == init + [m];
      DedupFirst(md5, seen0, init, onlyEpisodic);
      DedupCovers(md5, seen0, init, onlyEpisodic);
      var d := DedupAll(md5, seen0, init, onlyEpisodic);
      var r := DedupAll(md5, seen0, mems, onlyEpisodic);
      var keep := Considered(onlyEpisodic, m) && MemoryHash(md5, m) !in d.seen;
      assert r.kept == if keep then d.kept + [m] else d.kept;
      forall k | 0 <= k < |r.kept|
        ensures IsFirst(md5, mems, r.kept[k], onlyEpisodic)
      {
        if k < |d.kept| {
          assert IsFirst(md5, init, d.kept[k], onlyEpisodic);
          var j :| 0 <= j < |init| && init[j] == d.kept[k] && FirstWithHash(md5, init, j, onlyEpisodic);
          assert mems[j] == init[j] == r.kept[k];
          assert FirstWithHash(md5, mems, j, onlyEpisodic) by {
            assert forall i :: 0 <= i < j ==> mems[i] == init[i];
          }
        } else {
          assert keep;
          assert r.kept[k] == m == mems[|init|];
          assert FirstWithHash(md5, mems, |init|, onlyEpisodic) by {
            forall i | 0 <= i < |init| && Considered(onlyEpisodic, mems[i])
              ensures MemoryHash(md5, mems[i]) != MemoryHash(md5, m)
            {
              assert mems[i] == init[i] && init[i] in init;
            }
          }
        }
      }
      assert FirstOccurrences(md5, mems, r.kept, onlyEpisodic);
    }
  }

  /** No considered memory before position `j` has the hash of `mems[j]`. */
  predicate FirstWithHash(md5: string -> Digest, mems: seq<Memory>, j: nat, onlyEpisodic: bool)
    requires j < |mems|
  {
    forall i :: 0 <= i < j && Considered(onlyEpisodic, mems[i]) ==> MemoryHash(md5, mems[i]) != MemoryHash(md5, mems[j])
  }

  /** The content an entry shows: newlines turned into spaces, stripped, and cut to
      200 characters. */
  function EntryText(content: string): (t: string)
    ensures |t| <= 200
    ensures '\n' !in t
  {
    var flat := ReplaceChar(content, '\n', ' ');
    var t := Prefix(Strip(flat), 200);
    assert '\n' !in t by {
      StripChars(flat);
      assert forall c :: c in t ==> c in Strip(flat);
    }
    t
  }

  /** The lines of the exported document, by kind. */
  datatype Line =
    | Title                                  // # Memory Export
    | Exported(now: string)                  // *Exported: ...*
    | MinImportance(shown: string)           // *Min importance: ...*
    | Blank
    | Heading(title: string)                 // ## <group>
    | Entry(importance: string, text: string) // - **[0.7]** <text>
    | Tags(entities: seq<string>)            //   - *Tags: a, b*

  /** The text of a line; a tags line shows at most five entities. */
  function Render(l: Line): string {
    match l
    case Title => "# Memory Export"
    case Exported(now) => "*Exported: " + now + "*"
    case MinImportance(shown) => "*Min importance: " + shown + "*"
    case Blank => ""
    case Heading(title) => "## " + title
    case Entry(importance, text) => "- **[" + importance + "]** " + text
    case Tags(entities) => "  - *Tags: " + JoinWith(Prefix(entities, 5), ", ") + "*"
  }

  /** An entry line of the file starts with `- **[`. */
  predicate IsEntryLine(line: string) { StartsWith(line, "- **[") }

  /** Exactly the entry lines render with the `- **[` prefix, so counting them in the
      file counts the entries. */
  lemma RenderEntry(l: Line)
    ensures IsEntryLine(Render(l)) <==> l.Entry?
  {
    match l
    case Entry(importance, text) =>
      assert Render(l)[..5] == "- **[";
    case Title =>
      assert Render(l)[0] == '#';
    case Exported(now) =>
      assert Render(l)[0] == '*';
    case MinImportance(shown) =>
      assert Render(l)[0] == '*';
    case Blank =>
    case Heading(title) =>
      assert Render(l)[0] == '#';
    case Tags(entities) =>
      assert Render(l)[0] == ' ';
  }

  function RenderAll(lines: seq<Line>): (text: seq<string>)
    ensures |text| == |lines|
    ensures forall k :: 0 <= k < |lines| ==> text[k] == Render(lines[k])
  {
    seq(|lines|, k requires 0 <= k < |lines| => Render(lines[k]))
  }

  /** A line whose parts (the clock reading, the shown numbers, the title, the
      entry text, the tags) hold no newline. */
  predicate LineFlat(l: Line) {
    match l
    case Title => true
    case Exported(now) => '\n' !in now
    case MinImportance(shown) => '\n' !in shown
    case Blank => true
    case Heading(title) => '\n' !in title
    case Entry(importance, text) => '\n' !in importance && '\n' !in text
    case Tags(entities) => forall k :: 0 <= k < |entities| ==> '\n' !in entities[k]
  }

  /** A line made of newline-free parts renders as a single line of text. */
  lemma RenderFlat(l: Line)
    requires LineFlat(l)
    ensures '\n' !in Render(l)
  {
    if l.Tags? {
      var shown := Prefix(l.entities, 5);
      assert forall k :: 0 <= k < |shown| ==> shown[k] == l.entities[k];
      JoinWithChars(shown, ", ", '\n');
    }
  }

  /** A memory whose entity tags hold no newline. */
  predicate MemoryFlat(m: Memory) {
    forall k :: 0 <= k < |m.entities| ==> '\n' !in m.entities[k]
  }

  /** The lines of one exported memory: the entry, and a tags line when it has
      entities. `showTenths` renders `{importance:.1f}`. */
  function EntryLines(showTenths: real -> string, m: Memory): seq<Line> {
    [Entry(showTenths(m.importance), EntryText(m.content))] + (if m.entities != [] then [Tags(m.entities)] else [])
  }

  function EntriesLines(showTenths: real -> string, mems: seq<Memory>): seq<Line> {
    if mems == [] then [] else EntriesLines(showTenths, mems[..|mems| - 1]) + EntryLines(showTenths, mems[|mems| - 1])
  }

  /** A group: its heading, a blank line, its entries and a blank line; nothing for
      an empty group. */
  function GroupLines(title: string, showTenths: real -> string, mems: seq<Memory>): seq<Line> {
    if mems == [] then [] else [Heading(title), Blank] + EntriesLines(showTenths, mems) + [Blank]
  }

  /** The exported document: the preamble, then the semantic group and the
      recent-conversations group, in that order. */
  function ExportLines(showReal: real -> string, showTenths: real -> string, now: string, minImportance: real,
                       semantic: seq<Memory>, recent: seq<Memory>): seq<Line> {
    [Title, Exported(now), MinImportance(showReal(minImportance)), Blank]
    + GroupLines("Semantic Knowledge", showTenths, semantic)
    + GroupLines("Recent Conversations", showTenths, recent)
  }

  /** With newline-free number renderings and tags, every line of a group's
      entries is newline-free (the entry text never has one). */
  lemma {:induction false} EntriesFlat(showTenths: real -> string, mems: seq<Memory>)
    requires forall x :: '\n' !in showTenths(x)
    requires forall k :: 0 <= k < |mems| ==> MemoryFlat(mems[k])
    ensures forall l :: l in EntriesLines(showTenths, mems) ==> LineFlat(l)
  {
    if mems != [] {
      EntriesFlat(showTenths, mems[..|mems| - 1]);
    }
  }

  lemma GroupFlat(title: string, showTenths: real -> string, mems: seq<Memory>)
    requires '\n' !in title
    requires forall x :: '\n' !in showTenths(x)
    requires forall k :: 0 <= k < |mems| ==> MemoryFlat(mems[k])
    ensures forall l :: l in GroupLines(title, showTenths, mems) ==> LineFlat(l)
  {
    EntriesFlat(showTenths, mems);
  }

  /** When the clock reading, the number renderings and every tag hold no
      newline, the exported file has one text line per document line: splitting
      it on `\n` gives back exactly the rendered lines. */
  lemma ExportFileLines(showReal: real -> string, showTenths: real -> string, now: string, minImportance: real,
                        semantic: seq<Memory>, recent: seq<Memory>)
    requires '\n' !in now
    requires forall x :: '\n' !in showReal(x)
    requires forall x :: '\n' !in showTenths(x)
    requires forall k :: 0 <= k < |semantic| ==> MemoryFlat(semantic[k])
    requires forall k :: 0 <= k < |recent| ==> MemoryFlat(recent[k])
    ensures var lines := ExportLines(showReal, showTenths, now, minImportance, semantic, recent);
      && SplitOn(JoinWith(RenderAll(lines), "\n"), '\n') == RenderAll(lines)
      && |SplitOn(JoinWith(RenderAll(lines), "\n"), '\n')| == |lines|
  {
    var lines := ExportLines(showReal, showTenths, now, minImportance, semantic, recent);
    var pre := [Title, Exported(now), MinImportance(showReal(minImportance)), Blank];
    var sem := GroupLines("Semantic Knowledge", showTenths, semantic);
    var rec := GroupLines("Recent Conversations", showTenths, recent);
    GroupFlat("Semantic Knowledge", showTenths, semantic);
    GroupFlat("Recent Conversations", showTenths, recent);
    assert lines == pre + sem + rec;
    assert forall l :: l in pre ==> LineFlat(l);
    assert forall l :: l in lines ==> l in pre || l in sem || l in rec;
    var text := RenderAll(lines);
    forall k | 0 <= k < |text|
      ensures '\n' !in text[k]
    {
      assert lines[k] in lines;
      RenderFlat(lines[k]);
    }
    SplitJoin(text, '\n');
  }

  /** The lines of entries are entry and tags lines only. */
  lemma {:induction false} EntriesKinds(showTenths: real -> string, mems: seq<Memory>)
    ensures forall l :: l in EntriesLines(showTenths, mems) ==> l.Entry? || l.Tags?
  {
    if mems != [] {
      EntriesKinds(showTenths, mems[..|mems| - 1]);
    }
  }

  /** A group holds its own heading exactly when it has memories, and no other. */
  lemma GroupHeadings(title: string, other: string, showTenths: real -> string, mems: seq<Memory>)
    requires other != title
    ensures Heading(title) in GroupLines(title, showTenths, mems) <==> mems != []
    ensures Heading(other) !in GroupLines(title, showTenths, mems)
  {
    EntriesKinds(showTenths, mems);
    if mems != [] {
      assert GroupLines(title, showTenths, mems)[0] == Heading(title);
    }
  }

  /** A group without memories leaves no heading in the document. */
  lemma ExportGroups(showReal: real -> string, showTenths: real -> string, now: string, minImportance: real,
                     semantic: seq<Memory>, recent: seq<Memory>)
    ensures Heading("Semantic Knowledge") in ExportLines(showReal, showTenths, now, minImportance, semantic, recent) <==> semantic != []
    ensures Heading("Recent Conversations") in ExportLines(showReal, showTenths, now, minImportance, semantic, recent) <==> recent != []
  {
    var pre := [Title, Exported(now), MinImportance(showReal(minImportance)), Blank];
    var sem := GroupLines("Semantic Knowledge", showTenths, semantic);
    var rec := GroupLines("Recent Conversations", showTenths, recent);
    GroupHeadings("Semantic Knowledge", "Recent Conversations", showTenths, semantic);
    GroupHeadings("Recent Conversations", "Semantic Knowledge", showTenths, recent);
    assert ExportLines(showReal, showTenths, now, minImportance, semantic, recent) == pre + sem + rec;
  }

  /** The groups come in a fixed order: the semantic group right after the
      preamble, the recent conversations right after it. */
  lemma ExportGroupOrder(showReal: real -> string, showTenths: real -> string, now: string, minImportance: real,
                         semantic: seq<Memory>, recent: seq<Memory>)
    ensures semantic != [] ==> ExportLines(showReal, showTenths, now, minImportance, semantic, recent)[4] == Heading("Semantic Knowledge")
    ensures recent != [] ==>
      ExportLines(showReal, showTenths, now, minImportance, semantic, recent)[4 + |GroupLines("Semantic Knowledge", showTenths, semantic)|]
        == Heading("Recent Conversations")
  {
    var pre := [Title, Exported(now), MinImportance(showReal(minImportance)), Blank];
    var sem := GroupLines("Semantic Knowledge", showTenths, semantic);
    var rec := GroupLines("Recent Conversations", showTenths, recent);
    assert ExportLines(showReal, showTenths, now, minImportance, semantic, recent) == pre + sem + rec;
    if recent != [] {
      assert (pre + sem + rec)[|pre| + |sem|] == rec[0];
    }
  }

  /** Appends one memory's lines: the entry, then its tags if it has any. */
  method AppendEntry(lines0: seq<Line>, showTenths: real -> string, mem: Memory) returns (lines: seq<Line>)
    ensures lines == lines0 + EntryLines(showTenths, mem)
  {
    lines := lines0 + [Entry(showTenths(mem.importance), EntryText(mem.content))];
    if mem.entities != [] {
      lines := lines + [Tags(mem.entities)];
    }
  }

  lemma EntriesSnoc(showTenths: real -> string, mems: seq<Memory>, i: nat)
    requires i < |mems|
    ensures EntriesLines(showTenths, mems[..i + 1]) == EntriesLines(showTenths, mems[..i]) + EntryLines(showTenths, mems[i])
  {
    assert mems[..i + 1][..i] == mems[..i];
  }

  /** Appends one group's lines, as the loop body over `organized.items()` does. */
  method AppendGroup(lines0: seq<Line>, title: string, showTenths: real -> string, mems: seq<Memory>)
    returns (lines: seq<Line>)
    ensures lines == lines0 + GroupLines(title, showTenths, mems)
  {
    if mems == [] {
      return lines0;
    }
    var head := lines0 + [Heading(title), Blank];
    lines := head;
    for i := 0 to |mems|
      invariant lines == head + EntriesLines(showTenths, mems[..i])
    {
      EntriesSnoc(showTenths, mems, i);
      lines := AppendEntry(lines, showTenths, mems[i]);
      ConcatAssoc(head, EntriesLines(showTenths, mems[..i]), EntryLines(showTenths, mems[i]));
    }
    assert mems[..|mems|] == mems;
    lines := lines + [Blank];
    assert GroupLines(title, showTenths, mems) == [Heading(title), Blank] + EntriesLines(showTenths, mems) + [Blank];
    ConcatAssoc(lines0, [Heading(title), Blank], EntriesLines(showTenths, mems));
    ConcatAssoc(lines0, [Heading(title), Blank] + EntriesLines(showTenths, mems), [Blank]);
  }

  /** `export_to_markdown` on the two answers it fetches (the semantic search and
      the recent memories): dedup by content hash, semantic first, keeping only the
      `episodic` recent ones; render; return the file's text and `len(seen_hashes)`. */
  method ExportToMarkdown(md5: string -> Digest, showReal: real -> string, showTenths: real -> string, now: string,
                          minImportance: real, semantic: seq<Memory>, recent: seq<Memory>)
    returns (count: nat, text: string)
    ensures count == |RecentPass(md5, semantic, recent).seen|
    ensures text == JoinWith(RenderAll(ExportLines(showReal, showTenths, now, minImportance, SemanticPass(md5, semantic).kept,
                                                   RecentPass(md5, semantic, recent).kept)), "\n")
  {
    var seen, semanticKept := KeepUnseen(md5, {}, semantic, false);
    var recentKept;
    seen, recentKept := KeepUnseen(md5, seen, recent, true);
    var lines := [Title, Exported(now), MinImportance(showReal(minImportance)), Blank];
    lines := AppendGroup(lines, "Semantic Knowledge", showTenths, semanticKept);
    lines := AppendGroup(lines, "Recent Conversations", showTenths, recentKept);
    text := JoinWith(RenderAll(lines), "\n");
    count := |seen|;
  }

  /** The number of entry lines. */
  function CountEntries(lines: seq<Line>): nat {
    if lines == [] then 0 else CountEntries(lines[..|lines| - 1]) + (if lines[|lines| - 1].Entry? then 1 else 0)
  }

  lemma {:induction false} CountEntriesAppend(a: seq<Line>, b: seq<Line>)
    ensures CountEntries(a + b) == CountEntries(a) + CountEntries(b)
    decreases |b|
  {
    if b == [] {
      assert a + b == a;
    } else {
      assert (a + b)[..|a + b| - 1] == a + b[..|b| - 1];
      CountEntriesAppend(a, b[..|b| - 1]);
    }
  }

  lemma {:induction false} NoEntries(lines: seq<Line>)
    requires forall k :: 0 <= k < |lines| ==> !lines[k].Entry?
    ensures CountEntries(lines) == 0
  {
    if lines != [] {
      NoEntries(lines[..|lines| - 1]);
    }
  }

  lemma CountEntriesOne(l: Line)
    ensures CountEntries([l]) == if l.Entry? then 1 else 0
  {
    assert [l][..0] == [];
  }

  /** Each exported memory contributes exactly one entry line. */
  lemma {:induction false} EntriesCount(showTenths: real -> string, mems: seq<Memory>)
    ensures CountEntries(EntriesLines(showTenths, mems)) == |mems|
  {
    if mems != [] {
      var m := mems[|mems| - 1];
      var entry := Entry(showTenths(m.importance), EntryText(m.content));
      var tags: seq<Line> := if m.entities != [] then [Tags(m.entities)] else [];
      assert EntryLines(showTenths, m) == [entry] + tags;
      EntriesCount(showTenths, mems[..|mems| - 1]);
      CountEntriesAppend(EntriesLines(showTenths, mems[..|mems| - 1]), [entry] + tags);
      CountEntriesAppend([entry], tags);
      CountEntriesOne(entry);
      if m.entities != [] {
        CountEntriesOne(Tags(m.entities));
      }
    }
  }

  lemma GroupCount(title: string, showTenths: real -> string, mems: seq<Memory>)
    ensures CountEntries(GroupLines(title, showTenths, mems)) == |mems|
  {
    EntriesCount(showTenths, mems);
    if mems != [] {
      var entries := EntriesLines(showTenths, mems);
      CountEntriesOne(Heading(title));
      CountEntriesOne(Blank);
      CountEntriesAppend([Heading(title)], [Blank]);
      CountEntriesAppend([Heading(title), Blank], entries);
      CountEntriesAppend([Heading(title), Blank] + entries, [Blank]);
    }
  }

  /** The document has one entry line per memory of either group. */
  lemma ExportLinesCount(showReal: real -> string, showTenths: real -> string, now: string, minImportance: real,
                         semantic: seq<Memory>, recent: seq<Memory>)
    ensures CountEntries(ExportLines(showReal, showTenths, now, minImportance, semantic, recent)) == |semantic| + |recent|
  {
    var pre := [Title, Exported(now), MinImportance(showReal(minImportance)), Blank];
    assert CountEntries(pre) == 0 by {
      NoEntries(pre);
    }
    GroupCount("Semantic Knowledge", showTenths, semantic);
    GroupCount("Recent Conversations", showTenths, recent);
    var g1 := GroupLines("Semantic Knowledge", showTenths, semantic);
    var g2 := GroupLines("Recent Conversations", showTenths, recent);
    CountEntriesAppend(pre, g1);
    CountEntriesAppend(pre + g1, g2);
  }

  /** The export's return value is the number of entries it renders, one per kept
      memory; no hash is kept twice, semantic memories win over recent ones with the
      same hash, only `episodic` recent memories are kept, and every semantic memory
      is represented. */
  lemma ExportCount(md5: string -> Digest, showReal: real -> string, showTenths: real -> string, now: string,
                    minImportance: real, semantic: seq<Memory>, recent: seq<Memory>)
    ensures |RecentPass(md5, semantic, recent).seen| == |SemanticPass(md5, semantic).kept| + |RecentPass(md5, semantic, recent).kept|
    ensures CountEntries(ExportLines(showReal, showTenths, now, minImportance, SemanticPass(md5, semantic).kept,
                                     RecentPass(md5, semantic, recent).kept))
            == |RecentPass(md5, semantic, recent).seen|
    ensures FreshHashes(md5, RecentPass(md5, semantic, recent).kept, MemoryHashes(md5, SemanticPass(md5, semantic).kept))
    ensures forall m :: m in RecentPass(md5, semantic, recent).kept ==> m.memoryType == "episodic"
    ensures forall m :: m in semantic ==> MemoryHash(md5, m) in MemoryHashes(md5, SemanticPass(md5, semantic).kept)
  {
    var sem := SemanticPass(md5, semantic);
    DedupSeen(md5, {}, semantic, false);
    DedupSeen(md5, sem.seen, recent, true);
    DedupKeptFrom(md5, sem.seen, recent, true);
    DedupKeptFresh(md5, sem.seen, recent, true);
    DedupCovers(md5, {}, semantic, false);
    ExportLinesCount(showReal, showTenths, now, minImportance, sem.kept, RecentPass(md5, semantic, recent).kept);
  }
}
