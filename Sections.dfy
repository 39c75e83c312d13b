/** The markdown section splitter. The same loop appears three times in the scripts:
    `sync_from_markdown` drops `# ` title lines, while `import_markdown` and
    `markdown_search` keep them as body text; `skipTitles` selects between the two. */
module Sections {
  import opened PyText

  datatype Section = Section(header: string, body: string)

  /** The loop state after some lines: the sections emitted so far, and the one being
      accumulated. */
  datatype State = State(done: seq<Section>, current: Section)

  const Start := State([], Section("", ""))

  predicate IsHeaderLine(line: string) { StartsWith(line, "## ") }
  predicate IsTitleLine(line: string) { StartsWith(line, "# ") }

  /** Emits `cur` if its body has any non-whitespace. */
  function Close(done: seq<Section>, cur: Section): seq<Section> {
    if IsBlank(cur.body) then done else done + [cur]
  }

  /** What the loop does with one line. */
  function Step(st: State, line: string, skipTitles: bool): State {
    if IsHeaderLine(line) then State(Close(st.done, st.current), Section(Strip(line[3..]), ""))
    else if skipTitles && IsTitleLine(line) then st
    else st.(current := st.current.(body := st.current.body + line + "\n"))
  }

  /** The loop state after `lines`. */
  function Scan(lines: seq<string>, skipTitles: bool): State {
    if lines == [] then Start
    else Step(Scan(lines[..|lines| - 1], skipTitles), lines[|lines| - 1], skipTitles)
  }

  /** The sections of a document given as its lines. */
  function SplitLines(lines: seq<string>, skipTitles: bool): seq<Section> {
    var st := Scan(lines, skipTitles);
    Close(st.done, st.current)
  }

  /** The sections of a document: `text.split("\n")`, then the loop. */
  function SplitSections(text: string, skipTitles: bool): seq<Section> {
    SplitLines(SplitOn(text, '\n'), skipTitles)
  }

  /** The splitting loop of `sync_from_markdown` (`skipTitles`) and of
      `import_markdown` and `markdown_search` (`!skipTitles`). */
  method ParseSections(text: string, skipTitles: bool) returns (sections: seq<Section>)
    ensures sections == SplitSections(text, skipTitles)
    ensures forall k :: 0 <= k < |sections| ==> !IsBlank(sections[k].body)
  {
    var lines := SplitOn(text, '\n');
    sections := [];
    var current := Section("", "");
    var i := 0;
    while i < |lines|
      invariant 0 <= i <= |lines|
      invariant State(sections, current) == Scan(lines[..i], skipTitles)
    {
      var line := lines[i];
      assert lines[..i + 1][..i] == lines[..i];
      if IsHeaderLine(line) {
        if !IsBlank(current.body) {
          sections := sections + [current];
        }
        current := Section(Strip(line[3..]), "");
      } else if !(skipTitles && IsTitleLine(line)) {
        current := current.(body := current.body + line + "\n");
      }
      i := i + 1;
    }
    assert lines[..i] == lines;
    if !IsBlank(current.body) {
      sections := sections + [current];
    }
    SplitNonBlank(lines, skipTitles);
  }

  /** Sections already emitted have a non-blank body and a stripped header. */
  predicate WellFormed(done: seq<Section>) {
    forall k :: 0 <= k < |done| ==> !IsBlank(done[k].body) && Strip(done[k].header) == done[k].header
  }

  lemma StepWellFormed(st: State, line: string, skipTitles: bool)
    requires WellFormed(st.done) && Strip(st.current.header) == st.current.header
    ensures WellFormed(Step(st, line, skipTitles).done)
    ensures Strip(Step(st, line, skipTitles).current.header) == Step(st, line, skipTitles).current.header
  {
    if IsHeaderLine(line) {
      StripStripped(line[3..]);
      CloseWellFormed(st.done, st.current);
    }
  }

  lemma CloseWellFormed(done: seq<Section>, cur: Section)
    requires WellFormed(done) && Strip(cur.header) == cur.header
    ensures WellFormed(Close(done, cur))
  {
    if !IsBlank(cur.body) {
      var r := done + [cur];
      forall k | 0 <= k < |r| ensures !IsBlank(r[k].body) && Strip(r[k].header) == r[k].header {
        if k < |done| {
          assert r[k] == done[k];
        }
      }
    }
  }

  lemma {:induction false} ScanWellFormed(lines: seq<string>, skipTitles: bool)
    ensures WellFormed(Scan(lines, skipTitles).done)
    ensures Strip(Scan(lines, skipTitles).current.header) == Scan(lines, skipTitles).current.header
  {
    if lines != [] {
      ScanWellFormed(lines[..|lines| - 1], skipTitles);
      StepWellFormed(Scan(lines[..|lines| - 1], skipTitles), lines[|lines| - 1], skipTitles);
    } else {
      assert Strip("") == "";
    }
  }

  /** Every section has some non-whitespace in its body and a header without
      surrounding whitespace. */
  lemma SplitNonBlank(lines: seq<string>, skipTitles: bool)
    ensures WellFormed(SplitLines(lines, skipTitles))
  {
    ScanWellFormed(lines, skipTitles);
    var st := Scan(lines, skipTitles);
    CloseWellFormed(st.done, st.current);
  }

  /** Two line lists that leave the loop in the same state still do after the same
      further lines. */
  lemma {:induction false} ScanSameAfter(a: seq<string>, b: seq<string>, ys: seq<string>, skipTitles: bool)
    requires Scan(a, skipTitles) == Scan(b, skipTitles)
    ensures Scan(a + ys, skipTitles) == Scan(b + ys, skipTitles)
    decreases |ys|
  {
    if ys != [] {
      var init := ys[..|ys| - 1];
      ScanSameAfter(a, b, init, skipTitles);
      assert (a + ys)[..|a + ys| - 1] == a + init;
      assert (b + ys)[..|b + ys| - 1] == b + init;
    } else {
      assert a + ys == a && b + ys == b;
    }
  }

  /** With `skipTitles`, a `# ` title line anywhere in the document changes nothing. */
  lemma TitleLineIgnored(pre: seq<string>, t: string, post: seq<string>)
    requires IsTitleLine(t) && !IsHeaderLine(t)
    ensures SplitLines(pre + [t] + post, true) == SplitLines(pre + post, true)
  {
    assert (pre + [t])[..|pre + [t]| - 1] == pre;
    ScanSameAfter(pre + [t], pre, post, true);
  }

  /** Without `skipTitles`, a title line is body text: a document that is only a
      title line is one section without a header, while with `skipTitles` it has
      none. */
  lemma TitleLineKept(t: string)
    requires IsTitleLine(t) && !IsHeaderLine(t)
    ensures SplitLines([t], false) == [Section("", t + "\n")]
    ensures SplitLines([t], true) == []
  {
    assert [t][..0] == [];
    assert Scan([t], false) == Step(Start, t, false) == State([], Section("", "" + t + "\n"));
    assert Scan([t], true) == Step(Start, t, true) == Start;
    assert "" + t + "\n" == t + "\n";
    assert !IsBlank(t + "\n") by {
      assert (t + "\n")[0] == '#';
    }
  }

  /** A header whose section holds nothing but whitespace lines before the next
      header is lost: the document splits as if that header were not there. */
  lemma HeaderWithoutTextLost(pre: seq<string>, h1: string, blank: seq<string>, h2: string, post: seq<string>, skipTitles: bool)
    requires IsHeaderLine(h1) && IsHeaderLine(h2)
    requires forall k :: 0 <= k < |blank| ==> IsBlank(blank[k])
    ensures SplitLines(pre + [h1] + blank + [h2] + post, skipTitles) == SplitLines(pre + [h2] + post, skipTitles)
  {
    var st := Scan(pre, skipTitles);
    assert (pre + [h1])[..|pre + [h1]| - 1] == pre;
    BlankLinesKeepBlank(pre + [h1], blank, skipTitles);
    var mid := Scan(pre + [h1] + blank, skipTitles);
    assert mid.done == Close(st.done, st.current) && IsBlank(mid.current.body);
    assert (pre + [h1] + blank + [h2])[..|pre + [h1] + blank + [h2]| - 1] == pre + [h1] + blank;
    assert (pre + [h2])[..|pre + [h2]| - 1] == pre;
    ScanSameAfter(pre + [h1] + blank + [h2], pre + [h2], post, skipTitles);
    assert pre + [h1] + blank + [h2] + post == (pre + [h1] + blank + [h2]) + post;
  }

  /** Whitespace-only lines after a header leave the emitted sections alone and the
      current body blank. */
  lemma {:induction false} BlankLinesKeepBlank(a: seq<string>, blank: seq<string>, skipTitles: bool)
    requires a != [] && IsHeaderLine(a[|a| - 1])
    requires forall k :: 0 <= k < |blank| ==> IsBlank(blank[k])
    ensures Scan(a + blank, skipTitles).done == Scan(a, skipTitles).done
    ensures IsBlank(Scan(a + blank, skipTitles).current.body)
    decreases |blank|
  {
    if blank == [] {
      assert a + blank == a;
      assert a[..|a| - 1] + [a[|a| - 1]] == a;
    } else {
      var init := blank[..|blank| - 1];
      var line := blank[|blank| - 1];
      BlankLinesKeepBlank(a, init, skipTitles);
      assert (a + blank)[..|a + blank| - 1] == a + init;
      assert !IsHeaderLine(line) by {
        if |line| >= 3 {
          assert IsSpace(line[0]);
        }
      }
      var cur := Scan(a + init, skipTitles).current;
      assert IsBlank(cur.body + line + "\n") by {
        var b := cur.body + line + "\n";
        forall k | 0 <= k < |b| ensures IsSpace(b[k]) {
          if k < |cur.body| {
          } else if k < |cur.body| + |line| {
            assert b[k] == line[k - |cur.body|];
          }
        }
      }
    }
  }

  function HeaderCount(lines: seq<string>): nat {
    if lines == [] then 0
    else HeaderCount(lines[..|lines| - 1]) + (if IsHeaderLine(lines[|lines| - 1]) then 1 else 0)
  }

  lemma {:induction false} ScanCount(lines: seq<string>, skipTitles: bool)
    ensures |Scan(lines, skipTitles).done| <= HeaderCount(lines)
  {
    if lines != [] {
      ScanCount(lines[..|lines| - 1], skipTitles);
    }
  }

  /** A document has at most one section more than it has `## ` lines. */
  lemma SectionCount(lines: seq<string>, skipTitles: bool)
    ensures |SplitLines(lines, skipTitles)| <= HeaderCount(lines) + 1
  {
    ScanCount(lines, skipTitles);
  }
}
