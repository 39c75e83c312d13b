/** The regular expressions the scripts run through `re.findall`, each written out as
    a left-to-right scanner that resumes after every match, as `findall` does.
    Character classes are the ASCII ones: `\w` is `[A-Za-z0-9_]`. */
module Patterns {
  import opened PyText

  predicate IsUpper(c: char) { 'A' <= c <= 'Z' }
  predicate IsLower(c: char) { 'a' <= c <= 'z' }
  predicate IsLetter(c: char) { IsUpper(c) || IsLower(c) }
  predicate IsDigit(c: char) { '0' <= c <= '9' }

  /** `\w`. */
  predicate IsWordChar(c: char) { IsLetter(c) || IsDigit(c) || c == '_' }
  /** `[0-9A-Fa-f]`. */
  predicate IsHexDigit(c: char) { IsDigit(c) || 'a' <= c <= 'f' || 'A' <= c <= 'F' }
  /** `[A-Za-z0-9_-]`. */
  predicate IsIdentChar(c: char) { IsWordChar(c) || c == '-' }
  /** `[a-z_]`. */
  predicate IsLowerOrUnderscore(c: char) { IsLower(c) || c == '_' }
  /** `[^\s/]`. */
  predicate IsHostChar(c: char) { !IsSpace(c) && c != '/' }
  /** `\S`. */
  predicate IsNonSpace(c: char) { !IsSpace(c) }

  predicate All(s: string, p: char -> bool) {
    forall k :: 0 <= k < |s| ==> p(s[k])
  }

  /** A `\b` sits before position `i`, given that `s[i]` is a word character. */
  predicate WordStart(s: string, i: nat)
    requires i <= |s|
  {
    i == 0 || !IsWordChar(s[i - 1])
  }

  /** A `\b` sits after the word character at `e - 1`. */
  predicate WordEnd(s: string, e: nat)
    requires e <= |s|
  {
    e == |s| || !IsWordChar(s[e])
  }

  lemma LowerKeepsWordChar(c: char)
    ensures IsWordChar(LowerChar(c)) == IsWordChar(c)
  {
  }

  // ---------------------------------------------------------------------------
  // Maximal runs: `\w+`, `\b\w+\b` and `str.split()`

  /** The end of the longest stretch of `p` characters that starts at `i`. */
  function RunEnd(s: string, i: nat, p: char -> bool): (e: nat)
    requires i <= |s|
    ensures i <= e <= |s|
    ensures forall k :: i <= k < e ==> p(s[k])
    ensures e == |s| || !p(s[e])
    decreases |s| - i
  {
    if i < |s| && p(s[i]) then RunEnd(s, i + 1, p) else i
  }

  /** `s[i..e]` is a maximal non-empty stretch of `p` characters. */
  predicate IsRun(s: string, i: int, e: int, p: char -> bool) {
    && 0 <= i < e <= |s|
    && (forall k :: i <= k < e ==> p(s[k]))
    && (i == 0 || !p(s[i - 1]))
    && (e == |s| || !p(s[e]))
  }

  /** A scan may resume at `j`: `j` does not sit strictly inside a run. */
  predicate RunBoundary(s: string, j: nat, p: char -> bool)
    requires j <= |s|
  {
    j == 0 || j == |s| || !p(s[j - 1]) || !p(s[j])
  }

  /** `findall` of `p+` from position `i`: the maximal runs, left to right. */
  function RunsFrom(s: string, i: nat, p: char -> bool): seq<string>
    requires i <= |s|
    decreases |s| - i
  {
    if i == |s| then []
    else if p(s[i]) then
      var e := RunEnd(s, i, p);
      [s[i..e]] + RunsFrom(s, e, p)
    else RunsFrom(s, i + 1, p)
  }

  /** Every run found is non-empty and made of `p` characters only. */
  lemma {:induction false} RunsFromShape(s: string, i: nat, p: char -> bool)
    requires i <= |s|
    ensures forall k :: 0 <= k < |RunsFrom(s, i, p)| ==> RunsFrom(s, i, p)[k] != [] && All(RunsFrom(s, i, p)[k], p)
    decreases |s| - i
  {
    if i < |s| {
      if p(s[i]) {
        RunsFromShape(s, RunEnd(s, i, p), p);
      } else {
        RunsFromShape(s, i + 1, p);
      }
    }
  }

  function Runs(s: string, p: char -> bool): seq<string> {
    RunsFrom(s, 0, p)
  }

  /** The scan yields exactly the maximal runs that start at or after `j`. */
  lemma {:induction false} RunsFromExact(s: string, j: nat, p: char -> bool)
    requires j <= |s| && RunBoundary(s, j, p)
    ensures forall w :: w in RunsFrom(s, j, p) <==>
              exists i, e :: j <= i && IsRun(s, i, e, p) && w == s[i..e]
    decreases |s| - j
  {
    if j < |s| {
      if p(s[j]) {
        var e := RunEnd(s, j, p);
        RunsFromExact(s, e, p);
        assert IsRun(s, j, e, p);
        forall i, e' | j <= i && IsRun(s, i, e', p)
          ensures (i == j && e' == e) || e <= i
        {
          if i == j {
            RunEndUnique(s, j, e', p);
          }
        }
      } else {
        RunsFromExact(s, j + 1, p);
      }
    }
  }

  lemma RunEndUnique(s: string, i: nat, e: nat, p: char -> bool)
    requires IsRun(s, i, e, p)
    ensures RunEnd(s, i, p) == e
  {

  }

  /** Every word of `s` (maximal `\w` stretch) is found, and nothing else. */
  lemma RunsExact(s: string, p: char -> bool)
    ensures forall w :: w in Runs(s, p) <==>
              exists i, e :: IsRun(s, i, e, p) && w == s[i..e]
  {
    RunsFromExact(s, 0, p);
  }

  /** `re.findall(r'\w+', s)`, which is also `re.findall(r'\b\w+\b', s)`. */
  function Words(s: string): seq<string> {
    Runs(s, IsWordChar)
  }

  /** `s.split()`: the maximal stretches of non-whitespace. */
  function SplitWhitespace(s: string): seq<string> {
    Runs(s, IsNonSpace)
  }

  /** Lower-casing keeps the word boundaries, so the words of `s.lower()` are the
      lower-cased words of `s`. */
  lemma LowerWords(s: string)
    ensures forall w :: w in Words(Lower(s)) <==>
              exists i, e :: IsRun(s, i, e, IsWordChar) && w == Lower(s[i..e])
  {
    var t := Lower(s);
    RunsExact(s, IsWordChar);
    RunsExact(t, IsWordChar);
    forall k | 0 <= k < |s| ensures IsWordChar(t[k]) == IsWordChar(s[k]) {
      LowerKeepsWordChar(s[k]);
    }
    forall i, e ensures IsRun(t, i, e, IsWordChar) == IsRun(s, i, e, IsWordChar) {
    }
    forall i, e | IsRun(s, i, e, IsWordChar) ensures t[i..e] == Lower(s[i..e]) {
      LowerSlice(s, i, e);
    }
  }

  // ---------------------------------------------------------------------------
  // `\b[A-Z0-9][A-Za-z0-9_-]+\b` (identifiers and error codes, original case)

  /** The shape of every match: at least two characters, a capital or a digit first,
      letters, digits, `_` and `-` after it, and a word character last. */
  predicate IsIdentifierToken(w: string) {
    |w| >= 2 && (IsUpper(w[0]) || IsDigit(w[0])) && All(w, IsIdentChar) && IsWordChar(w[|w| - 1])
  }

  /** Gives back trailing dashes so that the match ends on a word character, which
      is where the closing `\b` lets the greedy `+` stop. */
  function TrimDashes(s: string, i: nat, e: nat): (t: nat)
    requires i < e <= |s| && IsWordChar(s[i])
    ensures i < t <= e && IsWordChar(s[t - 1])
    ensures forall k :: t <= k < e ==> !IsWordChar(s[k])
    decreases e
  {
    if IsWordChar(s[e - 1]) then e else TrimDashes(s, i, e - 1)
  }

  /** The end of the identifier match that starts at `i`, or `i` when none does. */
  function IdentifierAt(s: string, i: nat): (e: nat)
    requires i < |s|
    ensures e == i || i + 2 <= e <= |s|
  {
    if WordStart(s, i) && (IsUpper(s[i]) || IsDigit(s[i])) then
      var r := RunEnd(s, i + 1, IsIdentChar);
      var t := TrimDashes(s, i, r);
      if t >= i + 2 then t else i
    else i
  }

  /** A match is an identifier token standing between two word boundaries. */
  lemma IdentifierAtShape(s: string, i: nat)
    requires i < |s|
    ensures var e := IdentifierAt(s, i);
      e > i ==> IsIdentifierToken(s[i..e]) && WordStart(s, i) && WordEnd(s, e)
  {
    var e := IdentifierAt(s, i);
    if e > i {
      var r := RunEnd(s, i + 1, IsIdentChar);
      assert forall k :: i <= k < e ==> IsIdentChar(s[k]);
    }
  }

  function IdentifiersFrom(s: string, i: nat): seq<string>
    requires i <= |s|
    decreases |s| - i
  {
    if i == |s| then []
    else
      var e := IdentifierAt(s, i);
      if e > i then [s[i..e]] + IdentifiersFrom(s, e)
      else IdentifiersFrom(s, i + 1)
  }

  /** Every match is an identifier token occurring in `s`. */
  lemma {:induction false} IdentifiersFromShape(s: string, i: nat)
    requires i <= |s|
    ensures forall k :: 0 <= k < |IdentifiersFrom(s, i)| ==>
      IsIdentifierToken(IdentifiersFrom(s, i)[k]) && Contains(s, IdentifiersFrom(s, i)[k])
    decreases |s| - i
  {
    if i < |s| {
      var e := IdentifierAt(s, i);
      if e > i {
        IdentifierAtShape(s, i);
        assert OccursAt(s, s[i..e], i);
        IdentifiersFromShape(s, e);
      } else {
        IdentifiersFromShape(s, i + 1);
      }
    }
  }

  /** `re.findall(r'\b[A-Z0-9][A-Za-z0-9_-]+\b', s)`. */
  function Identifiers(s: string): seq<string> {
    IdentifiersFrom(s, 0)
  }

  // ---------------------------------------------------------------------------
  // `0x[0-9A-Fa-f]+` (hexadecimal literals)

  predicate IsHexLiteral(w: string) {
    |w| >= 3 && w[0] == '0' && w[1] == 'x' && All(w[2..], IsHexDigit)
  }

  /** A hexadecimal literal starts at `i`. */
  predicate HexStart(s: string, i: nat) {
    i + 2 < |s| && s[i] == '0' && s[i + 1] == 'x' && IsHexDigit(s[i + 2])
  }

  function HexLiteralsFrom(s: string, i: nat): seq<string>
    requires i <= |s|
    decreases |s| - i
  {
    if i == |s| then []
    else if HexStart(s, i) then
      var e := RunEnd(s, i + 2, IsHexDigit);
      [s[i..e]] + HexLiteralsFrom(s, e)
    else HexLiteralsFrom(s, i + 1)
  }

  /** Every match is a hexadecimal literal occurring in `s`. */
  lemma {:induction false} HexLiteralsFromShape(s: string, i: nat)
    requires i <= |s|
    ensures forall k :: 0 <= k < |HexLiteralsFrom(s, i)| ==>
      IsHexLiteral(HexLiteralsFrom(s, i)[k]) && Contains(s, HexLiteralsFrom(s, i)[k])
    decreases |s| - i
  {
    if i < |s| {
      if HexStart(s, i) {
        var e := RunEnd(s, i + 2, IsHexDigit);
        assert OccursAt(s, s[i..e], i);
        assert s[i..e][2..] == s[i + 2..e];
        HexLiteralsFromShape(s, e);
      } else {
        HexLiteralsFromShape(s, i + 1);
      }
    }
  }

  /** `re.findall(r'0x[0-9A-Fa-f]+', s)`. */
  function HexLiterals(s: string): seq<string> {
    HexLiteralsFrom(s, 0)
  }

  // ---------------------------------------------------------------------------
  // `@(\w+)` (mentions)

  /** A mention starts at `i`. */
  predicate MentionStart(s: string, i: nat) {
    i + 1 < |s| && s[i] == '@' && IsWordChar(s[i + 1])
  }

  function MentionsFrom(s: string, i: nat): seq<string>
    requires i <= |s|
    decreases |s| - i
  {
    if i == |s| then []
    else if MentionStart(s, i) then
      var e := RunEnd(s, i + 1, IsWordChar);
      [s[i + 1..e]] + MentionsFrom(s, e)
    else MentionsFrom(s, i + 1)
  }

  /** Every name found is a non-empty run of word characters that follows an `@`
      in `s`. */
  lemma {:induction false} MentionsFromShape(s: string, i: nat)
    requires i <= |s|
    ensures forall k :: 0 <= k < |MentionsFrom(s, i)| ==>
      var w := MentionsFrom(s, i)[k];
      w != [] && All(w, IsWordChar) && Contains(s, "@" + w)
    decreases |s| - i
  {
    if i < |s| {
      if MentionStart(s, i) {
        var e := RunEnd(s, i + 1, IsWordChar);
        assert s[i..e] == "@" + s[i + 1..e];
        assert OccursAt(s, "@" + s[i + 1..e], i);
        MentionsFromShape(s, e);
      } else {
        MentionsFromShape(s, i + 1);
      }
    }
  }

  /** `re.findall(r'@(\w+)', s)`: the captured names, without the `@`. */
  function Mentions(s: string): seq<string> {
    MentionsFrom(s, 0)
  }

  // ---------------------------------------------------------------------------
  // `https?://([^\s/]+)` (URL hosts)

  /** Where the host part starts when `s[i..]` begins with `https://` or `http://`. */
  function SchemeEnd(s: string, i: nat): (h: int)
    requires i <= |s|
    ensures h == -1 || (i + 7 <= h <= |s| && (StartsWith(s[i..], "https://") || StartsWith(s[i..], "http://")))
  {
    if StartsWith(s[i..], "https://") then i + 8
    else if StartsWith(s[i..], "http://") then i + 7
    else -1
  }

  function HostsFrom(s: string, i: nat): seq<string>
    requires i <= |s|
    decreases |s| - i
  {
    if i == |s| then []
    else
      var h := SchemeEnd(s, i);
      if 0 <= h < |s| && IsHostChar(s[h]) then
        var e := RunEnd(s, h, IsHostChar);
        [s[h..e]] + HostsFrom(s, e)
      else HostsFrom(s, i + 1)
  }

  /** Every host found is a non-empty run of host characters occurring in `s`. */
  lemma {:induction false} HostsFromShape(s: string, i: nat)
    requires i <= |s|
    ensures forall k :: 0 <= k < |HostsFrom(s, i)| ==>
      HostsFrom(s, i)[k] != [] && All(HostsFrom(s, i)[k], IsHostChar) && Contains(s, HostsFrom(s, i)[k])
    decreases |s| - i
  {
    if i < |s| {
      var h := SchemeEnd(s, i);
      if 0 <= h < |s| && IsHostChar(s[h]) {
        var e := RunEnd(s, h, IsHostChar);
        assert OccursAt(s, s[h..e], h);
        HostsFromShape(s, e);
      } else {
        HostsFromShape(s, i + 1);
      }
    }
  }

  /** `re.findall(r'https?://([^\s/]+)', s)`: the captured hosts. */
  function Hosts(s: string): seq<string> {
    HostsFrom(s, 0)
  }

  // ---------------------------------------------------------------------------
  // `\b([a-z]+_[a-z_]+|[A-Z][a-z]+[A-Z][a-zA-Z]*)\b` (snake_case and CamelCase)

  /** `[a-z]+_[a-z_]+`: lower-case letters and underscores, a letter first, and an
      underscore that has a character on either side. */
  predicate IsSnakeCase(w: string) {
    |w| >= 3 && IsLower(w[0]) && All(w, IsLowerOrUnderscore) && '_' in w[1..|w| - 1]
  }

  /** `[A-Z][a-z]+[A-Z][a-zA-Z]*`: letters only, a capital, a small letter, and a
      capital somewhere after them. */
  predicate IsCamelCase(w: string) {
    |w| >= 3 && IsUpper(w[0]) && IsLower(w[1]) && All(w, IsLetter) && exists k :: 2 <= k < |w| && IsUpper(w[k])
  }

  /** The end of the first alternative's match at `i`, or -1. */
  function SnakeCaseEnd(s: string, i: nat): (e: int)
    requires i < |s| && IsLower(s[i])
    ensures e == -1 || i < e <= |s|
  {
    var a := RunEnd(s, i, IsLower);
    if a < |s| && s[a] == '_' then
      var b := RunEnd(s, a + 1, IsLowerOrUnderscore);
      if b > a + 1 && WordEnd(s, b) then b else -1
    else -1
  }

  lemma SnakeCaseEndShape(s: string, i: nat)
    requires i < |s| && IsLower(s[i])
    ensures var e := SnakeCaseEnd(s, i); e != -1 ==> IsSnakeCase(s[i..e]) && WordEnd(s, e)
  {
    var e := SnakeCaseEnd(s, i);
    if e != -1 {
      var a := RunEnd(s, i, IsLower);
      assert s[i..e][a - i] == '_';
      assert s[i..e][1..e - i - 1][a - i - 1] == '_';
    }
  }

  /** The end of the second alternative's match at `i`, or -1. */
  function CamelCaseEnd(s: string, i: nat): (e: int)
    requires i < |s| && IsUpper(s[i])
    ensures e == -1 || i < e <= |s|
  {
    var l := RunEnd(s, i + 1, IsLower);
    if l > i + 1 && l < |s| && IsUpper(s[l]) then
      var m := RunEnd(s, l + 1, IsLetter);
      if WordEnd(s, m) then m else -1
    else -1
  }

  lemma CamelCaseEndShape(s: string, i: nat)
    requires i < |s| && IsUpper(s[i])
    ensures var e := CamelCaseEnd(s, i); e != -1 ==> IsCamelCase(s[i..e]) && WordEnd(s, e)
  {
    var e := CamelCaseEnd(s, i);
    if e != -1 {
      var l := RunEnd(s, i + 1, IsLower);
      assert s[i..e][l - i] == s[l];
    }
  }

  /** The end of the code term that starts at `i`, or -1. */
  function CodeTermAt(s: string, i: nat): (e: int)
    requires i < |s|
    ensures e == -1 || i < e <= |s|
  {
    if !WordStart(s, i) then -1
    else if IsLower(s[i]) then SnakeCaseEnd(s, i)
    else if IsUpper(s[i]) then CamelCaseEnd(s, i)
    else -1
  }

  function CodeTermsFrom(s: string, i: nat): seq<string>
    requires i <= |s|
    decreases |s| - i
  {
    if i == |s| then []
    else
      var e := CodeTermAt(s, i);
      if e > i then [s[i..e]] + CodeTermsFrom(s, e)
      else CodeTermsFrom(s, i + 1)
  }

  /** Every term found is a snake_case or CamelCase word occurring in `s`. */
  lemma {:induction false} CodeTermsFromShape(s: string, i: nat)
    requires i <= |s|
    ensures forall k :: 0 <= k < |CodeTermsFrom(s, i)| ==>
      (IsSnakeCase(CodeTermsFrom(s, i)[k]) || IsCamelCase(CodeTermsFrom(s, i)[k])) && Contains(s, CodeTermsFrom(s, i)[k])
    decreases |s| - i
  {
    if i < |s| {
      var e := CodeTermAt(s, i);
      if e > i {
        if IsLower(s[i]) {
          SnakeCaseEndShape(s, i);
        } else {
          CamelCaseEndShape(s, i);
        }
        assert OccursAt(s, s[i..e], i);
        CodeTermsFromShape(s, e);
      } else {
        CodeTermsFromShape(s, i + 1);
      }
    }
  }

  /** `re.findall(r'\b([a-z]+_[a-z_]+|[A-Z][a-z]+[A-Z][a-zA-Z]*)\b', s)`. */
  function CodeTerms(s: string): seq<string> {
    CodeTermsFrom(s, 0)
  }
}
