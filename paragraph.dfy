/**
  `extractFirstParagraph` of the llms script: the first usable line of a
  page's body, with Markdown links flattened to their text, inline code
  markers removed and white space compacted.

  The body is split on `\n`; the script splits on `\r?\n`, but every line is
  trimmed before use, which removes the `\r` either way.
 */
module Paragraph {
  import opened Wrappers
  import opened Text
  import opened Frontmatter

  /**
    `s.replace(/\[([^\]]+)\]\([^\)]+\)/g, '$1')`: a `[text](target)` with
    non-empty text and target becomes its text.
   */
  function FlattenLinks(s: string): (r: string)
    ensures |r| <= |s|
    ensures NoneIn(s, {'['}) ==> r == s
    decreases |s|
  {
    if s == [] then []
    else match LinkAt(s)
      case Some((j, k)) => s[1..j] + FlattenLinks(s[k + 1..])
      case None => [s[0]] + FlattenLinks(s[1..])
  }

  /**
    Where the link that begins `s` closes: the index of the first `]` after a
    non-empty text, directly followed by `(`, and of the first `)` after a
    non-empty target; nothing when `s` does not begin such a link.
   */
  function LinkAt(s: string): (r: Option<(nat, nat)>)
    requires s != []
    ensures r.Some? ==> s[0] == '[' && 1 < r.value.0 && r.value.0 + 2 < r.value.1 < |s|
  {
    if s[0] != '[' then None
    else
      var j := IndexOf(s, "]", 1);
      if j > 1 && j + 1 < |s| && s[j + 1] == '(' then
        var k := IndexOf(s, ")", j + 2);
        if k > j + 2 then Some((j, k)) else None
      else None
  }

  /** `s.replace(/`([^`]+)`/g, '$1')`: a non-empty code span loses its backticks. */
  function StripInlineCode(s: string): (r: string)
    ensures |r| <= |s|
    ensures NoneIn(s, {'`'}) ==> r == s
    decreases |s|
  {
    if s == [] then []
    else if s[0] == '`' then
      var j := IndexOf(s, "`", 1);
      if j > 1 then s[1..j] + StripInlineCode(s[j + 1..])
      else [s[0]] + StripInlineCode(s[1..])
    else [s[0]] + StripInlineCode(s[1..])
  }

  /** Single spaces only, none at either end: what `replace(/\s+/g, ' ').trim()` leaves. */
  predicate Compact(s: string) {
    && NoEdgeSpace(s)
    && (forall i :: 0 <= i < |s| ==> !IsSpace(s[i]) || s[i] == ' ')
    && (forall i :: 0 <= i < |s| - 1 ==> !(s[i] == ' ' && s[i + 1] == ' '))
  }

  /** `s.replace(/\s+/g, ' ').trim()`. */
  function CompactWhitespace(s: string): (r: string)
    ensures Compact(r)
  {
    var spaced := ReplaceRuns(s, Whitespace, ' ');
    TrimInfix(spaced);
    Trim(spaced)
  }

  /** Compacting white space keeps a string that is already compact. */
  lemma {:induction false} CompactIsIdempotent(s: string)
    requires Compact(s)
    ensures CompactWhitespace(s) == s
    decreases |s|
  {
    ReplaceRunsCompact(s);
    TrimNoEdge(s);
  }

  lemma ReplaceRunsCompact(s: string)
    requires (forall i :: 0 <= i < |s| ==> !IsSpace(s[i]) || s[i] == ' ')
    requires (forall i :: 0 <= i < |s| - 1 ==> !(s[i] == ' ' && s[i + 1] == ' '))
    ensures ReplaceRuns(s, Whitespace, ' ') == s
  {
    forall i, j | 0 <= i < j < |s| && j == i + 1 ensures !(s[i] in Whitespace && s[j] in Whitespace) {
    }
    ReplaceRunsKeeps(s, Whitespace, ' ');
  }

  /** A string whose runs of `cs` are already single `sub` characters is left alone. */
  lemma {:induction false} ReplaceRunsKeeps(s: string, cs: set<char>, sub: char)
    requires forall i :: 0 <= i < |s| ==> s[i] !in cs || s[i] == sub
    requires forall i, j :: 0 <= i < j < |s| && j == i + 1 ==> !(s[i] in cs && s[j] in cs)
    ensures ReplaceRuns(s, cs, sub) == s
    decreases |s|
  {
    if s != [] {
      var t := s[1..];
      forall i | 0 <= i < |t| ensures t[i] !in cs || t[i] == sub {
        assert t[i] == s[i + 1];
      }
      forall i, j | 0 <= i < j < |t| && j == i + 1 ensures !(t[i] in cs && t[j] in cs) {
        assert t[i] == s[i + 1] && t[j] == s[j + 1];
      }
      ReplaceRunsKeeps(t, cs, sub);
      if s[0] in cs {
        if t != [] {
          assert t[0] == s[1];
          assert !(s[0] in cs && s[1] in cs);
        }
        assert SkipRun(t, cs) == t;
        assert SkipRun(s, cs) == t;
      }
      assert [s[0]] + t == s;
    }
  }

  /** The rewriting of a kept line: links, then code markers, then white space. */
  function CleanLine(t: string): (r: string)
    ensures Compact(r)
  {
    CompactWhitespace(StripInlineCode(FlattenLinks(t)))
  }

  /** The lines of the body: the frontmatter block is dropped first. */
  function BodyLines(md: string): seq<string> {
    SplitOn(Body(md), {'\n'})
  }

  /** A `:::` line opens or closes an admonition. */
  predicate IsToggle(line: string) {
    StartsWith(Trim(line), ":::")
  }

  /** A trimmed line that is neither blank, a `[comment]:` line, a `:::` line, a heading nor raw HTML. */
  predicate IsProse(t: string) {
    t != "" && !StartsWith(t, "[comment]:") && !StartsWith(t, ":::")
    && !StartsWith(t, "#") && !StartsWith(t, "<")
  }

  /** The admonition state after a line. */
  function NextState(line: string, inAdmonition: bool): bool {
    if IsToggle(line) then !inAdmonition else inAdmonition
  }

  /** The line scan from a given admonition state. */
  function Scan(lines: seq<string>, inAdmonition: bool): string
    decreases |lines|
  {
    if lines == [] then ""
    else
      var t := Trim(lines[0]);
      if t == "" || StartsWith(t, "[comment]:") then Scan(lines[1..], inAdmonition)
      else if StartsWith(t, ":::") then Scan(lines[1..], !inAdmonition)
      else if inAdmonition || StartsWith(t, "#") || StartsWith(t, "<") then Scan(lines[1..], inAdmonition)
      else
        var c := CleanLine(t);
        if c != "" then c else Scan(lines[1..], inAdmonition)
  }

  function FirstParagraph(md: string): (p: string)
    ensures Compact(p)
  {
    ScanIsCompact(BodyLines(md), false);
    Scan(BodyLines(md), false)
  }

  /**
    `extractFirstParagraph`: the first line that survives the filters and
    whose cleaned text is not empty, cleaned; "" when there is none.
   */
  method ExtractFirstParagraph(md: string) returns (p: string)
    ensures p == FirstParagraph(md)
    ensures Compact(p)
  {
    var lines := BodyLines(md);
    var inAdmonition := false;
    var i := 0;
    while i < |lines|
      invariant 0 <= i <= |lines|
      invariant Scan(lines[i..], inAdmonition) == Scan(lines, false)
    {
      assert lines[i..][0] == lines[i] && lines[i..][1..] == lines[i + 1..];
      var line := Trim(lines[i]);
      i := i + 1;
      if line == "" { continue; }
      if StartsWith(line, "[comment]:") { continue; }
      if StartsWith(line, ":::") {
        inAdmonition := !inAdmonition;
        continue;
      }
      if inAdmonition { continue; }
      if StartsWith(line, "#") { continue; }
      if StartsWith(line, "<") { continue; }
      line := FlattenLinks(line);
      line := StripInlineCode(line);
      line := CompactWhitespace(line);
      if line != "" {
        return line;
      }
    }
    p := "";
    ScanIsCompact(lines, false);
  }

  lemma {:induction false} ScanIsCompact(lines: seq<string>, inAdmonition: bool)
    ensures Compact(Scan(lines, inAdmonition))
    decreases |lines|
  {
    if lines != [] {
      ScanIsCompact(lines[1..], inAdmonition);
      ScanIsCompact(lines[1..], !inAdmonition);
    }
  }

  // ---------------------------------------------------------------------------
  // The scan, stated declaratively
  // ---------------------------------------------------------------------------

  /** The admonition state after the given lines. */
  function StateAfter(lines: seq<string>, inAdmonition: bool): bool
    decreases |lines|
  {
    if lines == [] then inAdmonition else StateAfter(lines[1..], NextState(lines[0], inAdmonition))
  }

  /**
    Line `i` gives the paragraph when it is prose, lies outside an admonition
    (an even number of `:::` lines before it) and its cleaned text is not empty.
   */
  predicate Eligible(lines: seq<string>, i: int, inAdmonition: bool) {
    0 <= i < |lines| && !StateAfter(lines[..i], inAdmonition)
    && IsProse(Trim(lines[i])) && CleanLine(Trim(lines[i])) != ""
  }

  /** One step of the scan: an eligible first line is the result, any other line only updates the state. */
  lemma ScanStep(lines: seq<string>, inAdmonition: bool)
    requires lines != []
    ensures Eligible(lines, 0, inAdmonition) ==> Scan(lines, inAdmonition) == CleanLine(Trim(lines[0]))
    ensures !Eligible(lines, 0, inAdmonition) ==>
      Scan(lines, inAdmonition) == Scan(lines[1..], NextState(lines[0], inAdmonition))
  {
    assert lines[..0] == [];
    var t := Trim(lines[0]);
    if t != "" && StartsWith(t, "[comment]:") {
      assert t[..10][0] == '[';
      assert !StartsWith(t, ":::") by {
        if |t| >= 3 { assert t[..3][0] == '['; }
      }
    }
  }

  lemma EligibleShift(lines: seq<string>, i: int, inAdmonition: bool)
    requires 1 <= i < |lines|
    ensures Eligible(lines, i, inAdmonition) == Eligible(lines[1..], i - 1, NextState(lines[0], inAdmonition))
  {
    assert lines[..i][0] == lines[0];
    assert lines[..i][1..] == lines[1..][..i - 1];
    assert lines[1..][i - 1] == lines[i];
  }

  /**
    The scan finds a paragraph exactly when some line is eligible, and then
    returns the cleaned text of the first eligible line.
   */
  lemma {:induction false} ScanIsFirstEligible(lines: seq<string>, inAdmonition: bool)
    ensures Scan(lines, inAdmonition) != "" <==> exists i :: Eligible(lines, i, inAdmonition)
    ensures forall i ::
      (Eligible(lines, i, inAdmonition) && forall j :: 0 <= j < i ==> !Eligible(lines, j, inAdmonition))
      ==> Scan(lines, inAdmonition) == CleanLine(Trim(lines[i]))
    decreases |lines|
  {
    if lines == [] {
      return;
    }
    ScanStep(lines, inAdmonition);
    if Eligible(lines, 0, inAdmonition) {
      return;
    }
    var next := NextState(lines[0], inAdmonition);
    var rest := lines[1..];
    ScanIsFirstEligible(rest, next);
    forall i | 1 <= i < |lines|
      ensures Eligible(lines, i, inAdmonition) == Eligible(rest, i - 1, next)
    {
      EligibleShift(lines, i, inAdmonition);
    }
    if Scan(rest, next) != "" {
      var k :| Eligible(rest, k, next);
      assert Eligible(lines, k + 1, inAdmonition);
    }
    forall i | Eligible(lines, i, inAdmonition) && (forall j :: 0 <= j < i ==> !Eligible(lines, j, inAdmonition))
      ensures Scan(lines, inAdmonition) == CleanLine(Trim(lines[i]))
    {
      assert i >= 1;
      assert forall j :: 0 <= j < i - 1 ==> !Eligible(rest, j, next) by {
        forall j | 0 <= j < i - 1 ensures !Eligible(rest, j, next) {
          assert !Eligible(lines, j + 1, inAdmonition);
        }
      }
      assert rest[i - 1] == lines[i];
    }
  }

  /** A link `[text](target)` is replaced by its text; the rest of the line is rewritten on its own. */
  lemma FlattenOneLink(text: string, target: string, rest: string)
    requires text != [] && NoneIn(text, {']'})
    requires target != [] && NoneIn(target, {')'})
    ensures FlattenLinks("[" + text + "](" + target + ")" + rest) == text + FlattenLinks(rest)
  {
    var s := "[" + text + "](" + target + ")" + rest;
    var j := |text| + 1;
    var k := j + 2 + |target|;
    assert s[1..j] == text;
    assert s[j] == ']' && s[j + 1] == '(' && s[k] == ')';
    assert s[j + 2..k] == target;
    assert s[k + 1..] == rest;
    IndexOfAfter(s, 1, text, "]");
    IndexOfAfter(s, j + 2, target, ")");
    assert LinkAt(s) == Some((j, k));
  }

  /** A code span `` `code` `` loses its backticks; the rest of the line is rewritten on its own. */
  lemma StripOneCodeSpan(code: string, rest: string)
    requires code != [] && NoneIn(code, {'`'})
    ensures StripInlineCode("`" + code + "`" + rest) == code + StripInlineCode(rest)
  {
    var s := "`" + code + "`" + rest;
    var j := |code| + 1;
    assert s[j] == '`';
    assert forall m :: 1 <= m < j ==> s[m] == code[m - 1];
    assert MatchAt(s, "`", j);
    assert forall m :: 1 <= m < j ==> !MatchAt(s, "`", m);
    assert IndexOf(s, "`", 1) == j;
    assert s[1..j] == code;
    assert s[j + 1..] == rest;
  }
}
