/**
  `cleanMdxContent` of the per-page script: a page's MDX source turned into
  plain Markdown by a fixed sequence of rewrites — the frontmatter block,
  `mdx-code-block` fences, `import` lines and `[comment]:` lines are removed,
  the `Tabs`/`TabItem`/`details`/`summary` wrappers lose their tags but keep
  what they wrap, runs of three or more line breaks become two, and the
  result is trimmed.

  The line-anchored rewrites (`import`, `[comment]:`) are read line by line
  over `\n`-separated lines.
 */
module MdxCleaner {
  import opened Text
  import opened Frontmatter

  // ---------------------------------------------------------------------------
  // mdx-code-block fences
  // ---------------------------------------------------------------------------

  /** The opening of a fence that wraps MDX-only code. */
  const FenceOpen := "```mdx-code-block\n"
  const Fence := "```"

  /**
    `s.replace(/```mdx-code-block\n[\s\S]*?```\n?/g, '')`: from an opening
    fence through the next three backticks, and one line break right after
    them, everything goes; an opening fence with no later backticks stays.
   */
  function RemoveMdxCodeBlocks(s: string): (r: string)
    ensures |r| <= |s|
    ensures NoneIn(s, {'`'}) ==> r == s
    decreases |s|
  {
    if s == [] then []
    else if s[0] == '`' && StartsWith(s, FenceOpen) then
      var j := IndexOf(s, Fence, |FenceOpen|);
      if j < 0 then [s[0]] + RemoveMdxCodeBlocks(s[1..])
      else
        var after := s[j + |Fence|..];
        RemoveMdxCodeBlocks(if after != [] && after[0] == '\n' then after[1..] else after)
    else [s[0]] + RemoveMdxCodeBlocks(s[1..])
  }

  /**
    A whole fence (and the line break after it) is removed when no three
    backticks occur before its closing ones; the rest is rewritten on its own.
   */
  lemma FenceRemoved(inner: string, rest: string)
    requires forall m :: 0 <= m < |inner| ==> !MatchAt(inner + Fence, Fence, m)
    ensures RemoveMdxCodeBlocks(FenceOpen + inner + Fence + rest)
      == RemoveMdxCodeBlocks(if rest != [] && rest[0] == '\n' then rest[1..] else rest)
  {
    var s := FenceOpen + inner + Fence + rest;
    FenceCloses(inner, rest);
    FenceParts(inner, rest);
    assert s[0] == '`';
  }

  /** The first three backticks after the opening are the closing ones. */
  lemma FenceCloses(inner: string, rest: string)
    requires forall m :: 0 <= m < |inner| ==> !MatchAt(inner + Fence, Fence, m)
    ensures IndexOf(FenceOpen + inner + Fence + rest, Fence, |FenceOpen|) == |FenceOpen| + |inner|
  {
    var s := FenceOpen + inner + Fence + rest;
    var body := inner + Fence;
    var j := |FenceOpen| + |inner|;
    assert s == FenceOpen + body + rest;
    forall k | |FenceOpen| <= k < j ensures !MatchAt(s, Fence, k) {
      MatchAtInfix(FenceOpen, body, rest, Fence, k - |FenceOpen|);
    }
    MatchAtInfix(FenceOpen, body, rest, Fence, |inner|);
    assert body[|inner|..|inner| + 3] == Fence;
    IndexOfFirst(s, Fence, |FenceOpen|, j);
  }

  lemma FenceParts(inner: string, rest: string)
    ensures var s := FenceOpen + inner + Fence + rest;
      StartsWith(s, FenceOpen) && s[|FenceOpen| + |inner| + |Fence|..] == rest
  {
    var s := FenceOpen + inner + Fence + rest;
    assert s[..|FenceOpen|] == FenceOpen;
  }

  /** In particular a fence whose content holds no backtick is removed. */
  lemma PlainFenceRemoved(inner: string, rest: string)
    requires NoneIn(inner, {'`'})
    ensures RemoveMdxCodeBlocks(FenceOpen + inner + Fence + rest)
      == RemoveMdxCodeBlocks(if rest != [] && rest[0] == '\n' then rest[1..] else rest)
  {
    var body := inner + Fence;
    forall m | 0 <= m < |inner| ensures !MatchAt(body, Fence, m) {
      assert body[m] == inner[m];
    }
    FenceRemoved(inner, rest);
  }

  // ---------------------------------------------------------------------------
  // Line-anchored removals
  // ---------------------------------------------------------------------------

  /**
    A line that `^import\s+.+$` matches: `import`, white space, and at least one
    more character.
   */
  predicate IsImportLine(line: string) {
    |line| >= 8 && line[..6] == "import" && IsSpace(line[6])
  }

  /**
    A line that `^\[comment\]:\s*#\s*\(.*\)\s*$` matches: `[comment]:`, optional
    white space, `#`, optional white space, `(`, and a rest whose last
    non-space character is `)`.
   */
  predicate IsCommentLine(line: string) {
    && StartsWith(line, "[comment]:")
    && var a := SkipRun(line[10..], Whitespace);
    && a != [] && a[0] == '#'
    && var b := SkipRun(a[1..], Whitespace);
    && b != [] && b[0] == '('
    && var c := TrimEnd(b[1..]);
    && c != [] && c[|c| - 1] == ')'
  }

  /** The lines a removal empties: comment lines or import lines. */
  predicate Doomed(line: string, comments: bool) {
    if comments then IsCommentLine(line) else IsImportLine(line)
  }

  /** Every doomed line replaced by the empty line. */
  function BlankMatching(lines: seq<string>, comments: bool): (r: seq<string>)
    ensures |r| == |lines|
    ensures forall i :: 0 <= i < |lines| ==> r[i] == (if Doomed(lines[i], comments) then "" else lines[i])
  {
    seq(|lines|, i requires 0 <= i < |lines| => if Doomed(lines[i], comments) then "" else lines[i])
  }

  function RemoveMatchingLines(s: string, comments: bool): string {
    JoinWith(BlankMatching(SplitOn(s, {'\n'}), comments), "\n")
  }

  /** `s.replace(/^import\s+.+$/gm, '')`. */
  function RemoveImportLines(s: string): string {
    RemoveMatchingLines(s, false)
  }

  /** `s.replace(/^\[comment\]:\s*#\s*\(.*\)\s*$/gm, '')`. */
  function RemoveCommentLines(s: string): string {
    RemoveMatchingLines(s, true)
  }

  /**
    The removal keeps the line structure: the lines of the result are the
    lines of `s`, each doomed one emptied, so no doomed line is left.
   */
  lemma LinesBlanked(s: string, comments: bool)
    ensures SplitOn(RemoveMatchingLines(s, comments), {'\n'}) == BlankMatching(SplitOn(s, {'\n'}), comments)
    ensures forall l :: l in SplitOn(RemoveMatchingLines(s, comments), {'\n'}) ==> !Doomed(l, comments)
  {
    var lines := SplitOn(s, {'\n'});
    var blanked := BlankMatching(lines, comments);
    forall i | 0 <= i < |blanked| ensures '\n' !in blanked[i] {
      assert NoneIn(lines[i], {'\n'});
    }
    SplitJoin(blanked, '\n');
  }

  /** Import lines become empty lines; every other line stays as it was. */
  lemma ImportLinesRemoved(s: string)
    ensures SplitOn(RemoveImportLines(s), {'\n'}) == BlankMatching(SplitOn(s, {'\n'}), false)
    ensures forall l :: l in SplitOn(RemoveImportLines(s), {'\n'}) ==> !IsImportLine(l)
  {
    LinesBlanked(s, false);
  }

  /** Comment lines become empty lines; every other line stays as it was. */
  lemma CommentLinesRemoved(s: string)
    ensures SplitOn(RemoveCommentLines(s), {'\n'}) == BlankMatching(SplitOn(s, {'\n'}), true)
    ensures forall l :: l in SplitOn(RemoveCommentLines(s), {'\n'}) ==> !IsCommentLine(l)
  {
    LinesBlanked(s, true);
  }

  /** A text with no doomed line is left as it is. */
  lemma NoDoomedLineKept(s: string, comments: bool)
    requires forall l :: l in SplitOn(s, {'\n'}) ==> !Doomed(l, comments)
    ensures RemoveMatchingLines(s, comments) == s
  {
    var lines := SplitOn(s, {'\n'});
    assert BlankMatching(lines, comments) == lines;
    JoinSplit(s, '\n');
  }

  // ---------------------------------------------------------------------------
  // JSX wrappers
  // ---------------------------------------------------------------------------

  /** `s` begins with `p`, in any case when `ci` holds. */
  predicate Opens(s: string, p: string, ci: bool) {
    if ci then MatchAtCI(s, p, 0) else MatchAt(s, p, 0)
  }

  /** A match of a pattern that begins with `<` begins with `<`. */
  lemma OpensAtAngle(s: string, p: string, ci: bool)
    requires p != [] && p[0] == '<' && Opens(s, p, ci)
    ensures s != [] && s[0] == '<'
  {
    if ci {
      assert LowerStr(s[..|p|])[0] == LowerStr(p)[0];
    } else {
      assert s[..|p|][0] == p[0];
    }
  }

  /**
    `s.replace(/<open[\s\S]*?>/g, '')` (with the `i` flag when `ci`): from each
    `open` through the first `>` after it, everything goes; an `open` with no
    later `>` stays.
   */
  function RemoveTags(s: string, open: string, ci: bool): (r: string)
    ensures |r| <= |s|
    ensures open != [] && open[0] == '<' && NoneIn(s, {'<'}) ==> r == s
    decreases |s|
  {
    if s == [] then []
    else if open != [] && Opens(s, open, ci) then
      var j := IndexOf(s, ">", |open|);
      if j < 0 then [s[0]] + RemoveTags(s[1..], open, ci)
      else
        OpensAtAngleIf(s, open, ci);
        RemoveTags(s[j + 1..], open, ci)
    else [s[0]] + RemoveTags(s[1..], open, ci)
  }

  lemma OpensAtAngleIf(s: string, p: string, ci: bool)
    requires p != [] && Opens(s, p, ci)
    ensures p[0] == '<' ==> s != [] && s[0] == '<'
  {
    if p[0] == '<' {
      OpensAtAngle(s, p, ci);
    }
  }

  /**
    `s.replace(/lit/g, '')` (with the `i` flag when `ci`): every occurrence of
    the literal goes, scanning left to right.
   */
  function RemoveLiteral(s: string, lit: string, ci: bool): (r: string)
    ensures |r| <= |s|
    ensures lit != [] && lit[0] == '<' && NoneIn(s, {'<'}) ==> r == s
    decreases |s|
  {
    if s == [] then []
    else if lit != [] && Opens(s, lit, ci) then
      OpensAtAngleIf(s, lit, ci);
      RemoveLiteral(s[|lit|..], lit, ci)
    else [s[0]] + RemoveLiteral(s[1..], lit, ci)
  }

  /** The four `Tabs`/`TabItem` rewrites, in the script's order. */
  function RemoveTabs(s: string): (r: string)
    ensures |r| <= |s|
    ensures NoneIn(s, {'<'}) ==> r == s
  {
    var s1 := RemoveTags(s, "<Tabs", false);
    var s2 := RemoveLiteral(s1, "</Tabs>", false);
    var s3 := RemoveTags(s2, "<TabItem", false);
    RemoveLiteral(s3, "</TabItem>", false)
  }

  /** The four `details`/`summary` rewrites, in any case, in the script's order. */
  function RemoveDisclosures(s: string): (r: string)
    ensures |r| <= |s|
    ensures NoneIn(s, {'<'}) ==> r == s
  {
    var s1 := RemoveTags(s, "<details", true);
    var s2 := RemoveLiteral(s1, "</details>", true);
    var s3 := RemoveTags(s2, "<summary", true);
    RemoveLiteral(s3, "</summary>", true)
  }

  /** The eight wrapper rewrites. */
  function RemoveWrappers(s: string): string {
    RemoveDisclosures(RemoveTabs(s))
  }

  /** An opening tag, attributes and line breaks included, is removed through its `>`. */
  lemma TagRemoved(open: string, attrs: string, rest: string, ci: bool)
    requires open != []
    requires NoneIn(attrs, {'>'})
    ensures RemoveTags(open + attrs + ">" + rest, open, ci) == RemoveTags(rest, open, ci)
  {
    var s := open + attrs + ">" + rest;
    var j := |open| + |attrs|;
    assert s[..|open|] == open;
    assert s[|open|..j] == attrs;
    assert s[j..j + 1] == ">";
    IndexOfAfter(s, |open|, attrs, ">");
    assert s[j + 1..] == rest;
  }

  /** A closing tag is removed. */
  lemma LiteralRemoved(lit: string, rest: string, ci: bool)
    requires lit != []
    ensures RemoveLiteral(lit + rest, lit, ci) == RemoveLiteral(rest, lit, ci)
  {
    assert (lit + rest)[..|lit|] == lit;
    assert (lit + rest)[|lit|..] == rest;
  }

  /** Text without `<` before a tag is kept as it is. */
  lemma {:induction false} TextBeforeTagKept(text: string, rest: string, open: string, ci: bool)
    requires open != [] && open[0] == '<'
    requires NoneIn(text, {'<'})
    ensures RemoveTags(text + rest, open, ci) == text + RemoveTags(rest, open, ci)
    decreases |text|
  {
    if text != [] {
      var s := text + rest;
      assert s[0] == text[0] && s[1..] == text[1..] + rest;
      assert !Opens(s, open, ci) by {
        if Opens(s, open, ci) {
          OpensAtAngle(s, open, ci);
        }
      }
      TagSkipped(s, open, ci);
      TextBeforeTagKept(text[1..], rest, open, ci);
      var r := RemoveTags(rest, open, ci);
      assert [text[0]] + (text[1..] + r) == ([text[0]] + text[1..]) + r;
      assert [text[0]] + text[1..] == text;
    } else {
      assert text + rest == rest;
    }
  }

  /** Text without `<` before a closing tag is kept as it is. */
  lemma {:induction false} TextBeforeLiteralKept(text: string, rest: string, lit: string, ci: bool)
    requires lit != [] && lit[0] == '<'
    requires NoneIn(text, {'<'})
    ensures RemoveLiteral(text + rest, lit, ci) == text + RemoveLiteral(rest, lit, ci)
    decreases |text|
  {
    if text != [] {
      var s := text + rest;
      assert s[0] == text[0] && s[1..] == text[1..] + rest;
      assert !Opens(s, lit, ci) by {
        if Opens(s, lit, ci) {
          OpensAtAngle(s, lit, ci);
        }
      }
      LiteralSkipped(s, lit, ci);
      TextBeforeLiteralKept(text[1..], rest, lit, ci);
      var r := RemoveLiteral(rest, lit, ci);
      assert [text[0]] + (text[1..] + r) == ([text[0]] + text[1..]) + r;
      assert [text[0]] + text[1..] == text;
    } else {
      assert text + rest == rest;
    }
  }

  /** A pattern that occurs nowhere in `s` leaves it unchanged. */
  lemma {:induction false} AbsentPatternKept(s: string, p: string, ci: bool)
    requires forall i :: 0 <= i <= |s| ==> !Opens(s[i..], p, ci)
    ensures RemoveTags(s, p, ci) == s
    ensures RemoveLiteral(s, p, ci) == s
    decreases |s|
  {
    if s != [] {
      assert !Opens(s[0..], p, ci) && s[0..] == s;
      forall i | 0 <= i <= |s[1..]| ensures !Opens(s[1..][i..], p, ci) {
        assert s[1..][i..] == s[i + 1..];
      }
      AbsentPatternKept(s[1..], p, ci);
      assert [s[0]] + s[1..] == s;
    }
  }

  // ---------------------------------------------------------------------------
  // Blank lines
  // ---------------------------------------------------------------------------

  const Triple := "\n\n\n"

  /** No three consecutive line breaks. */
  predicate NoTripleNewline(s: string) {
    forall i :: 0 <= i < |s| ==> !MatchAt(s, Triple, i)
  }

  /** The number of line breaks `s` begins with. */
  function Lead(s: string): (n: nat)
    ensures n <= |s|
    ensures n >= 1 <==> s != [] && s[0] == '\n'
  {
    if s != [] && s[0] == '\n' then 1 + Lead(s[1..]) else 0
  }

  function Min(a: int, b: int): int {
    if a <= b then a else b
  }

  /**
    `s.replace(/\n{3,}/g, '\n\n')`: every run of three or more line breaks
    becomes two. The result has no three consecutive line breaks and starts
    with as many line breaks as `s`, up to two.
   */
  function CollapseBlankLines(s: string): (r: string)
    ensures NoTripleNewline(r)
    ensures Lead(r) == Min(Lead(s), 2)
    decreases |s|
  {
    if s == [] then []
    else if Lead(s) >= 3 then
      var rt := CollapseBlankLines(SkipRun(s, {'\n'}));
      ConsNoTriple('\n', rt);
      ConsNoTriple('\n', "\n" + rt);
      LeadCons('\n', rt);
      LeadCons('\n', "\n" + rt);
      assert "\n\n" + rt == ['\n'] + (['\n'] + rt);
      "\n\n" + rt
    else
      var rt := CollapseBlankLines(s[1..]);
      ConsNoTriple(s[0], rt);
      LeadCons(s[0], rt);
      [s[0]] + rt
  }

  lemma LeadCons(c: char, s: string)
    ensures Lead([c] + s) == if c == '\n' then 1 + Lead(s) else 0
  {
    assert ([c] + s)[1..] == s;
  }

  lemma LeadTwo(s: string)
    requires |s| >= 2 && s[0] == '\n' && s[1] == '\n'
    ensures Lead(s) >= 2
  {
    assert s[1..][0] == '\n';
  }

  /** A character before a text without triple line breaks makes none, unless it and two more line breaks follow. */
  lemma ConsNoTriple(c: char, s: string)
    requires NoTripleNewline(s)
    requires c == '\n' ==> Lead(s) <= 1
    ensures NoTripleNewline([c] + s)
  {
    var t := [c] + s;
    forall i ensures !MatchAt(t, Triple, i) {
      if MatchAt(t, Triple, i) && i == 0 {
        assert t[0..3][0] == t[0] == c;
        if c == '\n' {
          assert t[0..3][1] == t[1] == s[0];
          assert t[0..3][2] == t[2] == s[1];
          LeadTwo(s);
        }
      }
      if MatchAt(t, Triple, i) && i > 0 {
        assert t[i..i + 3] == s[i - 1..i + 2];
        assert MatchAt(s, Triple, i - 1);
      }
    }
  }

  /** Collapsing a text without triple line breaks leaves it unchanged. */
  lemma {:induction false} CollapseKeepsClean(s: string)
    requires NoTripleNewline(s)
    ensures CollapseBlankLines(s) == s
    decreases |s|
  {
    if s != [] {
      if Lead(s) >= 3 {
        assert Lead(s[1..]) >= 2;
        assert Lead(s[1..][1..]) >= 1;
        assert s[1] == s[1..][0] && s[2] == s[1..][1..][0];
        assert s[..3] == Triple;
        assert MatchAt(s, Triple, 0);
      }
      forall i ensures !MatchAt(s[1..], Triple, i) {
        if MatchAt(s[1..], Triple, i) {
          assert s[1..][i..i + 3] == s[i + 1..i + 4];
          assert MatchAt(s, Triple, i + 1);
        }
      }
      CollapseKeepsClean(s[1..]);
      assert [s[0]] + s[1..] == s;
    }
  }

  /** The text without its line breaks. */
  function DropNewlines(s: string): (r: string)
    ensures NoneIn(r, {'\n'})
  {
    if s == [] then [] else if s[0] == '\n' then DropNewlines(s[1..]) else [s[0]] + DropNewlines(s[1..])
  }

  lemma {:induction false} DropNewlinesSkip(s: string)
    ensures DropNewlines(SkipRun(s, {'\n'})) == DropNewlines(s)
    decreases |s|
  {
    if s != [] && s[0] == '\n' {
      DropNewlinesSkip(s[1..]);
    }
  }

  lemma DropNewlinesCons(c: char, s: string)
    ensures DropNewlines([c] + s) == if c == '\n' then DropNewlines(s) else [c] + DropNewlines(s)
  {
    assert ([c] + s)[1..] == s;
  }

  /** Collapsing removes line breaks and nothing else. */
  lemma {:induction false} CollapseKeepsText(s: string)
    ensures DropNewlines(CollapseBlankLines(s)) == DropNewlines(s)
    decreases |s|
  {
    if s != [] {
      if Lead(s) >= 3 {
        var t := SkipRun(s, {'\n'});
        CollapseKeepsText(t);
        DropNewlinesSkip(s);
        var rt := CollapseBlankLines(t);
        assert CollapseBlankLines(s) == "\n\n" + rt;
        DropNewlinesCons('\n', "\n" + rt);
        DropNewlinesCons('\n', rt);
        assert "\n\n" + rt == ['\n'] + (['\n'] + rt);
      } else {
        CollapseKeepsText(s[1..]);
        assert CollapseBlankLines(s) == [s[0]] + CollapseBlankLines(s[1..]);
        DropNewlinesCons(s[0], CollapseBlankLines(s[1..]));
        DropNewlinesCons(s[0], s[1..]);
        assert [s[0]] + s[1..] == s;
      }
    }
  }

  /** A part of a text without triple line breaks has none either. */
  lemma NoTripleInfix(s: string, a: nat, n: nat)
    requires a + n <= |s|
    requires NoTripleNewline(s)
    ensures NoTripleNewline(s[a..a + n])
  {
    var t := s[a..a + n];
    forall i ensures !MatchAt(t, Triple, i) {
      if MatchAt(t, Triple, i) {
        forall k | i <= k < i + 3 ensures t[k] == s[a + k] == '\n' {
          assert t[k] == t[i..i + 3][k - i];
        }
        assert s[a + i..a + i + 3] == Triple;
        assert MatchAt(s, Triple, a + i);
      }
    }
  }

  /** Trimming keeps a text free of triple line breaks. */
  lemma TrimKeepsNoTriple(s: string)
    requires NoTripleNewline(s)
    ensures NoTripleNewline(Trim(s))
  {
    TrimInfix(s);
    NoTripleInfix(s, |s| - |TrimStart(s)|, |Trim(s)|);
  }

  // ---------------------------------------------------------------------------
  // The whole rewrite
  // ---------------------------------------------------------------------------

  /** Everything before the blank-line collapse. */
  function Unwrapped(content: string): string {
    RemoveWrappers(RemoveCommentLines(RemoveImportLines(RemoveMdxCodeBlocks(Body(content)))))
  }

  /**
    `cleanMdxContent`: the trimmed, collapsed text, which has no white space at
    either end and no three consecutive line breaks.
   */
  function CleanMdxContent(content: string): (r: string)
    ensures NoEdgeSpace(r)
    ensures NoTripleNewline(r)
  {
    var c := CollapseBlankLines(Unwrapped(content));
    TrimKeepsNoTriple(c);
    Trim(c)
  }

  // ---------------------------------------------------------------------------
  // Wrappers keep what they wrap
  // ---------------------------------------------------------------------------

  lemma TagSkipped(s: string, open: string, ci: bool)
    requires s != [] && open != [] && !Opens(s, open, ci)
    ensures RemoveTags(s, open, ci) == [s[0]] + RemoveTags(s[1..], open, ci)
  {
  }

  lemma LiteralSkipped(s: string, lit: string, ci: bool)
    requires s != [] && lit != [] && !Opens(s, lit, ci)
    ensures RemoveLiteral(s, lit, ci) == [s[0]] + RemoveLiteral(s[1..], lit, ci)
  {
  }

  /** A piece that differs from `p` at some index does not open with `p`. */
  lemma NotOpens(x: string, rest: string, p: string, k: nat)
    requires k < |x| && k < |p| && x[k] != p[k]
    ensures !Opens(x + rest, p, false)
  {
    assert (x + rest)[k] == x[k];
  }

  /** A piece that begins with a `<` not opening `open`, and holds no other `<`, is kept. */
  lemma AngleKept(x: string, rest: string, open: string, k: nat)
    requires x != [] && NoneIn(x[1..], {'<'})
    requires open != [] && open[0] == '<'
    requires k < |x| && k < |open| && x[k] != open[k]
    ensures RemoveTags(x + rest, open, false) == x + RemoveTags(rest, open, false)
  {
    var ci := false;
    var s := x + rest;
    NotOpens(x, rest, open, k);
    assert s[1..] == x[1..] + rest;
    assert s[0] == x[0];
    TagSkipped(s, open, ci);
    TextBeforeTagKept(x[1..], rest, open, ci);
    var r := RemoveTags(rest, open, ci);
    assert [x[0]] + (x[1..] + r) == ([x[0]] + x[1..]) + r;
    assert [x[0]] + x[1..] == x;
  }

  /** The same for the removal of a closing tag. */
  lemma AngleKeptLiteral(x: string, rest: string, lit: string, k: nat)
    requires x != [] && NoneIn(x[1..], {'<'})
    requires lit != [] && lit[0] == '<'
    requires k < |x| && k < |lit| && x[k] != lit[k]
    ensures RemoveLiteral(x + rest, lit, false) == x + RemoveLiteral(rest, lit, false)
  {
    var ci := false;
    var s := x + rest;
    NotOpens(x, rest, lit, k);
    assert s[1..] == x[1..] + rest;
    assert s[0] == x[0];
    LiteralSkipped(s, lit, ci);
    TextBeforeLiteralKept(x[1..], rest, lit, ci);
    var r := RemoveLiteral(rest, lit, ci);
    assert [x[0]] + (x[1..] + r) == ([x[0]] + x[1..]) + r;
    assert [x[0]] + x[1..] == x;
  }

  const NL := "\n"
  const TabsClose := "</Tabs>"
  const TabItemClose := "</TabItem>"

  function TabsOpen(attrs: string): string { "<Tabs" + attrs + ">" }
  function TabItemOpen(attrs: string): string { "<TabItem" + attrs + ">" }

  /**
    A page that is a `Tabs` wrapper around one `TabItem` around one line of
    text, each tag on a line of its own:
    `<Tabs a>`, `<TabItem b>`, the text, `</TabItem>`, `</Tabs>`.
   */
  function TabsPage(a: string, b: string, text: string): string {
    TabsOpen(a) + (NL + (TabItemOpen(b) + (NL + (text + (NL + Closers())))))
  }

  /** The conditions under which the example page keeps its text. */
  predicate PlainAttrs(a: string) {
    NoneIn(a, {'<', '>', '\n', '`'})
  }

  predicate PlainLine(text: string) {
    text != [] && NoEdgeSpace(text) && NoneIn(text, {'<', '\n', '`'})
    && !IsImportLine(text) && !IsCommentLine(text)
  }

  /** A line of plain text between two line breaks is kept by a tag removal. */
  lemma PlainLineKept(text: string, rest: string, open: string)
    requires open != [] && open[0] == '<' && NoneIn(text, {'<'})
    ensures RemoveTags(NL + (text + (NL + rest)), open, false) == NL + (text + (NL + RemoveTags(rest, open, false)))
  {
    TextBeforeTagKept(NL, text + (NL + rest), open, false);
    TextBeforeTagKept(text, NL + rest, open, false);
    TextBeforeTagKept(NL, rest, open, false);
  }

  /** The same for a closing-tag removal. */
  lemma PlainLineKeptLiteral(text: string, rest: string, lit: string)
    requires lit != [] && lit[0] == '<' && NoneIn(text, {'<'})
    ensures RemoveLiteral(NL + (text + (NL + rest)), lit, false) == NL + (text + (NL + RemoveLiteral(rest, lit, false)))
  {
    TextBeforeLiteralKept(NL, text + (NL + rest), lit, false);
    TextBeforeLiteralKept(text, NL + rest, lit, false);
    TextBeforeLiteralKept(NL, rest, lit, false);
  }

  /** The two closing tags at the end of the example page. */
  function Closers(): string { TabItemClose + (NL + TabsClose) }

  lemma ClosersKeptByTabs()
    ensures RemoveTags(Closers(), "<Tabs", false) == Closers()
  {
    TwoAnglesKept(TabItemClose, TabsClose, "<Tabs", 1, 1);
  }

  /** Two lines that start with `<` and differ from `open` at the given positions are left alone. */
  lemma TwoAnglesKept(x: string, y: string, open: string, kx: nat, ky: nat)
    requires x != [] && NoneIn(x[1..], {'<'}) && kx < |x| && kx < |open| && x[kx] != open[kx]
    requires y != [] && NoneIn(y[1..], {'<'}) && ky < |y| && ky < |open| && y[ky] != open[ky]
    requires open[0] == '<'
    ensures RemoveTags(x + (NL + y), open, false) == x + (NL + y)
  {
    AngleKept(x, NL + y, open, kx);
    TextBeforeTagKept(NL, y, open, false);
    assert y + [] == y;
    AngleKept(y, [], open, ky);
  }


  lemma ClosersLoseTabs()
    ensures RemoveLiteral(Closers(), TabsClose, false) == TabItemClose + NL
  {
    AngleKeptLiteral(TabItemClose, NL + TabsClose, TabsClose, 5);
    TextBeforeLiteralKept(NL, TabsClose, TabsClose, false);
    assert TabsClose + [] == TabsClose;
    LiteralRemoved(TabsClose, [], false);
    assert NL + [] == NL;
  }

  lemma CloserKeptByTabItem()
    ensures RemoveTags(TabItemClose + NL, "<TabItem", false) == TabItemClose + NL
  {
    AngleKept(TabItemClose, NL, "<TabItem", 1);
  }

  lemma CloserLosesTabItem()
    ensures RemoveLiteral(TabItemClose + NL, TabItemClose, false) == NL
  {
    LiteralRemoved(TabItemClose, NL, false);
  }

  lemma TabsPass(a: string, b: string, text: string)
    requires NoneIn(a, {'>'}) && NoneIn(b, {'<'}) && NoneIn(text, {'<'})
    ensures RemoveTags(TabsPage(a, b, text), "<Tabs", false)
      == NL + (TabItemOpen(b) + (NL + (text + (NL + Closers()))))
  {
    var o := "<Tabs";
    var r2 := NL + (text + (NL + Closers()));
    TagRemoved(o, a, NL + (TabItemOpen(b) + r2), false);
    TextBeforeTagKept(NL, TabItemOpen(b) + r2, o, false);
    TagShapes(b);
    AngleKept(TabItemOpen(b), r2, o, 4);
    PlainLineKept(text, Closers(), o);
    ClosersKeptByTabs();
  }

  lemma TabsClosePass(b: string, text: string)
    requires NoneIn(b, {'<'}) && NoneIn(text, {'<'})
    ensures RemoveLiteral(NL + (TabItemOpen(b) + (NL + (text + (NL + Closers())))), TabsClose, false)
      == NL + (TabItemOpen(b) + (NL + (text + (NL + (TabItemClose + NL)))))
  {
    var o := TabsClose;
    var r2 := NL + (text + (NL + Closers()));
    TextBeforeLiteralKept(NL, TabItemOpen(b) + r2, o, false);
    TagShapes(b);
    AngleKeptLiteral(TabItemOpen(b), r2, o, 1);
    PlainLineKeptLiteral(text, Closers(), o);
    ClosersLoseTabs();
  }

  lemma TabItemPass(b: string, text: string)
    requires NoneIn(b, {'>'}) && NoneIn(text, {'<'})
    ensures RemoveTags(NL + (TabItemOpen(b) + (NL + (text + (NL + (TabItemClose + NL))))), "<TabItem", false)
      == NL + (NL + (text + (NL + (TabItemClose + NL))))
  {
    var o := "<TabItem";
    var r2 := NL + (text + (NL + (TabItemClose + NL)));
    TextBeforeTagKept(NL, TabItemOpen(b) + r2, o, false);
    TagRemoved(o, b, r2, false);
    PlainLineKept(text, TabItemClose + NL, o);
    CloserKeptByTabItem();
  }

  lemma TabItemClosePass(text: string)
    requires NoneIn(text, {'<'})
    ensures RemoveLiteral(NL + (NL + (text + (NL + (TabItemClose + NL)))), TabItemClose, false)
      == NL + (NL + (text + (NL + NL)))
  {
    var o := TabItemClose;
    TextBeforeLiteralKept(NL, NL + (text + (NL + (TabItemClose + NL))), o, false);
    PlainLineKeptLiteral(text, TabItemClose + NL, o);
    CloserLosesTabItem();
  }

  lemma TagShapes(b: string)
    requires NoneIn(b, {'<'})
    ensures |TabItemOpen(b)| > 5 && TabItemOpen(b)[0] == '<' && TabItemOpen(b)[1] == 'T' && TabItemOpen(b)[4] == 'I'
    ensures NoneIn(TabItemOpen(b)[1..], {'<'})
  {
    var t := TabItemOpen(b);
    assert t == "<TabItem" + b + ">";
    forall i | 1 <= i < |t| ensures t[i] != '<' {
      if 8 <= i < |t| - 1 {
        assert t[i] == b[i - 8];
      }
    }
  }

  /** Splitting off one line that holds no line break. */
  lemma SplitLine(x: string, rest: string)
    requires NoneIn(x, {'\n'})
    ensures SplitOn(x + (NL + rest), {'\n'}) == [x] + SplitOn(rest, {'\n'})
  {
    assert x + (NL + rest) == x + ['\n'] + rest;
    SplitOnAppend(x, '\n', rest, {'\n'});
    SplitOnNoSep(x, {'\n'});
  }

  /** The characters of the two opening tags: those of the attributes and of the tag names. */
  lemma OpenTagChars(a: string, b: string, cs: set<char>)
    requires NoneIn(a, cs) && NoneIn(b, cs)
    requires NoneIn("<Tabs>", cs) && NoneIn("<TabItem>", cs)
    ensures NoneIn(TabsOpen(a), cs) && NoneIn(TabItemOpen(b), cs)
  {
    var t := TabsOpen(a);
    forall i | 0 <= i < |t| ensures t[i] !in cs {
      if i < 5 { assert t[i] == "<Tabs>"[i]; }
      else if i < |t| - 1 { assert t[i] == a[i - 5]; }
      else { assert t[i] == "<Tabs>"[5]; }
    }
    var u := TabItemOpen(b);
    forall i | 0 <= i < |u| ensures u[i] !in cs {
      if i < 8 { assert u[i] == "<TabItem>"[i]; }
      else if i < |u| - 1 { assert u[i] == b[i - 8]; }
      else { assert u[i] == "<TabItem>"[8]; }
    }
  }

  lemma ClosersLines()
    ensures SplitOn(Closers(), {'\n'}) == [TabItemClose, TabsClose]
  {
    TwoLines(TabItemClose, TabsClose);
  }

  lemma TwoLines(x: string, y: string)
    requires NoneIn(x, {'\n'}) && NoneIn(y, {'\n'})
    ensures SplitOn(x + (NL + y), {'\n'}) == [x, y]
  {
    SplitLine(x, y);
    SplitOnNoSep(y, {'\n'});
  }


  /** The example page has five lines. */
  lemma TabsPageLines(a: string, b: string, text: string)
    requires NoneIn(a, {'\n'}) && NoneIn(b, {'\n'}) && NoneIn(text, {'\n'})
    ensures SplitOn(TabsPage(a, b, text), {'\n'}) == [TabsOpen(a), TabItemOpen(b), text, TabItemClose, TabsClose]
  {
    OpenTagChars(a, b, {'\n'});
    ClosersLines();
    SplitLine(text, Closers());
    SplitLine(TabItemOpen(b), text + (NL + Closers()));
    SplitLine(TabsOpen(a), TabItemOpen(b) + (NL + (text + (NL + Closers()))));
  }

  /** A line that begins with `<` is neither an import nor a comment line. */
  lemma AngleLineKept(l: string)
    requires l != [] && l[0] == '<'
    ensures !IsImportLine(l) && !IsCommentLine(l)
  {
    if |l| >= 8 { assert l[..6][0] == l[0]; }
    if |l| >= 10 { assert l[..10][0] == l[0]; }
  }

  /** None of the five lines is an import or a comment line, so both removals keep the page. */
  lemma TabsPageLinesKept(a: string, b: string, text: string)
    requires NoneIn(a, {'\n'}) && NoneIn(b, {'\n'}) && NoneIn(text, {'\n'})
    requires !IsImportLine(text) && !IsCommentLine(text)
    ensures RemoveCommentLines(RemoveImportLines(TabsPage(a, b, text))) == TabsPage(a, b, text)
  {
    var page := TabsPage(a, b, text);
    var lines := [TabsOpen(a), TabItemOpen(b), text, TabItemClose, TabsClose];
    TabsPageLines(a, b, text);
    AngleLineKept(TabsOpen(a));
    AngleLineKept(TabItemOpen(b));
    AngleLineKept(TabItemClose);
    AngleLineKept(TabsClose);
    assert forall i :: 0 <= i < |lines| ==> !Doomed(lines[i], false) && !Doomed(lines[i], true);
    LinesKept(page, lines, false);
    LinesKept(page, lines, true);
  }

  lemma LinesKept(s: string, lines: seq<string>, comments: bool)
    requires SplitOn(s, {'\n'}) == lines
    requires forall i :: 0 <= i < |lines| ==> !Doomed(lines[i], comments)
    ensures RemoveMatchingLines(s, comments) == s
  {
    NoDoomedLineKept(s, comments);
  }


  /** Plain text followed by a text without triple line breaks has none. */
  lemma {:induction false} PlainBeforeNoTriple(x: string, s: string)
    requires NoneIn(x, {'\n'}) && NoTripleNewline(s)
    ensures NoTripleNewline(x + s)
    decreases |x|
  {
    if x != [] {
      PlainBeforeNoTriple(x[1..], s);
      ConsNoTriple(x[0], x[1..] + s);
      assert [x[0]] + (x[1..] + s) == x + s;
    } else {
      assert x + s == s;
    }
  }

  /** The blank-line collapse and the trim leave the text between its two line-break pairs. */
  lemma FramedTextCleaned(text: string)
    requires PlainLine(text)
    ensures Trim(CollapseBlankLines(NL + (NL + (text + (NL + NL))))) == text
  {
    var tail := NL + NL;
    ConsNoTriple('\n', []);
    assert NL == ['\n'] + [];
    ConsNoTriple('\n', NL);
    assert NL + NL == ['\n'] + NL;
    PlainBeforeNoTriple(text, tail);
    var mid := text + tail;
    assert Lead(mid) == 0;
    ConsNoTriple('\n', mid);
    LeadCons('\n', mid);
    ConsNoTriple('\n', NL + mid);
    var s := NL + (NL + mid);
    CollapseKeepsClean(s);
    // trimming: the leading and trailing line breaks go, the text stays
    assert s == (NL + NL + text) + ['\n'] + ['\n'];
    TrimAppendSpace(NL + NL + text + ['\n'], '\n');
    TrimAppendSpace(NL + NL + text, '\n');
    var u := NL + NL + text;
    assert u[1..] == NL + text && (NL + text)[1..] == text;
    assert TrimStart(u) == TrimStart(text) == text;
    TrimNoEdge(text);
  }

  /** Everything up to the wrapper removal leaves the example page as it is. */
  lemma TabsPageUntouched(a: string, b: string, text: string)
    requires PlainAttrs(a) && PlainAttrs(b) && PlainLine(text)
    ensures Unwrapped(TabsPage(a, b, text)) == RemoveWrappers(TabsPage(a, b, text))
  {
    var page := TabsPage(a, b, text);
    assert page[0] == '<';
    assert Body(page) == page;
    OpenTagChars(a, b, {'`'});
    var tail := NL + (TabItemOpen(b) + (NL + (text + (NL + Closers()))));
    assert NoneIn(tail, {'`'});
    assert NoneIn(page, {'`'});
    assert RemoveMdxCodeBlocks(page) == page;
    TabsPageLinesKept(a, b, text);
  }

  /** The eight wrapper removals leave the text between two pairs of line breaks. */
  lemma TabsPageUnwrapped(a: string, b: string, text: string)
    requires PlainAttrs(a) && PlainAttrs(b) && PlainLine(text)
    ensures RemoveWrappers(TabsPage(a, b, text)) == NL + (NL + (text + (NL + NL)))
  {
    TabsRemoved(a, b, text);
    assert NoneIn(NL + (NL + (text + (NL + NL))), {'<'});
  }

  lemma TabsRemoved(a: string, b: string, text: string)
    requires PlainAttrs(a) && PlainAttrs(b) && PlainLine(text)
    ensures RemoveTabs(TabsPage(a, b, text)) == NL + (NL + (text + (NL + NL)))
  {
    TabsPass(a, b, text);
    TabsClosePass(b, text);
    TabItemPass(b, text);
    TabItemClosePass(text);
  }

  /**
    The wrapper tags go and what they wrap stays: a `Tabs`/`TabItem` page around
    one line of plain text cleans to that text.
   */
  lemma TabsKeepInnerText(a: string, b: string, text: string)
    requires PlainAttrs(a) && PlainAttrs(b) && PlainLine(text)
    ensures CleanMdxContent(TabsPage(a, b, text)) == text
  {
    TabsPageUntouched(a, b, text);
    TabsPageUnwrapped(a, b, text);
    FramedTextCleaned(text);
  }

  /**
    The wrapper example of the per-page script: the page
    `<Tabs defaultValue="a">`, `<TabItem value="a">`, `Hello`, `</TabItem>`,
    `</Tabs>` (one per line) cleans to `Hello`.
   */
  lemma TabsHelloExample(page: string)
    requires page == "<Tabs defaultValue=\"a\">" + ("\n" + ("<TabItem value=\"a\">" + ("\n" + ("Hello"
      + ("\n" + ("</TabItem>" + ("\n" + "</Tabs>")))))))
    ensures CleanMdxContent(page) == "Hello"
  {
    // Bound by `:|` rather than `:=`, so that the literals stay out of this proof's
    // unfolding of the recursive cleaners; HelloPieces alone relates them to the page.
    var a: string :| a == " defaultValue=\"a\"";
    var b: string :| b == " value=\"a\"";
    var text: string :| text == "Hello";
    HelloPieces(a, b, text, page);
    TabsKeepInnerText(a, b, text);
  }

  lemma HelloPieces(a: string, b: string, text: string, page: string)
    requires a == " defaultValue=\"a\"" && b == " value=\"a\"" && text == "Hello"
    requires page == "<Tabs defaultValue=\"a\">" + ("\n" + ("<TabItem value=\"a\">" + ("\n" + ("Hello"
      + ("\n" + ("</TabItem>" + ("\n" + "</Tabs>")))))))
    ensures PlainAttrs(a) && PlainAttrs(b) && PlainLine(text)
    ensures TabsPage(a, b, text) == page
  {
    assert TabsOpen(a) == "<Tabs defaultValue=\"a\">";
    assert TabItemOpen(b) == "<TabItem value=\"a\">";
  }
}
