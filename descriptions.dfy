/**
  Descriptions in the llms index: the `isPoorDescription` quality gate, the
  brand taken from the site title (`brandFromTitle`), the description
  generated from a page's path (`generatedDescriptionFromPath`) and the
  400-character clipping of `main`.
 */
module Descriptions {
  import opened Wrappers
  import opened Text
  import opened Urls
  import opened Titles

  // ---------------------------------------------------------------------------
  // isPoorDescription
  // ---------------------------------------------------------------------------

  /** `/p/i.test(d)`: `p` occurs somewhere in `d`, ignoring ASCII case. */
  predicate ContainsCI(d: string, p: string) {
    exists i :: 0 <= i <= |d| - |p| && MatchAtCI(d, p, i)
  }

  /** `/^p/m.test(d)`: some line of `d` starts with `p`. */
  predicate SomeLineStartsWith(d: string, p: string) {
    exists i :: 0 <= i <= |d| && (i == 0 || d[i - 1] in LineTerminators) && MatchAt(d, p, i)
  }

  /** `please\s+take\s+note`, ignoring case, at index `i`. */
  predicate PleaseTakeNoteAt(d: string, i: nat) {
    MatchAtCI(d, "please", i)
    && var r1 := SkipRun(d[i + 6..], Whitespace);
    |r1| < |d| - (i + 6) && MatchAtCI(r1, "take", 0)
    && var r2 := SkipRun(r1[4..], Whitespace);
    |r2| < |r1| - 4 && MatchAtCI(r2, "note", 0)
  }

  predicate HasPleaseTakeNote(d: string) {
    exists i :: 0 <= i < |d| && PleaseTakeNoteAt(d, i)
  }

  /**
    `isPoorDescription`: empty, blank, a code fence, MDX code-block residue, an
    admonition, a "please take note" notice, or shorter than 20 once trimmed,
    counted as JavaScript's `length` counts: in UTF-16 code units.
   */
  predicate IsPoorDescription(desc: string) {
    var d := Trim(desc);
    || desc == ""
    || d == ""
    || StartsWith(d, "```")
    || ContainsCI(d, "mdx-code-block")
    || SomeLineStartsWith(d, ":::")
    || HasPleaseTakeNote(d)
    || Utf16Length(d) < 20
  }

  /** Trailing white space does not change the verdict. */
  lemma PoorIgnoresTrailingSpace(desc: string, c: char)
    requires IsSpace(c)
    ensures IsPoorDescription(desc + [c]) == IsPoorDescription(desc)
  {
    TrimAppendSpace(desc, c);
    if desc == "" {
      TrimStartAllSpace([c]);
      assert desc + [c] == [c];
    }
  }

  predicate IsAlnum(c: char) {
    'a' <= c <= 'z' || 'A' <= c <= 'Z' || '0' <= c <= '9'
  }

  /** Plain text: ASCII letters and digits only. */
  predicate PlainText(d: string) {
    forall i :: 0 <= i < |d| ==> IsAlnum(d[i])
  }

  /**
    Plain text of 20 or more characters is not poor: it holds no code fence,
    no `mdx-code-block`, no `:::` and no white space for "please take note".
   */
  lemma PlainTextIsNotPoor(d: string)
    requires |d| >= 20 && PlainText(d)
    ensures !IsPoorDescription(d)
  {
    TrimNoEdge(d);
    assert d[0] != '`' && d[0] != ':';
    PlainHasNoCodeBlock(d);
    PlainHasNoAdmonition(d);
    PlainHasNoNotice(d);
  }

  lemma PlainHasNoCodeBlock(d: string)
    requires PlainText(d)
    ensures !ContainsCI(d, "mdx-code-block")
  {
    forall i | 0 <= i <= |d| - 14
      ensures !MatchAtCI(d, "mdx-code-block", i)
    {
      assert LowerStr(d[i..i + 14])[3] == Lower(d[i + 3]);
      assert LowerStr("mdx-code-block")[3] == '-';
    }
  }

  lemma PlainHasNoAdmonition(d: string)
    requires d != [] && PlainText(d)
    ensures !SomeLineStartsWith(d, ":::")
  {
    assert d[0] != ':';
    assert forall i :: 0 <= i < |d| ==> d[i] !in LineTerminators;
  }

  lemma PlainHasNoNotice(d: string)
    requires PlainText(d)
    ensures !HasPleaseTakeNote(d)
  {
    forall i | 0 <= i < |d|
      ensures !PleaseTakeNoteAt(d, i)
    {
      NoSpaceAfterPlease(d, i);
    }
  }

  lemma NoSpaceAfterPlease(d: string, i: nat)
    requires PlainText(d) && i < |d|
    ensures !PleaseTakeNoteAt(d, i)
  {
    if i + 6 <= |d| {
      var rest := d[i + 6..];
      if rest != [] {
        assert rest[0] == d[i + 6];
        assert !IsSpace(rest[0]);
      }
      assert SkipRun(rest, Whitespace) == rest;
    }
  }

  // ---------------------------------------------------------------------------
  // brandFromTitle
  // ---------------------------------------------------------------------------

  /** White space then `word` at the very end of `t`, ignoring case. */
  predicate EndsWithWord(t: string, word: string) {
    |t| > |word| && IsSpace(t[|t| - |word| - 1]) && EndsWithCI(t, word)
  }

  /**
    `replace(/\s+(Docs|Documentation)$/i, '')` followed by `trim()`. The
    pattern removes the whole white-space run before the word; only its last
    character is removed here, which the trim makes no difference to.
   */
  function StripDocsSuffix(t: string): (r: string)
    ensures |r| <= |t|
  {
    if EndsWithWord(t, "docs") then t[..|t| - 5]
    else if EndsWithWord(t, "documentation") then t[..|t| - 14]
    else t
  }

  /** `brandFromTitle`: "MultiversX" for an empty title, else the title without a trailing "Docs"/"Documentation", trimmed. */
  function BrandFromTitle(siteTitle: string): (brand: string)
    ensures NoEdgeSpace(brand)
    ensures siteTitle == "" ==> brand == "MultiversX"
  {
    if siteTitle == "" then "MultiversX" else Trim(StripDocsSuffix(siteTitle))
  }

  /** A trailing white-space character and "docs", in any case, is removed from a trimmed title. */
  lemma BrandStripsDocs(b: string, w: string)
    requires NoEdgeSpace(b) && LowerStr(w) == "docs"
    ensures BrandFromTitle(b + " " + w) == b
  {
    var t := b + " " + w;
    LowerKeeps("docs");
    assert t[|t| - 4..] == w;
    assert EndsWithCI(t, "docs");
    assert t[|t| - 5] == ' ';
    assert EndsWithWord(t, "docs");
    assert StripDocsSuffix(t) == t[..|t| - 5] == b;
    TrimNoEdge(b);
  }

  /** Lowering a string without capital letters leaves it unchanged. */
  lemma LowerKeeps(w: string)
    requires forall i :: 0 <= i < |w| ==> !('A' <= w[i] <= 'Z')
    ensures LowerStr(w) == w
  {
    assert forall i :: 0 <= i < |w| ==> LowerStr(w)[i] == w[i];
  }

  /** The same for "documentation", in any case. */
  lemma BrandStripsDocumentation(b: string, w: string)
    requires NoEdgeSpace(b) && LowerStr(w) == "documentation"
    ensures BrandFromTitle(b + " " + w) == b
  {
    var t := b + " " + w;
    LowerKeeps("documentation");
    assert t[|t| - 13..] == w;
    assert EndsWithCI(t, "documentation");
    assert t[|t| - 14] == ' ';
    assert EndsWithWord(t, "documentation");
    LastLetterDiffers(t, "docs");
    assert StripDocsSuffix(t) == t[..|t| - 14] == b;
    TrimNoEdge(b);
  }

  /** A string whose last letter differs, ignoring case, does not end with `p`. */
  lemma LastLetterDiffers(s: string, p: string)
    requires 0 < |p| <= |s| && Lower(s[|s| - 1]) != Lower(p[|p| - 1])
    ensures !EndsWithCI(s, p)
  {
    var k := |s| - |p|;
    assert LowerStr(s[k..k + |p|])[|p| - 1] == Lower(s[|s| - 1]);
  }

  /** A trimmed title without such a suffix is its own brand. */
  lemma BrandKeepsOtherTitles(t: string)
    requires t != "" && NoEdgeSpace(t)
    requires !EndsWithWord(t, "docs") && !EndsWithWord(t, "documentation")
    ensures BrandFromTitle(t) == t
  {
    TrimNoEdge(t);
  }

  // ---------------------------------------------------------------------------
  // generatedDescriptionFromPath
  // ---------------------------------------------------------------------------

  /** `parts.filter((p) => p !== 'index')`. */
  function DropIndex(parts: seq<string>): (r: seq<string>)
    ensures |r| <= |parts|
    ensures forall i :: 0 <= i < |r| ==> r[i] != "index" && r[i] in parts
    ensures forall p :: p in parts && p != "index" ==> p in r
    ensures "index" !in parts ==> r == parts
  {
    if parts == [] then []
    else if parts[0] == "index" then DropIndex(parts[1..])
    else [parts[0]] + DropIndex(parts[1..])
  }

  lemma {:induction false} DropIndexAppend(a: seq<string>, b: seq<string>)
    ensures DropIndex(a + b) == DropIndex(a) + DropIndex(b)
    decreases |a|
  {
    if a == [] {
      assert a + b == b;
    } else {
      assert (a + b)[0] == a[0];
      assert (a + b)[1..] == a[1..] + b;
      DropIndexAppend(a[1..], b);
    }
  }

  /** The path segments that name the page: non-empty, not `index`, without a trailing `overview` unless it is alone. */
  function Segments(ref: string): (parts: seq<string>)
    ensures forall i :: 0 <= i < |parts| ==> parts[i] != "" && parts[i] != "index"
  {
    DropOverview(DropIndex(NonEmpty(SplitOn(ref, {'/'}))))
  }

  /** A last `overview` segment (in any case) is dropped when another segment precedes it. */
  function DropOverview(parts: seq<string>): (r: seq<string>)
    ensures |r| <= |parts| && r == parts[..|r|]
    ensures |parts| >= 1 ==> |r| >= 1
  {
    if |parts| >= 2 && LowerStr(parts[|parts| - 1]) == "overview" then parts[..|parts| - 1] else parts
  }

  function HumanizeAll(parts: seq<string>): (r: seq<string>)
    ensures |r| == |parts|
  {
    seq(|parts|, i requires 0 <= i < |parts| => HumanizeSegmentForDescription(parts[i]))
  }

  const LearnMore := "Learn more about "

  /** The path a description is generated from: the file's docs-relative path without extension, else the id. */
  function Reference(idOrPath: string, filePath: Option<string>): (ref: string)
    ensures filePath.None? ==> ref == idOrPath
  {
    if filePath.Some? && filePath.value != "" then StripDocExtension(filePath.value) else idOrPath
  }

  /** The description of a page with the given segments. */
  function Describe(parts: seq<string>, brand: string): string {
    if |parts| == 0 then LearnMore + brand + " documentation"
    else Trim(LearnMore + brand + " " + JoinWith(HumanizeAll(parts), " "))
  }

  /**
    `generatedDescriptionFromPath`: "Learn more about", the brand, and the
    humanised segments of the docs-relative path without extension (or of the
    id when there is no file), or "documentation" when no segment is left.
   */
  function GeneratedDescriptionFromPath(idOrPath: string, filePath: Option<string>, brand: string): (r: string)
    ensures r != ""
    ensures brand != "" && NoEdgeSpace(brand) ==> StartsWith(r, LearnMore + brand)
  {
    var parts := Segments(Reference(idOrPath, filePath));
    DescribeNotEmpty(parts, brand);
    if brand != "" && NoEdgeSpace(brand) then
      DescribeNamesBrand(parts, brand);
      Describe(parts, brand)
    else Describe(parts, brand)
  }

  /** Every generated description begins with "Learn more about" and a trimmed, non-empty brand. */
  lemma GeneratedNamesBrand(idOrPath: string, filePath: Option<string>, brand: string)
    requires brand != "" && NoEdgeSpace(brand)
    ensures StartsWith(GeneratedDescriptionFromPath(idOrPath, filePath, brand), LearnMore + brand)
  {
    DescribeNamesBrand(Segments(Reference(idOrPath, filePath)), brand);
  }

  lemma DescribeNamesBrand(parts: seq<string>, brand: string)
    requires brand != "" && NoEdgeSpace(brand)
    ensures StartsWith(Describe(parts, brand), LearnMore + brand)
  {
    var pre := LearnMore + brand;
    if |parts| != 0 {
      var tail := DescribeWords(parts, brand);
      BrandPrefixSurvivesTrim(brand, tail);
    } else {
      assert (pre + " documentation")[..|pre|] == pre;
    }
  }

  /** With segments, the description is the trim of the brand sentence and a space-led tail. */
  lemma DescribeWords(parts: seq<string>, brand: string) returns (tail: string)
    requires |parts| != 0
    ensures Describe(parts, brand) == Trim(LearnMore + brand + tail)
  {
    var words := JoinWith(HumanizeAll(parts), " ");
    tail := " " + words;
    assert LearnMore + brand + " " + words == LearnMore + brand + tail;
  }

  lemma BrandPrefixSurvivesTrim(brand: string, tail: string)
    requires brand != "" && NoEdgeSpace(brand)
    ensures StartsWith(Trim(LearnMore + brand + tail), LearnMore + brand)
  {
    var pre := LearnMore + brand;
    assert pre[0] == 'L' && pre[|pre| - 1] == brand[|brand| - 1];
    TrimKeepsPrefix(pre, tail);
  }

  /** A generated description always has text. */
  lemma GeneratedNotEmpty(idOrPath: string, filePath: Option<string>, brand: string)
    ensures GeneratedDescriptionFromPath(idOrPath, filePath, brand) != ""
  {
    DescribeNotEmpty(Segments(Reference(idOrPath, filePath)), brand);
  }

  lemma DescribeNotEmpty(parts: seq<string>, brand: string)
    ensures Describe(parts, brand) != ""
  {
    if |parts| != 0 {
      var words := JoinWith(HumanizeAll(parts), " ");
      var full := LearnMore + brand + " " + words;
      assert Describe(parts, brand) == Trim(full);
      FullDescriptionNotEmpty(full, brand, words);
    }
  }
  lemma FullDescriptionNotEmpty(full: string, brand: string, words: string)
    requires full == LearnMore + brand + " " + words
    ensures Trim(full) != ""
  {
      assert full[0] == 'L';
      TrimNonEmpty(full);
  }

  /** Trimming keeps a prefix that starts and ends with non-space characters. */
  lemma TrimKeepsPrefix(p: string, s: string)
    requires p != [] && !IsSpace(p[0]) && !IsSpace(p[|p| - 1])
    ensures StartsWith(Trim(p + s), p)
  {
    var t := p + s;
    assert t[0] == p[0];
    TrimStartSuffix(t);
    assert TrimStart(t) == t;
    TrimEndPrefix(t);
    var r := TrimEnd(t);
    assert t[|p| - 1] == p[|p| - 1];
    assert |r| >= |p|;
    assert r[..|p|] == t[..|p|] == p;
  }

  /** A last `index` segment names nothing: the segments are those of its directory. */
  lemma IndexSegmentDropped(p: string)
    ensures DropIndex(NonEmpty(SplitOn(p + "/index", {'/'}))) == DropIndex(NonEmpty(SplitOn(p, {'/'})))
  {
    SplitOnAppend(p, '/', "index", {'/'});
    assert p + "/index" == p + ['/'] + "index";
    SplitOnNoSep("index", {'/'});
    var ps := NonEmpty(SplitOn(p, {'/'}));
    NonEmptyAppend(SplitOn(p, {'/'}), ["index"]);
    assert ["index"][1..] == [];
    assert NonEmpty(["index"]) == ["index"];
    DropIndexAppend(ps, ["index"]);
    assert DropIndex(["index"]) == [];
    assert DropIndex(ps) + [] == DropIndex(ps);
  }

  /** So `p/index` gets the description of `p`. */
  lemma IndexIsDropped(p: string, brand: string)
    ensures GeneratedDescriptionFromPath(p + "/index", None, brand) == GeneratedDescriptionFromPath(p, None, brand)
  {
    IndexSegmentDropped(p);
  }

  /**
    No segment is left exactly when every non-empty piece of the reference is
    `index`; the description then ends in "documentation" (for an empty path
    and for `index` among others).
   */
  lemma NoSegmentsGiveDocumentation(idOrPath: string, filePath: Option<string>, brand: string)
    ensures Segments(Reference(idOrPath, filePath)) == [] <==> AllIndex(NonEmpty(SplitOn(Reference(idOrPath, filePath), {'/'})))
    ensures Segments(Reference(idOrPath, filePath)) == [] ==>
      GeneratedDescriptionFromPath(idOrPath, filePath, brand) == LearnMore + brand + " documentation"
  {
    var ref := Reference(idOrPath, filePath);
    var ps := NonEmpty(SplitOn(ref, {'/'}));
    DropIndexEmptyIff(ps);
    var x := DropIndex(ps);
    assert Segments(ref) == DropOverview(x);
    assert Segments(ref) == [] <==> x == [];
  }

  /** Every segment is `index`. */
  predicate AllIndex(ps: seq<string>) {
    forall i :: 0 <= i < |ps| ==> ps[i] == "index"
  }

  /** `.filter(seg => seg !== 'index')` leaves nothing exactly when every segment is `index`. */
  lemma {:induction false} DropIndexEmptyIff(ps: seq<string>)
    ensures DropIndex(ps) == [] <==> AllIndex(ps)
    decreases |ps|
  {
    if ps != [] {
      DropIndexEmptyIff(ps[1..]);
      assert forall i :: 1 <= i < |ps| ==> ps[i] == ps[1..][i - 1];
    }
  }

  /** An empty path and a lone `index` leave no segment. */
  lemma EmptyAndIndexGiveDocumentation(brand: string)
    ensures GeneratedDescriptionFromPath("", None, brand) == LearnMore + brand + " documentation"
    ensures GeneratedDescriptionFromPath("index", None, brand) == LearnMore + brand + " documentation"
  {
    assert SplitOn("", {'/'}) == [""];
    assert [""][1..] == [];
    assert NonEmpty([""]) == [];
    SplitOnNoSep("index", {'/'});
    assert ["index"][1..] == [];
    assert NonEmpty(["index"]) == ["index"];
    assert DropIndex(["index"]) == [];
  }

  /** `seg/overview` has the segments of `seg`. */
  lemma OverviewSegmentDropped(seg: string)
    requires seg != "" && NoneIn(seg, {'/'}) && seg != "index"
    ensures Segments(seg + "/overview") == Segments(seg) == [seg]
  {
    var ov: string :| ov == "overview";
    assert seg + "/overview" == seg + ['/'] + ov;
    assert ov != "" && NoneIn(ov, {'/'}) && ov != "index";
    TwoPlainSegments(seg, ov);
    LowerOverview(ov);
    assert [seg, ov][..1] == [seg];
    OnePlainSegment(seg);
  }


  lemma LowerOverview(ov: string)
    requires ov == "overview"
    ensures LowerStr(ov) == "overview"
  {
    LowerKeeps(ov);
  }

  /** A single plain segment is its own list of segments. */
  lemma OnePlainSegment(seg: string)
    requires seg != "" && NoneIn(seg, {'/'}) && seg != "index"
    ensures DropIndex(NonEmpty(SplitOn(seg, {'/'}))) == [seg]
    ensures Segments(seg) == [seg]
  {
    SplitOnNoSep(seg, {'/'});
    assert [seg][1..] == [];
    assert NonEmpty([seg]) == [seg];
    assert DropIndex([seg]) == [seg];
  }

  /** Two plain segments joined by `/` are kept as they are before `overview` is considered. */
  lemma TwoPlainSegments(a: string, b: string)
    requires a != "" && NoneIn(a, {'/'}) && a != "index"
    requires b != "" && NoneIn(b, {'/'}) && b != "index"
    ensures DropIndex(NonEmpty(SplitOn(a + ['/'] + b, {'/'}))) == [a, b]
  {
    SplitOnAppend(a, '/', b, {'/'});
    SplitOnNoSep(a, {'/'});
    SplitOnNoSep(b, {'/'});
    var two := [a, b];
    assert [a] + [b] == two;
    assert two[1..] == [b];
    assert [b][1..] == [];
    assert NonEmpty([b]) == [b];
    assert NonEmpty(two) == two;
    assert DropIndex([b]) == [b];
    assert DropIndex(two) == two;
  }

  /**
    A last `overview` segment, in any case, is dropped when another segment
    precedes it once empty and `index` segments are gone; alone, it is kept.
   */
  lemma OverviewIsDropped(p: string, o: string, brand: string)
    requires LowerStr(o) == "overview"
    ensures var x := DropIndex(NonEmpty(SplitOn(p, {'/'})));
      Segments(p + "/" + o) == (if x == [] then [o] else x)
    ensures var x := DropIndex(NonEmpty(SplitOn(p, {'/'})));
      GeneratedDescriptionFromPath(p + "/" + o, None, brand) == Describe(if x == [] then [o] else x, brand)
  {
    var x := DropIndex(NonEmpty(SplitOn(p, {'/'})));
    OverviewAppended(p, o);
    assert Segments(p + "/" + o) == DropOverview(x + [o]);
    assert (x + [o])[..|x|] == x;
  }

  /** Before `overview` is considered, a plain last segment is appended to those of the directory. */
  lemma OverviewAppended(p: string, o: string)
    requires LowerStr(o) == "overview"
    ensures DropIndex(NonEmpty(SplitOn(p + "/" + o, {'/'}))) == DropIndex(NonEmpty(SplitOn(p, {'/'}))) + [o]
  {
    OverviewIsPlain(o);
    LastPlainSegment(p, o);
  }

  /** A plain last segment is appended to the segments of the directory. */
  lemma LastPlainSegment(p: string, o: string)
    requires o != "" && NoneIn(o, {'/'}) && o != "index"
    ensures DropIndex(NonEmpty(SplitOn(p + "/" + o, {'/'}))) == DropIndex(NonEmpty(SplitOn(p, {'/'}))) + [o]
  {
    var ps := NonEmpty(SplitOn(p, {'/'}));
    assert p + "/" + o == p + ['/'] + o;
    SplitOnAppend(p, '/', o, {'/'});
    SplitOnNoSep(o, {'/'});
    NonEmptyAppend(SplitOn(p, {'/'}), [o]);
    assert [o][1..] == [];
    assert NonEmpty([o]) == [o];
    DropIndexAppend(ps, [o]);
    assert DropIndex([o]) == [o];
  }

  /** Whatever its case, `overview` is a plain segment: non-empty, without `/`, not `index`. */
  lemma OverviewIsPlain(o: string)
    requires LowerStr(o) == "overview"
    ensures o != "" && NoneIn(o, {'/'}) && o != "index"
  {
    var ov := LowerStr(o);
    assert |o| == 8;
    forall i | 0 <= i < |o| ensures o[i] != '/' {
      assert ov[i] == Lower(o[i]);
      OverviewHasNoSlash(ov, i);
    }
  }

  lemma OverviewHasNoSlash(ov: string, i: int)
    requires ov == "overview" && 0 <= i < |ov|
    ensures ov[i] != '/'
  {
  }

  /** A lower-case word is described by itself after the brand. */
  lemma PlainWordDescribed(w: string, brand: string)
    requires w != [] && forall i :: 0 <= i < |w| ==> 'a' <= w[i] <= 'z'
    ensures Describe([w], brand) == LearnMore + brand + " " + w
  {
    LowerWordDescribed(w);
    DescribeOne(w, brand);
    TrimmedAfterBrand(w, brand);
  }

  lemma LowerWordDescribed(w: string)
    requires w != [] && forall i :: 0 <= i < |w| ==> 'a' <= w[i] <= 'z'
    ensures HumanizeSegmentForDescription(w) == w
  {
    LowerWordHumanized(w);
  }

  lemma DescribeOne(w: string, brand: string)
    requires HumanizeSegmentForDescription(w) == w
    ensures Describe([w], brand) == Trim(LearnMore + brand + " " + w)
  {
    assert HumanizeAll([w]) == [w];
  }

  lemma TrimmedAfterBrand(w: string, brand: string)
    requires w != [] && 'a' <= w[|w| - 1] <= 'z'
    ensures Trim(LearnMore + brand + " " + w) == LearnMore + brand + " " + w
  {
    var full := LearnMore + brand + " " + w;
    assert full[|full| - 1] == w[|w| - 1];
    assert full[0] == 'L';
    TrimNoEdge(full);
  }

  /**
    A lower-case segment other than `index` followed by `overview` is described
    by the segment after the brand.
   */
  lemma WordOverviewDescribed(p: string, o: string, brand: string)
    requires p != [] && p != "index" && forall i :: 0 <= i < |p| ==> 'a' <= p[i] <= 'z'
    requires LowerStr(o) == "overview"
    ensures GeneratedDescriptionFromPath(p + "/" + o, None, brand) == LearnMore + brand + " " + p
  {
    OverviewIsDropped(p, o, brand);
    assert NoneIn(p, {'/'}) by {
      forall i | 0 <= i < |p| ensures p[i] != '/' {
        assert 'a' <= p[i] <= 'z';
      }
    }
    OnePlainSegment(p);
    PlainWordDescribed(p, brand);
  }

  /** `developers/overview` is described as "Learn more about {brand} developers". */
  lemma DevelopersOverview(p: string, o: string, brand: string)
    requires p == "developers" && o == "overview"
    ensures GeneratedDescriptionFromPath(p + "/" + o, None, brand) == LearnMore + brand + " developers"
  {
    LowerOverview(o);
    DevelopersIsPlain(p);
    WordOverviewDescribed(p, o, brand);
    DevelopersText(p, brand);
  }

  lemma DevelopersText(p: string, brand: string)
    requires p == "developers"
    ensures LearnMore + brand + " " + p == LearnMore + brand + " developers"
  {
  }

  lemma DevelopersIsPlain(p: string)
    requires p == "developers"
    ensures p != [] && p != "index"
    ensures forall i :: 0 <= i < |p| ==> 'a' <= p[i] <= 'z'
  {
  }

  /** A trailing `overview` after another segment is dropped: `developers/overview` describes `developers`. */
  lemma OverviewOfPlainSegment(seg: string, brand: string)
    requires seg != "" && NoneIn(seg, {'/'}) && seg != "index"
    ensures GeneratedDescriptionFromPath(seg + "/overview", None, brand) == GeneratedDescriptionFromPath(seg, None, brand)
  {
    OverviewSegmentDropped(seg);
  }

  // ---------------------------------------------------------------------------
  // Clipping
  // ---------------------------------------------------------------------------

  const MaxDescription := 400

  /** At most 400 characters: a longer description keeps its first 397 and gains `...`. */
  function Clip(desc: string): (r: string)
    ensures |r| <= MaxDescription
    ensures |desc| <= MaxDescription ==> r == desc
    ensures |desc| > MaxDescription ==> |r| == MaxDescription && r[..397] == desc[..397] && EndsWith(r, "...")
  {
    if |desc| > MaxDescription then desc[..397] + "..." else desc
  }

  /** Clipping keeps every prefix of at most 397 characters. */
  lemma ClipKeepsPrefix(desc: string, p: string)
    requires StartsWith(desc, p) && |p| <= 397
    ensures StartsWith(Clip(desc), p)
  {
    if |desc| > MaxDescription {
      assert Clip(desc)[..|p|] == desc[..397][..|p|];
    }
  }
}
