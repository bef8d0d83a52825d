/**
  Page titles of the llms script: `titleCaseFromSlug`, the special-case table
  and `humanizeSegmentForTitle`/`humanizeSegmentForDescription`, and the
  `rest-api` contextualisation of `getDocMeta`.
 */
module Titles {
  import opened Wrappers
  import opened Text

  /** The word separators of slugs and segments. */
  const Dashes: set<char> := {'-', '_'}

  /** What separates or cuts the words of a slug: dashes, white space, `/` and line terminators. */
  const SlugBreaks: set<char> := Dashes + Whitespace + LineTerminators + {'/'}

  /** The characters no title word holds. */
  const NotInWords: set<char> := {' ', '-', '_'}

  /** `w.charAt(0).toUpperCase() + w.slice(1)`. */
  function Capitalize(w: string): (c: string)
    ensures |c| == |w|
    ensures w != [] ==> c[0] == Upper(w[0]) && c[1..] == w[1..]
  {
    if w == [] then [] else [Upper(w[0])] + w[1..]
  }

  function CapitalizeAll(ws: seq<string>): (cs: seq<string>)
    ensures |cs| == |ws|
    ensures forall i :: 0 <= i < |ws| ==> cs[i] == Capitalize(ws[i])
  {
    seq(|ws|, i requires 0 <= i < |ws| => Capitalize(ws[i]))
  }

  /** The text up to the first line terminator. */
  function LineHead(s: string): (h: string)
    ensures |h| <= |s| && h == s[..|h|]
    ensures NoneIn(h, LineTerminators)
    ensures |h| < |s| ==> s[|h|] in LineTerminators
  {
    if s == [] || s[0] in LineTerminators then [] else [s[0]] + LineHead(s[1..])
  }

  /** `s.replace(/^.*\//, '')`: everything up to the last `/` of the first line is dropped. */
  function AfterLastSlash(s: string): (r: string)
    ensures |r| <= |s| && r == s[|s| - |r|..]
  {
    var k := LastIndexOfChar(LineHead(s), '/');
    s[k + 1..]
  }

  /**
    `titleCaseFromSlug`: the last segment, with runs of `-`/`_` turned into
    one space and trimmed, split on spaces, empty words dropped, each word
    capitalised and the words joined with single spaces.
   */
  function TitleCaseFromSlug(slug: string): string {
    var name := Trim(ReplaceRuns(AfterLastSlash(slug), Dashes, ' '));
    JoinWith(CapitalizeAll(NonEmpty(SplitOn(name, {' '}))), " ")
  }

  /** `SPECIAL_TITLE_SEGMENTS`. */
  function SpecialTitle(s: string): (t: Option<string>) {
    if s == "rest-api" then Some("Rest API")
    else if s == "sdk-and-tools" then Some("SDK and Tools")
    else None
  }

  /**
    `humanizeSegmentForTitle`: the trimmed segment's special title, or its
    words between runs of `-`/`_`, capitalised and joined with single spaces.
    (Splitting on every `-`/`_` and dropping the empty pieces gives the same
    words as splitting on runs.)
   */
  function HumanizeSegmentForTitle(seg: string): string {
    var s := Trim(seg);
    var special := SpecialTitle(s);
    if special.Some? then special.value
    else JoinWith(CapitalizeAll(NonEmpty(SplitOn(s, Dashes))), " ")
  }

  /** `humanizeSegmentForDescription`: the title in lower case. */
  function HumanizeSegmentForDescription(seg: string): (d: string)
    ensures |d| == |HumanizeSegmentForTitle(seg)|
    ensures forall i :: 0 <= i < |d| ==> d[i] == Lower(HumanizeSegmentForTitle(seg)[i])
    ensures forall i :: 0 <= i < |d| ==> !('A' <= d[i] <= 'Z')
  {
    LowerStr(HumanizeSegmentForTitle(seg))
  }

  /**
    The `rest-api` contextualisation of `getDocMeta`: when the docs-relative
    path (extension removed) has at least two segments, the parent one is
    `rest-api` and the trimmed title equals the humanised last segment, the
    title is prefixed with the parent's humanised title and a space.
   */
  function ContextualizeTitle(title: string, rel: string): (t: string)
    ensures t == title || t == "Rest API " + title
  {
    var parts := NonEmpty(SplitOn(rel, {'/'}));
    if InRestApiContext(title, parts) then
      RestApiTitle(parts[|parts| - 2]);
      HumanizeSegmentForTitle(parts[|parts| - 2]) + " " + title
    else title
  }

  /** The segment `rest-api` is titled "Rest API". */
  lemma RestApiTitle(seg: string)
    requires seg == "rest-api"
    ensures HumanizeSegmentForTitle(seg) == "Rest API"
  {
    TrimNoEdge(seg);
  }

  /** The parent segment is `rest-api` and the title is the humanised last segment. */
  predicate InRestApiContext(title: string, parts: seq<string>) {
    |parts| >= 2 && parts[|parts| - 2] == "rest-api"
    && Trim(title) == HumanizeSegmentForTitle(parts[|parts| - 1])
  }

  // ---------------------------------------------------------------------------
  // Shape of a title
  // ---------------------------------------------------------------------------

  /** A capitalised word: non-empty, not starting with a lower-case letter, free of spaces, dashes and underscores. */
  predicate TitleWord(w: string) {
    w != [] && !('a' <= w[0] <= 'z') && NoneIn(w, NotInWords)
  }

  lemma {:induction false} SplitOnNoneIn(s: string, seps: set<char>, bad: set<char>)
    requires NoneIn(s, bad)
    ensures forall i :: 0 <= i < |SplitOn(s, seps)| ==> NoneIn(SplitOn(s, seps)[i], bad)
    decreases |s|
  {
    if s != [] {
      SplitOnNoneIn(s[1..], seps, bad);
      var rest := SplitOn(s[1..], seps);
      if s[0] !in seps {
        assert NoneIn([s[0]] + rest[0], bad);
        var parts := SplitOn(s, seps);
        assert forall i :: 1 <= i < |parts| ==> parts[i] == rest[i];
      }
    }
  }

  lemma TrimNoneIn(s: string, bad: set<char>)
    requires NoneIn(s, bad)
    ensures NoneIn(Trim(s), bad)
  {
    TrimInfix(s);
    var a := |s| - |TrimStart(s)|;
    assert forall i :: 0 <= i < |Trim(s)| ==> Trim(s)[i] == s[a + i];
  }

  /** The words of `s` between separators, each non-empty and free of `bad` when `s` is. */
  lemma WordsAreClean(s: string, seps: set<char>, bad: set<char>)
    requires NoneIn(s, bad)
    ensures forall i :: 0 <= i < |NonEmpty(SplitOn(s, seps))| ==> NoneIn(NonEmpty(SplitOn(s, seps))[i], bad)
  {
    SplitOnNoneIn(s, seps, bad);
    var parts := SplitOn(s, seps);
    var ws := NonEmpty(parts);
    forall i | 0 <= i < |ws| ensures NoneIn(ws[i], bad) {
      var j :| 0 <= j < |parts| && parts[j] == ws[i];
    }
  }

  /** Capitalising clean, non-empty words gives title words. */
  lemma CapitalizeGivesTitleWords(ws: seq<string>)
    requires forall i :: 0 <= i < |ws| ==> ws[i] != [] && NoneIn(ws[i], NotInWords)
    ensures forall i :: 0 <= i < |ws| ==> TitleWord(CapitalizeAll(ws)[i])
  {
    forall i | 0 <= i < |ws|
      ensures TitleWord(CapitalizeAll(ws)[i])
    {
      var w := ws[i];
      var c := Capitalize(w);
      assert c[0] == Upper(w[0]) && w[0] !in NotInWords;
      forall j | 0 <= j < |c| ensures c[j] !in NotInWords {
        if j > 0 {
          assert c[j] == c[1..][j - 1] == w[1..][j - 1] == w[j];
        }
      }
    }
  }

  /**
    A title from a slug is a sequence of capitalised words joined by single
    spaces: splitting it on spaces gives back words that are non-empty, start
    with no lower-case letter and contain no space, `-` or `_`.
   */
  lemma TitleCaseWords(slug: string)
    ensures var t := TitleCaseFromSlug(slug);
      t == "" || forall i :: 0 <= i < |SplitOn(t, {' '})| ==> TitleWord(SplitOn(t, {' '})[i])
  {
    var replaced := ReplaceRuns(AfterLastSlash(slug), Dashes, ' ');
    assert NoneIn(replaced, Dashes);
    var name := Trim(replaced);
    TrimNoneIn(replaced, Dashes);
    var ws := NonEmpty(SplitOn(name, {' '}));
    WordsAreClean(name, {' '}, Dashes);
    assert forall i :: 0 <= i < |ws| ==> NoneIn(ws[i], Dashes);
    forall i | 0 <= i < |ws| ensures NoneIn(ws[i], NotInWords) {
      assert NoneIn(ws[i], Dashes) && NoneIn(ws[i], {' '});
    }
    CapitalizeGivesTitleWords(ws);
    var cs := CapitalizeAll(ws);
    if |cs| >= 1 {
      SplitJoin(cs, ' ');
    }
  }

  /** The same shape for a segment without spaces that is not in the special-case table. */
  lemma HumanizedWords(seg: string)
    requires SpecialTitle(Trim(seg)).None?
    requires NoneIn(seg, {' '})
    ensures var t := HumanizeSegmentForTitle(seg);
      t == "" || forall i :: 0 <= i < |SplitOn(t, {' '})| ==> TitleWord(SplitOn(t, {' '})[i])
  {
    var s := Trim(seg);
    TrimNoneIn(seg, {' '});
    var ws := NonEmpty(SplitOn(s, Dashes));
    WordsAreClean(s, Dashes, {' '});
    forall i | 0 <= i < |ws| ensures NoneIn(ws[i], NotInWords) {
      assert NoneIn(ws[i], Dashes) && NoneIn(ws[i], {' '});
    }
    CapitalizeGivesTitleWords(ws);
    var cs := CapitalizeAll(ws);
    if |cs| >= 1 {
      SplitJoin(cs, ' ');
    }
  }

  /**
    Only the text after the last `/` counts: a slug with a directory part gets
    the title of its last segment.
   */
  lemma TitleCaseUsesLastSegment(dir: string, seg: string)
    requires NoneIn(dir, LineTerminators)
    requires '/' !in seg
    ensures TitleCaseFromSlug(dir + "/" + seg) == TitleCaseFromSlug(seg)
  {
    var s := dir + "/" + seg;
    LineHeadAppend(dir + "/", seg);
    var h := LineHead(s);
    var hs := LineHead(seg);
    assert h == dir + "/" + hs;
    assert '/' !in hs by {
      assert forall j :: 0 <= j < |hs| ==> hs[j] == seg[j];
    }
    var k := LastIndexOfChar(h, '/');
    assert h[|dir|] == '/';
    assert k == |dir|;
    assert s[k + 1..] == seg;
    assert LastIndexOfChar(hs, '/') == -1;
  }

  lemma {:induction false} LineHeadAppend(a: string, b: string)
    requires NoneIn(a, LineTerminators)
    ensures LineHead(a + b) == a + LineHead(b)
    decreases |a|
  {
    if a != [] {
      assert (a + b)[0] == a[0];
      assert (a + b)[1..] == a[1..] + b;
      LineHeadAppend(a[1..], b);
    } else {
      assert a + b == b;
    }
  }

  // ---------------------------------------------------------------------------
  // Content of a title
  // ---------------------------------------------------------------------------

  /** A string holding none of the characters of `big` holds none of a subset of them. */
  lemma NoneInSubset(s: string, big: set<char>, small: set<char>)
    requires NoneIn(s, big) && small <= big
    ensures NoneIn(s, small)
  {
  }

  /** Words with no white space at their ends joined by spaces are their own trim. */
  lemma JoinedWordsTrimmed(ws: seq<string>, sep: string)
    requires forall i :: 0 <= i < |ws| ==> ws[i] != [] && NoneIn(ws[i], Whitespace)
    ensures Trim(JoinWith(ws, sep)) == JoinWith(ws, sep)
  {
    if ws != [] {
      JoinFirst(ws, sep);
      JoinLast(ws, sep);
      assert ws[0][0] !in Whitespace;
      var l := ws[|ws| - 1];
      assert l[|l| - 1] !in Whitespace;
      TrimNoEdge(JoinWith(ws, sep));
    }
  }

  /**
    Words free of dashes, white space, `/` and line terminators, joined by runs
    of `-`/`_`, are titled by the same words capitalised and joined by single
    spaces (`getting-started` gives `Getting Started`).
   */
  lemma {:induction false} TitleCaseOfWords(ws: seq<string>, sep: string)
    requires forall i :: 0 <= i < |ws| ==> ws[i] != [] && NoneIn(ws[i], SlugBreaks)
    requires sep != [] && AllIn(sep, Dashes)
    ensures TitleCaseFromSlug(JoinWith(ws, sep)) == JoinWith(CapitalizeAll(ws), " ")
  {
    var s := JoinWith(ws, sep);
    var cut := LineTerminators + {'/'};
    forall i | 0 <= i < |ws| ensures NoneIn(ws[i], cut) && NoneIn(ws[i], Dashes) && NoneIn(ws[i], Whitespace) {
      NoneInSubset(ws[i], SlugBreaks, cut);
      NoneInSubset(ws[i], SlugBreaks, Dashes);
      NoneInSubset(ws[i], SlugBreaks, Whitespace);
    }
    JoinNoneIn(ws, sep, cut);
    NoneInSubset(s, cut, LineTerminators);
    LineHeadAppend(s, "");
    assert s + "" == s;
    assert LastIndexOfChar(s, '/') == -1;
    assert AfterLastSlash(s) == s;
    ReplaceRunsJoin(ws, sep, Dashes, ' ');
    JoinedWordsTrimmed(ws, " ");
    NonEmptySplitJoin(ws, " ", {' '});
  }

  /** A segment outside the special-case table has the dash-free words of TitleCaseOfWords, capitalised. */
  lemma {:induction false} HumanizeOfWords(ws: seq<string>, sep: string)
    requires forall i :: 0 <= i < |ws| ==> ws[i] != [] && NoneIn(ws[i], Dashes + Whitespace)
    requires sep != [] && AllIn(sep, Dashes)
    requires SpecialTitle(JoinWith(ws, sep)).None?
    ensures HumanizeSegmentForTitle(JoinWith(ws, sep)) == JoinWith(CapitalizeAll(ws), " ")
    ensures HumanizeSegmentForDescription(JoinWith(ws, sep)) == LowerStr(JoinWith(CapitalizeAll(ws), " "))
  {
    forall i | 0 <= i < |ws| ensures NoneIn(ws[i], Dashes) && NoneIn(ws[i], Whitespace) {
      NoneInSubset(ws[i], Dashes + Whitespace, Dashes);
      NoneInSubset(ws[i], Dashes + Whitespace, Whitespace);
    }
    JoinedWordsTrimmed(ws, sep);
    NonEmptySplitJoin(ws, sep, Dashes);
  }

  /** Every entry of the special-case table holds a `-`. */
  lemma SpecialHasDash(s: string)
    ensures SpecialTitle(s).Some? ==> '-' in s
  {
    if s == "rest-api" {
      assert s[4] == '-';
    } else if s == "sdk-and-tools" {
      assert s[3] == '-';
    }
  }

  /** A segment of lower-case letters is titled by capitalising it and described by itself. */
  lemma LowerWordHumanized(w: string)
    requires w != [] && forall i :: 0 <= i < |w| ==> 'a' <= w[i] <= 'z'
    ensures HumanizeSegmentForTitle(w) == Capitalize(w)
    ensures HumanizeSegmentForDescription(w) == w
  {
    forall i | 0 <= i < |w| ensures w[i] !in Dashes + Whitespace {
      assert 'a' <= w[i] <= 'z';
    }
    LowerWordTitle(w);
    LowerCapitalized(w);
  }

  lemma LowerWordTitle(w: string)
    requires w != [] && NoneIn(w, Dashes + Whitespace)
    ensures HumanizeSegmentForTitle(w) == Capitalize(w)
  {
    assert JoinWith([w], "-") == w;
    SpecialHasDash(w);
    HumanizeOfWords([w], "-");
    assert JoinWith(CapitalizeAll([w]), " ") == Capitalize(w);
  }

  /** Lower-casing a capitalised word without capitals gives the word back. */
  lemma LowerCapitalized(w: string)
    requires forall i :: 0 <= i < |w| ==> !('A' <= w[i] <= 'Z')
    ensures LowerStr(Capitalize(w)) == w
  {
    var c := Capitalize(w);
    var d := LowerStr(c);
    forall i | 0 <= i < |w| ensures d[i] == w[i] {
      if i > 0 {
        assert c[i] == c[1..][i - 1] == w[i];
      }
    }
  }

  /** Lower-case letters are none of the slug breaks. */
  lemma LettersAreNoBreaks(w: string)
    requires forall i :: 0 <= i < |w| ==> 'a' <= w[i] <= 'z'
    ensures NoneIn(w, SlugBreaks)
  {
    forall i | 0 <= i < |w| ensures w[i] !in SlugBreaks {
      assert 'a' <= w[i] <= 'z';
    }
  }

  /**
    Two lower-case words joined by `-` are titled as the two words capitalised,
    as a slug and, outside the special-case table, as a segment.
   */
  lemma TwoWordsTitle(a: string, b: string)
    requires a != [] && forall i :: 0 <= i < |a| ==> 'a' <= a[i] <= 'z'
    requires b != [] && forall i :: 0 <= i < |b| ==> 'a' <= b[i] <= 'z'
    ensures TitleCaseFromSlug(a + "-" + b) == Capitalize(a) + " " + Capitalize(b)
    ensures SpecialTitle(a + "-" + b).None? ==>
      HumanizeSegmentForTitle(a + "-" + b) == Capitalize(a) + " " + Capitalize(b)
  {
    LettersAreNoBreaks(a);
    LettersAreNoBreaks(b);
    var ws := [a, b];
    assert JoinWith(ws, "-") == a + "-" + b;
    assert JoinWith(CapitalizeAll(ws), " ") == Capitalize(a) + " " + Capitalize(b);
    TitleCaseOfWords(ws, "-");
    if SpecialTitle(a + "-" + b).None? {
      forall i | 0 <= i < 2 ensures NoneIn(ws[i], Dashes + Whitespace) {
        NoneInSubset(ws[i], SlugBreaks, Dashes + Whitespace);
      }
      HumanizeOfWords(ws, "-");
    }
  }

  /** `getting-started` is titled `Getting Started`. */
  lemma GettingStarted(a: string, b: string)
    requires a == "getting" && b == "started"
    ensures TitleCaseFromSlug(a + "-" + b) == "Getting Started"
    ensures HumanizeSegmentForTitle(a + "-" + b) == "Getting Started"
  {
    LowerLetters(a);
    LowerLetters(b);
    NotSpecialByLength(a + "-" + b);
    TwoWordsTitle(a, b);
    GettingStartedCapitalized(a, b);
  }

  lemma LowerLetters(w: string)
    requires w == "getting" || w == "started"
    ensures w != [] && forall i :: 0 <= i < |w| ==> 'a' <= w[i] <= 'z'
  {
  }

  lemma NotSpecialByLength(s: string)
    requires |s| != |"rest-api"| && |s| != |"sdk-and-tools"|
    ensures SpecialTitle(s).None?
  {
  }

  lemma GettingStartedCapitalized(a: string, b: string)
    requires a == "getting" && b == "started"
    ensures Capitalize(a) + " " + Capitalize(b) == "Getting Started"
  {
  }

  /** The special-case table, applied after trimming. */
  lemma SpecialSegments()
    ensures HumanizeSegmentForTitle("rest-api") == "Rest API"
    ensures HumanizeSegmentForTitle("sdk-and-tools") == "SDK and Tools"
    ensures HumanizeSegmentForDescription("sdk-and-tools") == "sdk and tools"
  {
    TrimNoEdge("rest-api");
    TrimNoEdge("sdk-and-tools");
  }

  /** The contextualisation prefixes exactly when its three conditions hold. */
  lemma ContextualizeIff(title: string, rel: string)
    ensures var parts := NonEmpty(SplitOn(rel, {'/'}));
      ContextualizeTitle(title, rel) == "Rest API " + title <==> InRestApiContext(title, parts)
  {
    TrimNoEdge("rest-api");
    assert "Rest API " + title != title by {
      assert |"Rest API " + title| > |title|;
    }
  }
}
