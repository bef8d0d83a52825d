/** The `null`-or-value results of the build scripts. */
module Wrappers {
  datatype Option<+T> = None | Some(value: T)
}

/**
  String helpers shared by every component: ASCII whitespace and case (the
  scripts rely on JavaScript's `\s`, `trim`, `toUpperCase` and `toLowerCase`,
  which this model restricts to ASCII), prefix and infix tests, searching,
  splitting and joining.
 */
module Text {

  /** The characters JavaScript's `\s` and `trim` treat as white space, restricted to ASCII. */
  const Whitespace: set<char> := {' ', '\t', '\n', '\r', '\U{0B}', '\U{0C}'}

  /** The line terminators of JavaScript regular expressions (what `.` does not match, where `^`/`$` match with the `m` flag). */
  const LineTerminators: set<char> := {'\n', '\r', '\U{2028}', '\U{2029}'}

  predicate IsSpace(c: char) {
    c in Whitespace
  }

  /** A string with no white space at either end (what `trim` returns). */
  predicate NoEdgeSpace(s: string) {
    s == [] || (!IsSpace(s[0]) && !IsSpace(s[|s| - 1]))
  }

  function Lower(c: char): char {
    if 'A' <= c <= 'Z' then (c as int + 32) as char else c
  }

  function Upper(c: char): char {
    if 'a' <= c <= 'z' then (c as int - 32) as char else c
  }

  function LowerStr(s: string): (r: string)
    ensures |r| == |s|
    ensures forall i :: 0 <= i < |s| ==> r[i] == Lower(s[i])
  {
    seq(|s|, i requires 0 <= i < |s| => Lower(s[i]))
  }

  /**
    `s.length` in JavaScript: the number of UTF-16 code units, two for a
    character outside the Basic Multilingual Plane.
   */
  function Utf16Length(s: string): (n: nat)
    ensures |s| <= n <= 2 * |s|
  {
    if s == [] then 0 else (if s[0] as int >= 0x1_0000 then 2 else 1) + Utf16Length(s[1..])
  }

  predicate StartsWith(s: string, p: string) {
    |p| <= |s| && s[..|p|] == p
  }

  predicate EndsWith(s: string, p: string) {
    |p| <= |s| && s[|s| - |p|..] == p
  }

  /** `p` occurs in `s` at index `i`. */
  predicate MatchAt(s: string, p: string, i: int) {
    0 <= i && i + |p| <= |s| && s[i..i + |p|] == p
  }

  /** ASCII case-insensitive variant of MatchAt (a regular expression with the `i` flag). */
  predicate MatchAtCI(s: string, p: string, i: int) {
    0 <= i && i + |p| <= |s| && LowerStr(s[i..i + |p|]) == LowerStr(p)
  }

  predicate EndsWithCI(s: string, p: string) {
    MatchAtCI(s, p, |s| - |p|)
  }

  /** `s.indexOf(p, from)`: the first index at or after `from` where `p` occurs, or -1. */
  function IndexOf(s: string, p: string, from: nat): (r: int)
    ensures r == -1 || (from <= r && MatchAt(s, p, r))
    ensures r != -1 ==> forall j :: from <= j < r ==> !MatchAt(s, p, j)
    ensures r == -1 ==> forall j :: from <= j ==> !MatchAt(s, p, j)
    decreases |s| - from
  {
    if from + |p| > |s| then -1
    else if s[from..from + |p|] == p then from
    else IndexOf(s, p, from + 1)
  }

  /** `p` found right after a stretch `x` that holds no first character of `p` is the first match. */
  lemma IndexOfAfter(s: string, from: nat, x: string, p: string)
    requires p != [] && NoneIn(x, {p[0]})
    requires from + |x| <= |s| && s[from..from + |x|] == x
    requires MatchAt(s, p, from + |x|)
    ensures IndexOf(s, p, from) == from + |x|
  {
    forall m | from <= m < from + |x| ensures !MatchAt(s, p, m) {
      assert s[m] == x[m - from];
    }
  }

  /** A match inside the middle part of a string is a match in that part. */
  lemma MatchAtInfix(x: string, y: string, z: string, p: string, m: int)
    requires 0 <= m && m + |p| <= |y|
    ensures MatchAt(x + y + z, p, |x| + m) == MatchAt(y, p, m)
  {
    assert (x + y + z)[|x| + m..|x| + m + |p|] == y[m..m + |p|];
  }

  /** A match with no earlier match at or after `from` is the one `indexOf` finds. */
  lemma IndexOfFirst(s: string, p: string, from: nat, j: nat)
    requires from <= j && MatchAt(s, p, j)
    requires forall k :: from <= k < j ==> !MatchAt(s, p, k)
    ensures IndexOf(s, p, from) == j
  {
  }

  /** The index of the last `c` in `s`, or -1. */
  function LastIndexOfChar(s: string, c: char): (r: int)
    ensures -1 <= r < |s|
    ensures r >= 0 ==> s[r] == c && forall j :: r < j < |s| ==> s[j] != c
    ensures r == -1 ==> c !in s
  {
    if s == [] then -1
    else if s[|s| - 1] == c then |s| - 1
    else LastIndexOfChar(s[..|s| - 1], c)
  }

  function TrimStart(s: string): (r: string)
    ensures |r| <= |s|
    ensures r == [] || !IsSpace(r[0])
    decreases |s|
  {
    if s != [] && IsSpace(s[0]) then TrimStart(s[1..]) else s
  }

  function TrimEnd(s: string): (r: string)
    ensures |r| <= |s|
    ensures r == [] || !IsSpace(r[|r| - 1])
    decreases |s|
  {
    if s != [] && IsSpace(s[|s| - 1]) then TrimEnd(s[..|s| - 1]) else s
  }

  /** `trimStart` removes a leading run of white space and nothing else. */
  lemma {:induction false} TrimStartSuffix(s: string)
    ensures var r := TrimStart(s);
      r == s[|s| - |r|..] && forall i :: 0 <= i < |s| - |r| ==> IsSpace(s[i])
    decreases |s|
  {
    if s != [] && IsSpace(s[0]) {
      TrimStartSuffix(s[1..]);
    }
  }

  /** `trimEnd` removes a trailing run of white space and nothing else. */
  lemma {:induction false} TrimEndPrefix(s: string)
    ensures var r := TrimEnd(s);
      r == s[..|r|] && forall i :: |r| <= i < |s| ==> IsSpace(s[i])
    decreases |s|
  {
    if s != [] && IsSpace(s[|s| - 1]) {
      TrimEndPrefix(s[..|s| - 1]);
    }
  }

  /** `s.trim()`: the infix of `s` left once white space is removed from both ends. */
  function Trim(s: string): (r: string)
    ensures NoEdgeSpace(r)
    ensures |r| <= |s|
  {
    var t := TrimStart(s);
    TrimEndPrefix(t);
    TrimEnd(t)
  }

  /** The trim is the infix of `s` between two runs of white space. */
  lemma TrimInfix(s: string)
    ensures var a := |s| - |TrimStart(s)|; var r := Trim(s);
      a + |r| <= |s| && r == s[a..a + |r|]
      && (forall i :: 0 <= i < a ==> IsSpace(s[i]))
      && (forall i :: a + |r| <= i < |s| ==> IsSpace(s[i]))
  {
    TrimStartSuffix(s);
    TrimEndPrefix(TrimStart(s));
  }

  /** A string that begins with a non-space character keeps it through trimming. */
  lemma TrimNonEmpty(s: string)
    requires s != [] && !IsSpace(s[0])
    ensures Trim(s) != []
  {
    TrimStartSuffix(s);
    assert TrimStart(s) == s;
    TrimEndPrefix(s);
  }

  /** A string without white space at its ends is its own trim. */
  lemma TrimNoEdge(s: string)
    requires NoEdgeSpace(s)
    ensures Trim(s) == s
  {
  }

  /** Appending white space does not change the trim. */
  lemma {:induction false} TrimAppendSpace(s: string, c: char)
    requires IsSpace(c)
    ensures Trim(s + [c]) == Trim(s)
  {
    var t := s + [c];
    assert t[..|t| - 1] == s;
    if TrimStart(s) == [] {
      TrimStartSuffix(s);
      TrimStartAllSpace(t);
    } else {
      TrimStartAppend(s, c);
    }
  }

  lemma {:induction false} TrimStartAllSpace(s: string)
    requires forall i :: 0 <= i < |s| ==> IsSpace(s[i])
    ensures TrimStart(s) == [] && TrimEnd(s) == [] && Trim(s) == []
    decreases |s|
  {
    if s != [] {
      TrimStartAllSpace(s[1..]);
      TrimStartAllSpace(s[..|s| - 1]);
    }
  }

  lemma {:induction false} TrimStartAppend(s: string, c: char)
    requires TrimStart(s) != []
    ensures TrimStart(s + [c]) == TrimStart(s) + [c]
    decreases |s|
  {
    var t := s + [c];
    assert t[0] == s[0];
    if IsSpace(s[0]) {
      assert t[1..] == s[1..] + [c];
      TrimStartAppend(s[1..], c);
    }
  }

  /** Every character of `s` lies in `cs`. */
  predicate AllIn(s: string, cs: set<char>) {
    forall i :: 0 <= i < |s| ==> s[i] in cs
  }

  /** Drops the maximal leading run of characters from `cs`. */
  function SkipRun(s: string, cs: set<char>): (r: string)
    ensures |r| <= |s| && r == s[|s| - |r|..]
    ensures r == [] || r[0] !in cs
    ensures s != [] && s[0] in cs ==> |r| < |s|
    decreases |s|
  {
    if s != [] && s[0] in cs then SkipRun(s[1..], cs) else s
  }

  /**
    `s.replace(/[cs]+/g, sub)`: every maximal run of characters from `cs` becomes
    the single character `sub`; everything else is kept.
   */
  function ReplaceRuns(s: string, cs: set<char>, sub: char): (r: string)
    ensures |r| <= |s|
    ensures r == [] <==> s == []
    ensures s != [] ==> r[0] == (if s[0] in cs then sub else s[0])
    ensures forall i :: 0 <= i < |r| ==> r[i] !in cs || r[i] == sub
    ensures sub in cs ==> forall i :: 0 <= i < |r| - 1 ==> !(r[i] in cs && r[i + 1] in cs)
    decreases |s|
  {
    if s == [] then []
    else if s[0] in cs then [sub] + ReplaceRuns(SkipRun(s, cs), cs, sub)
    else [s[0]] + ReplaceRuns(s[1..], cs, sub)
  }

  /**
    `s.split(sep)` where every character of `seps` is a separator: the pieces
    between separators, empty ones included.
   */
  function SplitOn(s: string, seps: set<char>): (parts: seq<string>)
    ensures |parts| >= 1
    ensures forall i :: 0 <= i < |parts| ==> NoneIn(parts[i], seps)
    decreases |s|
  {
    if s == [] then [""]
    else
      var rest := SplitOn(s[1..], seps);
      if s[0] in seps then [""] + rest
      else [[s[0]] + rest[0]] + rest[1..]
  }

  /** No character of `s` lies in `cs`. */
  predicate NoneIn(s: string, cs: set<char>) {
    forall i :: 0 <= i < |s| ==> s[i] !in cs
  }

  /** `parts.join(sep)`. */
  function JoinWith(parts: seq<string>, sep: string): string
  {
    if |parts| == 0 then ""
    else if |parts| == 1 then parts[0]
    else parts[0] + sep + JoinWith(parts[1..], sep)
  }

  /** Joining one more piece adds the separator and the piece. */
  lemma {:induction false} JoinAppend(parts: seq<string>, last: string, sep: string)
    requires parts != []
    ensures JoinWith(parts + [last], sep) == JoinWith(parts, sep) + sep + last
    decreases |parts|
  {
    var all := parts + [last];
    if |parts| == 1 {
      assert all[1..] == [last];
    } else {
      assert all[1..] == parts[1..] + [last];
      JoinAppend(parts[1..], last, sep);
      var rest := JoinWith(parts[1..], sep);
      assert parts[0] + sep + (rest + sep + last) == (parts[0] + sep + rest) + sep + last;
    }
  }

  /** Splitting at a separator placed between `a` and `b` splits `a` and `b` separately. */
  lemma {:induction false} SplitOnAppend(a: string, sep: char, b: string, seps: set<char>)
    requires sep in seps
    ensures SplitOn(a + [sep] + b, seps) == SplitOn(a, seps) + SplitOn(b, seps)
    decreases |a|
  {
    if a == [] {
      assert a + [sep] + b == [sep] + b;
      assert ([sep] + b)[1..] == b;
    } else {
      assert (a + [sep] + b)[1..] == a[1..] + [sep] + b;
      assert (a + [sep] + b)[0] == a[0];
      SplitOnAppend(a[1..], sep, b, seps);
    }
  }

  /** Splitting a string without any separator gives the string itself. */
  lemma {:induction false} SplitOnNoSep(a: string, seps: set<char>)
    requires NoneIn(a, seps)
    ensures SplitOn(a, seps) == [a]
    decreases |a|
  {
    if a != [] {
      SplitOnNoSep(a[1..], seps);
      assert [a[0]] + a[1..] == a;
    }
  }

  /** `split` undoes `join` when no piece holds the separator. */
  lemma {:induction false} SplitJoin(parts: seq<string>, sep: char)
    requires |parts| >= 1
    requires forall i :: 0 <= i < |parts| ==> sep !in parts[i]
    ensures SplitOn(JoinWith(parts, [sep]), {sep}) == parts
    decreases |parts|
  {
    if |parts| == 1 {
      SplitOnNoSep(parts[0], {sep});
    } else {
      SplitJoin(parts[1..], sep);
      SplitOnAppend(parts[0], sep, JoinWith(parts[1..], [sep]), {sep});
      SplitOnNoSep(parts[0], {sep});
      assert [parts[0]] + parts[1..] == parts;
    }
  }

  /** `join` undoes `split`: joining the pieces with the separator gives the string back. */
  lemma {:induction false} JoinSplit(s: string, sep: char)
    ensures JoinWith(SplitOn(s, {sep}), [sep]) == s
    decreases |s|
  {
    if s != [] {
      JoinSplit(s[1..], sep);
      var rest := SplitOn(s[1..], {sep});
      if s[0] == sep {
        assert ([""] + rest)[1..] == rest;
      } else if |rest| >= 2 {
        var parts := [[s[0]] + rest[0]] + rest[1..];
        assert parts[1..] == rest[1..];
      }
      assert [s[0]] + s[1..] == s;
    }
  }

  /** `.filter(Boolean)` on a list of strings: the non-empty ones, in order. */
  function NonEmpty(parts: seq<string>): (r: seq<string>)
    ensures |r| <= |parts|
    ensures forall i :: 0 <= i < |r| ==> r[i] != [] && r[i] in parts
  {
    if parts == [] then []
    else if parts[0] == [] then NonEmpty(parts[1..])
    else [parts[0]] + NonEmpty(parts[1..])
  }

  lemma {:induction false} NonEmptyAppend(a: seq<string>, b: seq<string>)
    ensures NonEmpty(a + b) == NonEmpty(a) + NonEmpty(b)
    decreases |a|
  {
    if a != [] {
      assert (a + b)[0] == a[0];
      assert (a + b)[1..] == a[1..] + b;
      NonEmptyAppend(a[1..], b);
    } else {
      assert a + b == b;
    }
  }

  /** A string holding no character of `cs` comes out of ReplaceRuns unchanged. */
  lemma {:induction false} ReplaceRunsNoneIn(s: string, cs: set<char>, sub: char)
    ensures NoneIn(s, cs) ==> ReplaceRuns(s, cs, sub) == s
    decreases |s|
  {
    if s != [] && NoneIn(s, cs) {
      ReplaceRunsNoneIn(s[1..], cs, sub);
      assert [s[0]] + s[1..] == s;
    }
  }

  /** A run from `cs` in front of a character outside `cs` is skipped whole. */
  lemma {:induction false} SkipRunAll(w: string, t: string, cs: set<char>)
    requires AllIn(w, cs)
    requires t == [] || t[0] !in cs
    ensures SkipRun(w + t, cs) == t
    decreases |w|
  {
    if w == [] {
      assert w + t == t;
    } else {
      assert (w + t)[1..] == w[1..] + t;
      SkipRunAll(w[1..], t, cs);
    }
  }

  /** A character outside `cs` is copied; ReplaceRuns goes on with what follows it. */
  lemma ReplaceRunsCons(c: char, u: string, cs: set<char>, sub: char)
    requires c !in cs
    ensures ReplaceRuns([c] + u, cs, sub) == [c] + ReplaceRuns(u, cs, sub)
  {
    var s := [c] + u;
    assert s[0] == c && s[1..] == u;
  }

  /** Splitting off the first element of `a` in front of `a + t` and of `a + r`. */
  lemma ConsAppend<T>(a: seq<T>, t: seq<T>, r: seq<T>)
    requires a != []
    ensures a + t == [a[0]] + (a[1..] + t)
    ensures [a[0]] + (a[1..] + r) == a + r
  {
    assert a == [a[0]] + a[1..];
  }

  /** A stretch free of `cs` is copied; ReplaceRuns goes on with what follows it. */
  lemma {:induction false} ReplaceRunsPrefix(a: string, t: string, cs: set<char>, sub: char)
    requires NoneIn(a, cs)
    ensures ReplaceRuns(a + t, cs, sub) == a + ReplaceRuns(t, cs, sub)
    decreases |a|
  {
    if a == [] {
      assert a + t == t;
    } else {
      ConsAppend(a, t, ReplaceRuns(t, cs, sub));
      ReplaceRunsCons(a[0], a[1..] + t, cs, sub);
      ReplaceRunsPrefix(a[1..], t, cs, sub);
    }
  }

  /**
    One maximal run of `cs` between a stretch free of `cs` and a rest that does
    not start with `cs` becomes one `sub`.
   */
  lemma ReplaceRunsRun(a: string, w: string, t: string, cs: set<char>, sub: char)
    requires NoneIn(a, cs)
    requires w != [] && AllIn(w, cs)
    requires t == [] || t[0] !in cs
    ensures ReplaceRuns(a + w + t, cs, sub) == a + [sub] + ReplaceRuns(t, cs, sub)
  {
    assert a + w + t == a + (w + t);
    ReplaceRunsPrefix(a, w + t, cs, sub);
    SkipRunAll(w, t, cs);
    assert (w + t)[0] == w[0] && w[0] in cs;
    assert ReplaceRuns(w + t, cs, sub) == [sub] + ReplaceRuns(t, cs, sub);
  }

  /** The first character of a join is the first character of its first piece. */
  lemma JoinFirst(parts: seq<string>, sep: string)
    requires parts != [] && parts[0] != []
    ensures JoinWith(parts, sep) != [] && JoinWith(parts, sep)[0] == parts[0][0]
  {
  }

  /** The last character of a join is the last character of its last piece. */
  lemma {:induction false} JoinLast(parts: seq<string>, sep: string)
    requires parts != [] && parts[|parts| - 1] != []
    ensures var j := JoinWith(parts, sep); var l := parts[|parts| - 1];
      j != [] && j[|j| - 1] == l[|l| - 1]
    decreases |parts|
  {
    if |parts| > 1 {
      JoinLast(parts[1..], sep);
    }
  }

  /** Pieces and a separator without any character of `cs` join to a string without one. */
  lemma {:induction false} JoinNoneIn(parts: seq<string>, sep: string, cs: set<char>)
    requires forall i :: 0 <= i < |parts| ==> NoneIn(parts[i], cs)
    requires NoneIn(sep, cs)
    ensures NoneIn(JoinWith(parts, sep), cs)
    decreases |parts|
  {
    if |parts| > 1 {
      JoinNoneIn(parts[1..], sep, cs);
    }
  }

  /**
    Replacing runs in words joined by runs of `cs` gives the same words joined
    by the single `sub`.
   */
  lemma {:induction false} ReplaceRunsJoin(ws: seq<string>, sep: string, cs: set<char>, sub: char)
    requires forall i :: 0 <= i < |ws| ==> ws[i] != [] && NoneIn(ws[i], cs)
    requires sep != [] && AllIn(sep, cs)
    ensures ReplaceRuns(JoinWith(ws, sep), cs, sub) == JoinWith(ws, [sub])
    decreases |ws|
  {
    if |ws| == 1 {
      ReplaceRunsNoneIn(ws[0], cs, sub);
    } else if |ws| > 1 {
      var rest := JoinWith(ws[1..], sep);
      JoinFirst(ws[1..], sep);
      ReplaceRunsRun(ws[0], sep, rest, cs, sub);
      ReplaceRunsJoin(ws[1..], sep, cs, sub);
    }
  }

  /** Leading separators only add empty pieces, which `.filter(Boolean)` drops. */
  lemma {:induction false} NonEmptySplitSkips(d: string, t: string, cs: set<char>)
    requires AllIn(d, cs)
    ensures NonEmpty(SplitOn(d + t, cs)) == NonEmpty(SplitOn(t, cs))
    decreases |d|
  {
    if d == [] {
      assert d + t == t;
    } else {
      assert (d + t)[0] == d[0];
      assert (d + t)[1..] == d[1..] + t;
      NonEmptySplitSkips(d[1..], t, cs);
    }
  }

  /**
    Splitting words joined by runs of separators and dropping the empty pieces
    gives the words back.
   */
  lemma {:induction false} NonEmptySplitJoin(ws: seq<string>, sep: string, cs: set<char>)
    requires forall i :: 0 <= i < |ws| ==> ws[i] != [] && NoneIn(ws[i], cs)
    requires sep != [] && AllIn(sep, cs)
    ensures NonEmpty(SplitOn(JoinWith(ws, sep), cs)) == ws
    decreases |ws|
  {
    if |ws| == 1 {
      SplitOnNoSep(ws[0], cs);
    } else if |ws| > 1 {
      var rest := JoinWith(ws[1..], sep);
      assert ws[0] + sep + rest == ws[0] + [sep[0]] + (sep[1..] + rest);
      SplitOnAppend(ws[0], sep[0], sep[1..] + rest, cs);
      SplitOnNoSep(ws[0], cs);
      NonEmptySplitSkips(sep[1..], rest, cs);
      NonEmptySplitJoin(ws[1..], sep, cs);
      NonEmptyAppend([ws[0]], SplitOn(sep[1..] + rest, cs));
      assert [ws[0]] + ws[1..] == ws;
    }
  }
}
