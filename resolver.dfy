/**
  `resolveDocPath`, shared by both scripts: from a sidebar id to the Markdown
  file that holds it.

  The docs directory is an input value: the contents of every file by its
  docs-relative path, and for every directory that can be listed its entries
  in listing order (the root is ""). Paths are `/`-separated and relative to
  the docs directory; no `.`/`..` normalisation takes place.
 */
module Resolver {
  import opened Wrappers
  import opened Text
  import opened Frontmatter

  /** A directory entry: its name and whether it is a regular file. */
  datatype Entry = Entry(name: string, isFile: bool)

  datatype DocsTree = DocsTree(files: map<string, string>, listings: map<string, seq<Entry>>)

  /** `path.dirname`: everything before the last `/`, or "" (the docs root) when there is none. */
  function DirName(docId: string): string {
    var k := LastIndexOfChar(docId, '/');
    if k < 0 then "" else docId[..k]
  }

  /** `path.basename`: everything after the last `/`. */
  function BaseName(docId: string): (b: string)
    ensures '/' !in b
  {
    var k := LastIndexOfChar(docId, '/');
    docId[k + 1..]
  }

  /** `path.join(dir, name)` for a docs-relative directory. */
  function JoinPath(dir: string, name: string): string {
    if dir == "" then name else dir + "/" + name
  }

  /** `base.replace(/\s+/g, '-')`. */
  function Kebab(base: string): (k: string)
    ensures |k| <= |base|
    ensures NoneIn(k, Whitespace)
    ensures NoneIn(base, Whitespace) ==> k == base
  {
    ReplaceRunsNoneIn(base, Whitespace, '-');
    ReplaceRuns(base, Whitespace, '-')
  }

  /**
    Each maximal run of white space becomes one `-`: a name without white
    space, a run, then a rest that does not start with white space.
   */
  lemma KebabRun(a: string, w: string, b: string)
    requires NoneIn(a, Whitespace)
    requires w != [] && AllIn(w, Whitespace)
    requires b == [] || !IsSpace(b[0])
    ensures Kebab(a + w + b) == a + "-" + Kebab(b)
  {
    ReplaceRunsRun(a, w, b, Whitespace, '-');
  }

  /** `/\.(md|mdx)$/i`. */
  predicate HasDocExtension(name: string) {
    EndsWithCI(name, ".md") || EndsWithCI(name, ".mdx")
  }

  /** The four paths tried before the directory scan, in order. */
  function Candidates(docId: string): (c: seq<string>)
    ensures |c| == 4
  {
    var dir := DirName(docId);
    var kebab := Kebab(BaseName(docId));
    [docId + ".md", docId + ".mdx", JoinPath(dir, kebab + ".md"), JoinPath(dir, kebab + ".mdx")]
  }

  /** The first candidate that exists. */
  function FirstExisting(tree: DocsTree, cands: seq<string>): (r: Option<string>)
    ensures r.Some? ==> r.value in tree.files && r.value in cands
    ensures r.None? <==> forall i :: 0 <= i < |cands| ==> cands[i] !in tree.files
  {
    if cands == [] then None
    else if cands[0] in tree.files then Some(cands[0])
    else FirstExisting(tree, cands[1..])
  }

  /**
    The id test of the scan. The llms script requires the frontmatter id to be
    truthy as well (`strict`); the per-page script only requires the pattern to
    have matched, so an empty trimmed id matches an empty base name there.
   */
  predicate IdMatches(fid: Option<string>, base: string, strict: bool) {
    fid.Some? && fid.value == base && (!strict || fid.value != "")
  }

  /** A directory entry the scan accepts: a `.md`/`.mdx` file whose frontmatter id is the base name. */
  predicate ScanMatch(tree: DocsTree, dir: string, base: string, strict: bool, e: Entry) {
    var full := JoinPath(dir, e.name);
    e.isFile && HasDocExtension(e.name) && full in tree.files
    && IdMatches(ParseFrontmatter(tree.files[full]).id, base, strict)
  }

  /** Which entries the scan accepts, in listing order. */
  function Accepted(tree: DocsTree, dir: string, base: string, strict: bool, entries: seq<Entry>): (flags: seq<bool>)
    ensures |flags| == |entries|
    ensures forall j :: 0 <= j < |entries| ==> flags[j] == ScanMatch(tree, dir, base, strict, entries[j])
  {
    seq(|entries|, j requires 0 <= j < |entries| => ScanMatch(tree, dir, base, strict, entries[j]))
  }

  /** The index of the first `true`, or the length when there is none. */
  function FirstTrue(flags: seq<bool>): (k: nat)
    ensures k <= |flags|
    ensures forall j :: 0 <= j < k ==> !flags[j]
    ensures k < |flags| ==> flags[k]
  {
    if flags == [] then 0
    else if flags[0] then 0
    else 1 + FirstTrue(flags[1..])
  }

  /** The path of the first entry the scan accepts. An unreadable file is skipped. */
  function Scan(tree: DocsTree, dir: string, base: string, strict: bool, entries: seq<Entry>): (r: Option<string>)
    ensures r.Some? ==> r.value in tree.files
  {
    var k := FirstTrue(Accepted(tree, dir, base, strict, entries));
    if k < |entries| then Some(JoinPath(dir, entries[k].name)) else None
  }

  /** The listing of a directory; one that cannot be read gives no entries (the error is swallowed). */
  function Listing(tree: DocsTree, dir: string): seq<Entry> {
    if dir in tree.listings then tree.listings[dir] else []
  }

  /** The file `resolveDocPath` returns, if any. */
  function Resolve(tree: DocsTree, docId: string, strict: bool): (r: Option<string>)
    ensures r.Some? ==> r.value in tree.files
  {
    var direct := FirstExisting(tree, Candidates(docId));
    if direct.Some? then direct
    else
      var dir := DirName(docId);
      Scan(tree, dir, BaseName(docId), strict, Listing(tree, dir))
  }

  /**
    `resolveDocPath`: tries the four candidate paths in turn, then scans the
    directory listing.
   */
  method ResolveDocPath(tree: DocsTree, docId: string, strict: bool) returns (r: Option<string>)
    ensures r == Resolve(tree, docId, strict)
  {
    var cands := Candidates(docId);
    var k := 0;
    while k < |cands|
      invariant 0 <= k <= |cands|
      invariant FirstExisting(tree, cands[k..]) == FirstExisting(tree, cands)
    {
      assert cands[k..][0] == cands[k] && cands[k..][1..] == cands[k + 1..];
      if cands[k] in tree.files {
        return Some(cands[k]);
      }
      k := k + 1;
    }
    var dir := DirName(docId);
    r := ScanDirectory(tree, dir, BaseName(docId), strict);
  }

  /** The directory scan of `resolveDocPath`, returning at the first accepted entry. */
  method ScanDirectory(tree: DocsTree, dir: string, base: string, strict: bool) returns (r: Option<string>)
    ensures r == Scan(tree, dir, base, strict, Listing(tree, dir))
  {
    var entries := Listing(tree, dir);
    ghost var flags := Accepted(tree, dir, base, strict, entries);
    var i := 0;
    while i < |entries|
      invariant 0 <= i <= |entries|
      invariant forall j :: 0 <= j < i ==> !flags[j]
    {
      var e := entries[i];
      if e.isFile && HasDocExtension(e.name) {
        var full := JoinPath(dir, e.name);
        if full in tree.files {
          var fid := ParseFrontmatter(tree.files[full]).id;
          if IdMatches(fid, base, strict) {
            assert flags[i];
            return Some(full);
          }
        }
      }
      assert !flags[i];
      i := i + 1;
    }
    return None;
  }

  // ---------------------------------------------------------------------------
  // The resolution order, stated declaratively
  // ---------------------------------------------------------------------------

  /** The first existing candidate is the one found. */
  lemma {:induction false} FirstExistingIsFirst(tree: DocsTree, cands: seq<string>, i: nat)
    requires i < |cands| && cands[i] in tree.files
    requires forall j :: 0 <= j < i ==> cands[j] !in tree.files
    ensures FirstExisting(tree, cands) == Some(cands[i])
    decreases i
  {
    if i > 0 {
      assert cands[0] !in tree.files;
      FirstExistingIsFirst(tree, cands[1..], i - 1);
    }
  }

  /** An exact `<id>.md` always wins. */
  lemma DirectMarkdownWins(tree: DocsTree, docId: string, strict: bool)
    requires docId + ".md" in tree.files
    ensures Resolve(tree, docId, strict) == Some(docId + ".md")
  {
  }

  /**
    The candidate paths are tried in order: the result is the first existing
    candidate, and the scan is reached only when none of the four exists.
   */
  lemma CandidateOrder(tree: DocsTree, docId: string, strict: bool, i: nat)
    requires i < 4
    requires Candidates(docId)[i] in tree.files
    requires forall j :: 0 <= j < i ==> Candidates(docId)[j] !in tree.files
    ensures Resolve(tree, docId, strict) == Some(Candidates(docId)[i])
  {
    FirstExistingIsFirst(tree, Candidates(docId), i);
  }

  /**
    When no candidate exists, a result comes from the scan: a `.md`/`.mdx`
    file of the id's directory whose frontmatter id is the base name, and no
    earlier entry qualifies.
   */
  lemma ScanResult(tree: DocsTree, docId: string, strict: bool)
    requires forall i :: 0 <= i < 4 ==> Candidates(docId)[i] !in tree.files
    requires Resolve(tree, docId, strict).Some?
    ensures var dir := DirName(docId);
      var entries := Listing(tree, dir);
      exists k :: 0 <= k < |entries|
        && Resolve(tree, docId, strict).value == JoinPath(dir, entries[k].name)
        && entries[k].isFile && HasDocExtension(entries[k].name)
        && ParseFrontmatter(tree.files[JoinPath(dir, entries[k].name)]).id == Some(BaseName(docId))
        && forall j :: 0 <= j < k ==> !ScanMatch(tree, dir, BaseName(docId), strict, entries[j])
  {
  }

  /** Resolution fails exactly when no candidate exists and no directory entry qualifies. */
  lemma UnresolvedIff(tree: DocsTree, docId: string, strict: bool)
    ensures Resolve(tree, docId, strict).None? <==>
      (forall i :: 0 <= i < 4 ==> Candidates(docId)[i] !in tree.files)
      && forall k :: 0 <= k < |Listing(tree, DirName(docId))| ==>
        !ScanMatch(tree, DirName(docId), BaseName(docId), strict, Listing(tree, DirName(docId))[k])
  {
  }

  /**
    The two scripts' id tests differ only for an empty base name, which the
    model's BaseName gives for an id ending in `/`: for every other id both
    scripts resolve to the same file.
   */
  lemma {:induction false} StrictnessIrrelevant(tree: DocsTree, docId: string)
    requires BaseName(docId) != ""
    ensures Resolve(tree, docId, true) == Resolve(tree, docId, false)
  {
    var dir := DirName(docId);
    ScanAgrees(tree, dir, BaseName(docId), Listing(tree, dir));
  }

  /** With a non-empty base name both id tests accept the same entries, so the scans agree. */
  lemma ScanAgrees(tree: DocsTree, dir: string, base: string, entries: seq<Entry>)
    requires base != ""
    ensures Scan(tree, dir, base, true, entries) == Scan(tree, dir, base, false, entries)
  {
    var strictFlags := Accepted(tree, dir, base, true, entries);
    var looseFlags := Accepted(tree, dir, base, false, entries);
    forall j | 0 <= j < |entries| ensures strictFlags[j] == looseFlags[j] {
      var full := JoinPath(dir, entries[j].name);
      if full in tree.files {
        var fid := ParseFrontmatter(tree.files[full]).id;
        assert IdMatches(fid, base, true) == IdMatches(fid, base, false);
      }
    }
    assert strictFlags == looseFlags;
  }
}
