/**
  The per-page script's `main`: every doc id of the sidebar, taken once from
  the union of all categories, either resolves to a file — and a clean
  Markdown copy of the page, with a small header, is written at the page's
  URL path plus `.md` — or is skipped.
 */
module MdPages {
  import opened Wrappers
  import opened Text
  import opened Frontmatter
  import opened Sidebar
  import opened Resolver
  import opened Urls
  import opened MdxCleaner

  // ---------------------------------------------------------------------------
  // One page
  // ---------------------------------------------------------------------------

  /** A field JavaScript treats as true: present and not empty. */
  predicate Truthy(v: Option<string>) {
    v.Some? && v.value != ""
  }

  /**
    The header lines: `# title` when there is a title, then an empty line and
    `> description` when there is a description, then an empty line when
    either was written.
   */
  function HeaderLines(fm: Frontmatter): seq<string> {
    var title := if Truthy(fm.title) then ["# " + fm.title.value] else [];
    var desc := if Truthy(fm.description) then ["", "> " + fm.description.value] else [];
    var head := title + desc;
    if head == [] then [] else head + [""]
  }

  /** The text of a written page: its lines joined with line breaks, plus a final line break. */
  function PageText(fm: Frontmatter, cleaned: string): string {
    JoinWith(HeaderLines(fm) + [cleaned], "\n") + "\n"
  }

  /** The header as text, stated piece by piece. */
  function HeaderText(fm: Frontmatter): string {
    (if Truthy(fm.title) then "# " + fm.title.value + "\n" else "")
    + (if Truthy(fm.description) then "\n" + ("> " + fm.description.value) + "\n" else "")
    + (if Truthy(fm.title) || Truthy(fm.description) then "\n" else "")
  }

  /**
    The layout of a written page: the optional `# title` line, the optional
    blank line and `> description` line, a blank line when there was a header,
    then the cleaned body and a final line break.
   */
  lemma PageLayout(fm: Frontmatter, cleaned: string)
    ensures PageText(fm, cleaned) == HeaderText(fm) + cleaned + "\n"
  {
    var h := HeaderLines(fm);
    if h == [] {
      assert h + [cleaned] == [cleaned];
    } else {
      JoinAppend(h, cleaned, "\n");
      HeaderJoined(fm);
    }
  }

  lemma HeaderJoined(fm: Frontmatter)
    requires HeaderLines(fm) != []
    ensures JoinWith(HeaderLines(fm), "\n") + "\n" == HeaderText(fm)
  {
    var nl, e := "\n", "";
    if Truthy(fm.title) && Truthy(fm.description) {
      var t, d := "# " + fm.title.value, "> " + fm.description.value;
      assert HeaderLines(fm) == [t, e, d, e];
      JoinFour(t, e, d, e, nl);
      assert HeaderText(fm) == (t + nl) + (nl + d + nl) + nl;
    } else if Truthy(fm.title) {
      var t := "# " + fm.title.value;
      assert HeaderLines(fm) == [t, e];
      JoinTwo(t, e, nl);
      assert HeaderText(fm) == (t + nl) + nl;
    } else {
      var d := "> " + fm.description.value;
      assert HeaderLines(fm) == [e, d, e];
      JoinThree(e, d, e, nl);
      assert HeaderText(fm) == (nl + d + nl) + nl;
    }
  }

  lemma JoinTwo(a: string, b: string, sep: string)
    ensures JoinWith([a, b], sep) == a + sep + b
  {
    assert [a, b][1..] == [b];
  }

  lemma JoinThree(a: string, b: string, c: string, sep: string)
    ensures JoinWith([a, b, c], sep) == a + sep + (b + sep + c)
  {
    assert [a, b, c][1..] == [b, c];
    JoinTwo(b, c, sep);
  }

  lemma JoinFour(a: string, b: string, c: string, d: string, sep: string)
    ensures JoinWith([a, b, c, d], sep) == a + sep + (b + sep + (c + sep + d))
  {
    assert [a, b, c, d][1..] == [b, c, d];
    JoinThree(b, c, d, sep);
  }

  // ---------------------------------------------------------------------------
  // All pages
  // ---------------------------------------------------------------------------

  /** A file written by the script: its path (the URL path plus `.md`) and its text. */
  datatype Page = Page(path: string, text: string)

  /** The page written for an id that resolves to `file`. */
  function PageFor(tree: DocsTree, docId: string, file: string): Page
    requires file in tree.files
  {
    var raw := tree.files[file];
    Page(ComputeUrlPath(tree, docId) + ".md", PageText(ParseFrontmatter(raw), CleanMdxContent(raw)))
  }

  /** The page written for an id, or nothing when no file resolves for it. */
  function PageOf(tree: DocsTree, docId: string): Option<Page>
  {
    var file := Resolve(tree, docId, false);
    if file.None? then None else Some(PageFor(tree, docId, file.value))
  }

  /** What a loop writes over `ids`, in order: the present results of `pageOf`. */
  function Emitted<P>(ids: seq<string>, pageOf: string -> Option<P>): seq<P>
  {
    if ids == [] then []
    else
      var init := Emitted(ids[..|ids| - 1], pageOf);
      match pageOf(ids[|ids| - 1])
      case None => init
      case Some(p) => init + [p]
  }

  /** How many of `ids` have no result under `pageOf`. */
  function Missing<P>(ids: seq<string>, pageOf: string -> Option<P>): nat
  {
    if ids == [] then 0
    else Missing(ids[..|ids| - 1], pageOf) + (if pageOf(ids[|ids| - 1]).None? then 1 else 0)
  }

  /** The pages written for `ids`, in order: one for every id that resolves. */
  function Pages(tree: DocsTree, ids: seq<string>): seq<Page>
  {
    Emitted(ids, docId => PageOf(tree, docId))
  }

  /** How many of `ids` resolve to no file. */
  function Unresolved(tree: DocsTree, ids: seq<string>): nat
  {
    Missing(ids, docId => PageOf(tree, docId))
  }

  /** One more id that resolves adds its page. */
  lemma PagesSnocResolved(tree: DocsTree, ids: seq<string>, docId: string, file: string)
    requires Resolve(tree, docId, false) == Some(file)
    ensures Pages(tree, ids + [docId]) == Pages(tree, ids) + [PageFor(tree, docId, file)]
    ensures Unresolved(tree, ids + [docId]) == Unresolved(tree, ids)
  {
    assert (ids + [docId])[..|ids|] == ids;
    assert PageOf(tree, docId) == Some(PageFor(tree, docId, file));
  }

  /** One more id that does not resolve adds no page and is counted. */
  lemma PagesSnocUnresolved(tree: DocsTree, ids: seq<string>, docId: string)
    requires Resolve(tree, docId, false).None?
    ensures Pages(tree, ids + [docId]) == Pages(tree, ids)
    ensures Unresolved(tree, ids + [docId]) == Unresolved(tree, ids) + 1
  {
    assert (ids + [docId])[..|ids|] == ids;
    assert PageOf(tree, docId).None?;
  }

  /** The paths of the pages, in order (`generatedPaths`). */
  function PathsOf(pages: seq<Page>): (paths: seq<string>)
    ensures |paths| == |pages|
    ensures forall i :: 0 <= i < |pages| ==> paths[i] == pages[i].path
  {
    seq(|pages|, i requires 0 <= i < |pages| => pages[i].path)
  }

  /** The output directory after writing the pages in order: a later write to a path replaces an earlier one. */
  function Written(pages: seq<Page>): map<string, string>
  {
    if pages == [] then map[]
    else Written(pages[..|pages| - 1])[pages[|pages| - 1].path := pages[|pages| - 1].text]
  }

  /**
    The write/skip loop of `main`: for each collected id, resolve it (without
    the strict id check); an unresolved id is counted as skipped; otherwise
    the page is built line by line, written at its URL path plus `.md`, and
    its path recorded.
   */
  method EmitPages(tree: DocsTree, sidebar: SidebarConfig)
    returns (files: map<string, string>, generatedPaths: seq<string>, written: nat, skipped: nat)
    ensures files == Written(Pages(tree, SidebarIds(sidebar)))
    ensures generatedPaths == PathsOf(Pages(tree, SidebarIds(sidebar)))
    ensures written == |Pages(tree, SidebarIds(sidebar))|
    ensures skipped == Unresolved(tree, SidebarIds(sidebar))
    ensures written + skipped == |AllDocIds(sidebar)|
  {
    var ids := CollectAllDocIds(sidebar);
    files := map[];
    generatedPaths := [];
    written := 0;
    skipped := 0;
    ghost var pages: seq<Page> := [];
    for i := 0 to |ids|
      invariant pages == Pages(tree, ids[..i])
      invariant generatedPaths == PathsOf(pages)
      invariant files == Written(pages)
      invariant written == |pages|
      invariant skipped == Unresolved(tree, ids[..i])
    {
      var docId := ids[i];
      assert ids[..i + 1] == ids[..i] + [docId];
      var filePath := ResolveDocPath(tree, docId, false);
      if filePath.None? {
        PagesSnocUnresolved(tree, ids[..i], docId);
        skipped := skipped + 1;
        continue;
      }
      var page := BuildPage(tree, docId, filePath.value);
      PagesSnocResolved(tree, ids[..i], docId, filePath.value);
      WriteOne(pages, page);
      files := files[page.path := page.text];
      generatedPaths := generatedPaths + [page.path];
      written := written + 1;
      pages := pages + [page];
    }
    assert ids[..|ids|] == ids;
    PagesCount(tree, ids);
    NoDupsCard(ids);
  }

  /**
    The body of the loop for an id that resolves: read the file, parse its
    front matter, clean its content, push the header lines and the body, and
    join them.
   */
  method BuildPage(tree: DocsTree, docId: string, file: string) returns (page: Page)
    requires file in tree.files
    ensures page == PageFor(tree, docId, file)
  {
    var urlPath := ComputeUrlPath(tree, docId);
    var raw := tree.files[file];
    var fm := ParseFrontmatter(raw);
    var cleaned := CleanMdxContent(raw);
    var lines := PushHeader(fm);
    lines := lines + [cleaned];
    page := Page(urlPath + ".md", JoinWith(lines, "\n") + "\n");
  }

  /** The header lines pushed one by one onto an empty list. */
  method PushHeader(fm: Frontmatter) returns (lines: seq<string>)
    ensures lines == HeaderLines(fm)
  {
    lines := [];
    if Truthy(fm.title) {
      lines := lines + ["# " + fm.title.value];
    }
    if Truthy(fm.description) {
      lines := lines + ["", "> " + fm.description.value];
    }
    if |lines| > 0 {
      lines := lines + [""];
    }
  }

  // ---------------------------------------------------------------------------
  // What the loop guarantees
  // ---------------------------------------------------------------------------

  /** Every id either has a result or is missing, never both. */
  lemma {:induction false} EmittedCount<P>(ids: seq<string>, pageOf: string -> Option<P>)
    ensures |Emitted(ids, pageOf)| + Missing(ids, pageOf) == |ids|
    decreases |ids|
  {
    if ids != [] {
      EmittedCount(ids[..|ids| - 1], pageOf);
    }
  }

  /** The results written are exactly the results of the ids that have one. */
  lemma {:induction false} EmittedExactly<P>(ids: seq<string>, pageOf: string -> Option<P>)
    ensures forall p :: p in Emitted(ids, pageOf) <==> exists docId :: docId in ids && pageOf(docId) == Some(p)
    decreases |ids|
  {
    if ids != [] {
      var init := ids[..|ids| - 1];
      EmittedExactly(init, pageOf);
      assert ids == init + [ids[|ids| - 1]];
      forall p ensures p in Emitted(ids, pageOf) <==> exists docId :: docId in ids && pageOf(docId) == Some(p) {
        if p in Emitted(ids, pageOf) && p !in Emitted(init, pageOf) {
          assert pageOf(ids[|ids| - 1]) == Some(p);
        }
        if exists docId :: docId in ids && pageOf(docId) == Some(p) {
          var docId :| docId in ids && pageOf(docId) == Some(p);
          if docId in init {
            assert p in Emitted(init, pageOf);
          }
        }
      }
    }
  }

  /** Every id is either written or skipped, never both (`written + skipped` is the number of ids). */
  lemma PagesCount(tree: DocsTree, ids: seq<string>)
    ensures |Pages(tree, ids)| + Unresolved(tree, ids) == |ids|
  {
    EmittedCount(ids, docId => PageOf(tree, docId));
  }

  /**
    The pages are exactly those of the resolved ids: each page is the one
    built for some id that resolves, and each id that resolves has its page.
   */
  lemma PagesAreResolvedIds(tree: DocsTree, ids: seq<string>)
    ensures forall p :: p in Pages(tree, ids) <==>
      exists docId :: docId in ids && PageOf(tree, docId) == Some(p)
    ensures forall docId :: docId in ids ==> (PageOf(tree, docId).Some? <==> Resolve(tree, docId, false).Some?)
  {
    EmittedExactly(ids, docId => PageOf(tree, docId));
  }

  /** Every generated path is a URL path beginning with `/`, with `.md` appended. */
  lemma PagePaths(tree: DocsTree, ids: seq<string>)
    ensures forall p :: p in Pages(tree, ids) ==>
      |p.path| >= 4 && p.path[0] == '/' && p.path[|p.path| - 3..] == ".md"
  {
    PagesAreResolvedIds(tree, ids);
    forall p | p in Pages(tree, ids) ensures |p.path| >= 4 && p.path[0] == '/' && p.path[|p.path| - 3..] == ".md" {
      var docId :| docId in ids && PageOf(tree, docId) == Some(p);
      PageOfPath(tree, docId, p);
    }
  }

  /**
    An id gets a page exactly when it resolves without the strict id test; the
    page is the one built from that file, at the URL path plus `.md`.
   */
  lemma PageOfResolves(tree: DocsTree, docId: string)
    ensures PageOf(tree, docId).Some? <==> Resolve(tree, docId, false).Some?
    ensures PageOf(tree, docId).Some? ==>
      PageOf(tree, docId).value == PageFor(tree, docId, Resolve(tree, docId, false).value)
      && PageOf(tree, docId).value.path == ComputeUrlPath(tree, docId) + ".md"
  {
  }

  lemma PageOfPath(tree: DocsTree, docId: string, p: Page)
    requires PageOf(tree, docId) == Some(p)
    ensures |p.path| >= 4 && p.path[0] == '/' && p.path[|p.path| - 3..] == ".md"
  {
    var u := ComputeUrlPath(tree, docId);
    var md := ".md";
    assert p.path == u + md;
    assert (u + md)[|u|..] == md;
  }

  /** Writing one more page records its path and sets its file. */
  lemma WriteOne(pages: seq<Page>, page: Page)
    ensures PathsOf(pages + [page]) == PathsOf(pages) + [page.path]
    ensures Written(pages + [page]) == Written(pages)[page.path := page.text]
  {
    assert (pages + [page])[..|pages|] == pages;
  }

  /** The files written are exactly the generated paths. */
  lemma {:induction false} WrittenKeys(pages: seq<Page>)
    ensures Written(pages).Keys == Elems(PathsOf(pages))
    decreases |pages|
  {
    if pages != [] {
      var init := pages[..|pages| - 1];
      WrittenKeys(init);
      assert PathsOf(pages) == PathsOf(init) + [pages[|pages| - 1].path];
    }
  }

  /** A file holds the text of the last page written at its path. */
  lemma {:induction false} LastWriteWins(pages: seq<Page>, k: nat)
    requires k < |pages|
    requires forall j :: k < j < |pages| ==> pages[j].path != pages[k].path
    ensures pages[k].path in Written(pages) && Written(pages)[pages[k].path] == pages[k].text
    decreases |pages|
  {
    if k < |pages| - 1 {
      var init := pages[..|pages| - 1];
      LastWriteWins(init, k);
    }
  }
}
