/**
  The llms index (`main` and `getDocMeta` of the llms script): a header,
  then for every top-level sidebar category with at least one document a
  `## label` section listing `- [title](url): description`, entries sorted by
  title.

  The site metadata and the intro paragraph are inputs; the ordering of
  titles (`localeCompare`) is an arbitrary total preorder passed in.
 */
module LlmsIndex {
  import opened Wrappers
  import opened Text
  import opened Frontmatter
  import opened Resolver
  import opened Urls
  import opened Titles
  import opened Paragraph
  import opened Descriptions
  import opened Sidebar

  /** Where a page's description came from. */
  datatype Source = FromFrontmatter | FromContent | NoSource

  datatype DocMeta = DocMeta(title: string, description: string, filePath: Option<string>, source: Source)

  /** A description from the frontmatter is a non-empty trimmed value; one from the content is compact and non-empty; otherwise there is none. */
  predicate WellSourced(source: Source, description: string) {
    match source
    case FromFrontmatter => description != "" && NoEdgeSpace(description)
    case FromContent => description != "" && Compact(description)
    case NoSource => description == ""
  }

  /** The title of a page: the frontmatter title when it is non-empty, else the title made from the id. */
  function PageTitle(fm: Frontmatter, docId: string): (t: string)
    ensures fm.title.Some? && fm.title.value != "" ==> t == fm.title.value
    ensures fm.title.None? || fm.title.value == "" ==> t == TitleCaseFromSlug(docId)
  {
    if fm.title.Some? && fm.title.value != "" then fm.title.value else TitleCaseFromSlug(docId)
  }

  /**
    `getDocMeta`: the title (contextualised under `rest-api`), the
    description from the frontmatter or else the first paragraph, the file,
    and where the description came from. An unresolved id keeps the title
    made from the id and has no description.
   */
  function GetDocMeta(tree: DocsTree, docId: string): (m: DocMeta)
    ensures m.filePath == Resolve(tree, docId, true)
    ensures WellSourced(m.source, m.description)
    ensures m.filePath.None? ==> m == DocMeta(TitleCaseFromSlug(docId), "", None, NoSource)
    ensures m.filePath.Some? ==>
      var content := tree.files[m.filePath.value];
      var fm := ParseFrontmatter(content);
      var fromFm := fm.description.Some? && fm.description.value != "";
      && m.title == ContextualizeTitle(PageTitle(fm, docId), StripDocExtension(m.filePath.value))
      && m.description == (if fromFm then fm.description.value else FirstParagraph(content))
      && (m.source == FromFrontmatter <==> fromFm)
      && (m.source == FromContent <==> !fromFm && m.description != "")
  {
    var file := Resolve(tree, docId, true);
    if file.None? then DocMeta(TitleCaseFromSlug(docId), "", None, NoSource)
    else
      var content := tree.files[file.value];
      var fm := ParseFrontmatter(content);
      var fromFm := fm.description.Some? && fm.description.value != "";
      var description := if fromFm then fm.description.value else FirstParagraph(content);
      var title := ContextualizeTitle(PageTitle(fm, docId), StripDocExtension(file.value));
      DocMeta(title, description, file, if fromFm then FromFrontmatter else if description != "" then FromContent else NoSource)
  }

  /** A frontmatter description always wins over the content, and is the one kept. */
  lemma FrontmatterDescriptionPreferred(tree: DocsTree, docId: string)
    requires Resolve(tree, docId, true).Some?
    requires var fm := ParseFrontmatter(tree.files[Resolve(tree, docId, true).value]);
      fm.description.Some? && fm.description.value != ""
    ensures GetDocMeta(tree, docId).source == FromFrontmatter
    ensures GetDocMeta(tree, docId).description
      == ParseFrontmatter(tree.files[Resolve(tree, docId, true).value]).description.value
  {
  }

  // ---------------------------------------------------------------------------
  // Entries
  // ---------------------------------------------------------------------------

  datatype IndexEntry = IndexEntry(id: string, title: string, description: string, url: string, source: Source, filePath: Option<string>)

  /** The entry the loop of `main` builds for one id. */
  function MakeEntry(tree: DocsTree, id: string, siteUrl: string): (e: IndexEntry)
    ensures e.id == id && WellSourced(e.source, e.description)
    ensures e.url == ComputeUrlForDoc(tree, id, siteUrl)
  {
    var meta := GetDocMeta(tree, id);
    IndexEntry(id, meta.title, meta.description, ComputeUrlForDoc(tree, id, siteUrl), meta.source, meta.filePath)
  }

  /** `f` applied to every element, in order. */
  function MapSeq<A, B>(f: A -> B, s: seq<A>): seq<B> {
    if s == [] then [] else MapSeq(f, s[..|s| - 1]) + [f(s[|s| - 1])]
  }

  lemma {:induction false} MapSeqAt<A, B>(f: A -> B, s: seq<A>)
    ensures |MapSeq(f, s)| == |s|
    ensures forall i :: 0 <= i < |s| ==> MapSeq(f, s)[i] == f(s[i])
    decreases |s|
  {
    if s != [] {
      MapSeqAt(f, s[..|s| - 1]);
    }
  }

  /** The entries of the ids, in id order. */
  function Entries(tree: DocsTree, ids: seq<string>, siteUrl: string): seq<IndexEntry> {
    MapSeq(id => MakeEntry(tree, id, siteUrl), ids)
  }

  /**
    The description printed for an entry: white space compacted; unless it
    came from the frontmatter, a poor one is replaced by the description
    generated from the path; then clipped to 400 characters.
   */
  function EntryDescription(e: IndexEntry, brand: string): (d: string)
    ensures |d| <= MaxDescription
  {
    var desc := CompactWhitespace(e.description);
    var chosen := if e.source != FromFrontmatter && IsPoorDescription(desc)
      then GeneratedDescriptionFromPath(e.id, e.filePath, brand) else desc;
    Clip(chosen)
  }

  /** `- [title](url)` and, when the description is not empty, `: description`. */
  function FormatEntry(e: IndexEntry, brand: string): (line: string)
    ensures StartsWith(line, "- [" + e.title + "](" + e.url + ")")
  {
    var d := EntryDescription(e, brand);
    var head := "- [" + e.title + "](" + e.url + ")";
    assert (head + ": " + d)[..|head|] == head;
    if d != "" then head + ": " + d else head
  }

  /**
    A frontmatter description is never replaced, however poor it looks: the
    entry prints it compacted and clipped, and unchanged when it is already
    compact and at most 400 characters long.
   */
  lemma FrontmatterNeverReplaced(e: IndexEntry, brand: string)
    requires e.source == FromFrontmatter
    ensures EntryDescription(e, brand) == Clip(CompactWhitespace(e.description))
    ensures Compact(e.description) && |e.description| <= MaxDescription ==> EntryDescription(e, brand) == e.description
  {
    if Compact(e.description) {
      CompactIsIdempotent(e.description);
    }
  }

  /**
    A description not taken from the frontmatter is replaced when it is poor:
    the entry then prints a generated text that starts with "Learn more about"
    and the brand (when that prefix fits in the clip); one that is not poor,
    already compact and at most 400 characters long is printed as it is.
   */
  lemma ContentReplacedWhenPoor(e: IndexEntry, brand: string)
    requires e.source != FromFrontmatter
    ensures IsPoorDescription(CompactWhitespace(e.description))
      && brand != "" && NoEdgeSpace(brand) && |LearnMore + brand| <= 397
      ==> StartsWith(EntryDescription(e, brand), LearnMore + brand)
    ensures !IsPoorDescription(e.description) && Compact(e.description) && |e.description| <= MaxDescription
      ==> EntryDescription(e, brand) == e.description
  {
    if IsPoorDescription(CompactWhitespace(e.description)) && brand != "" && NoEdgeSpace(brand) && |LearnMore + brand| <= 397 {
      GeneratedNamesBrand(e.id, e.filePath, brand);
      ClipKeepsPrefix(GeneratedDescriptionFromPath(e.id, e.filePath, brand), LearnMore + brand);
    }
    if Compact(e.description) {
      CompactIsIdempotent(e.description);
    }
  }

  /** Every entry gets a description: a generated one is never empty, and a frontmatter one is not empty to begin with. */
  lemma EveryEntryDescribed(e: IndexEntry, brand: string)
    requires WellSourced(e.source, e.description)
    ensures EntryDescription(e, brand) != ""
    ensures var line := FormatEntry(e, brand);
      line == "- [" + e.title + "](" + e.url + "): " + EntryDescription(e, brand)
  {
    ChosenNotEmpty(e, brand);
  }

  lemma ChosenNotEmpty(e: IndexEntry, brand: string)
    requires WellSourced(e.source, e.description)
    ensures EntryDescription(e, brand) != ""
  {
    var desc := CompactWhitespace(e.description);
    if e.source == FromFrontmatter {
      CompactKeepsNonEmpty(e.description);
      assert desc != "";
    } else if !IsPoorDescription(desc) {
      assert desc != "";
    }
  }

  /** Compacting a string that begins with a non-space character leaves it non-empty. */
  lemma CompactKeepsNonEmpty(s: string)
    requires s != [] && !IsSpace(s[0])
    ensures CompactWhitespace(s) != ""
  {
    var spaced := ReplaceRuns(s, Whitespace, ' ');
    assert spaced != [] && spaced[0] == s[0];
    TrimNonEmpty(spaced);
  }

  // ---------------------------------------------------------------------------
  // Sorting by title
  // ---------------------------------------------------------------------------

  /** The ordering of titles: total and transitive, as `localeCompare(...) <= 0` is. */
  ghost predicate TotalPreorder(le: (string, string) -> bool) {
    && (forall a, b :: le(a, b) || le(b, a))
    && (forall a, b, c :: le(a, b) && le(b, c) ==> le(a, c))
  }

  predicate SortedByTitle(s: seq<IndexEntry>, le: (string, string) -> bool) {
    forall i, j :: 0 <= i < j < |s| ==> le(s[i].title, s[j].title)
  }

  /** Inserts `e` before the first entry it does not come after. */
  function Insert(e: IndexEntry, xs: seq<IndexEntry>, le: (string, string) -> bool): (r: seq<IndexEntry>)
    ensures |r| == |xs| + 1
  {
    if xs == [] then [e]
    else if le(e.title, xs[0].title) then [e] + xs
    else [xs[0]] + Insert(e, xs[1..], le)
  }

  /** `all.sort((a, b) => a.title.localeCompare(b.title))`, as an insertion sort on values. */
  function SortByTitle(s: seq<IndexEntry>, le: (string, string) -> bool): (r: seq<IndexEntry>)
    ensures |r| == |s|
    ensures multiset(r) == multiset(s)
  {
    if s == [] then []
    else
      InsertPerm(s[0], SortByTitle(s[1..], le), le);
      assert s == [s[0]] + s[1..];
      Insert(s[0], SortByTitle(s[1..], le), le)
  }

  lemma {:induction false} InsertPerm(e: IndexEntry, xs: seq<IndexEntry>, le: (string, string) -> bool)
    ensures multiset(Insert(e, xs, le)) == multiset(xs) + multiset{e}
    decreases |xs|
  {
    if xs != [] {
      assert xs == [xs[0]] + xs[1..];
      if !le(e.title, xs[0].title) {
        InsertPerm(e, xs[1..], le);
      }
    }
  }

  lemma {:induction false} InsertSorted(e: IndexEntry, xs: seq<IndexEntry>, le: (string, string) -> bool)
    requires TotalPreorder(le) && SortedByTitle(xs, le)
    ensures SortedByTitle(Insert(e, xs, le), le)
    decreases |xs|
  {
    if xs == [] {
      return;
    }
    if le(e.title, xs[0].title) {
      var r := [e] + xs;
      forall i, j | 0 <= i < j < |r|
        ensures le(r[i].title, r[j].title)
      {
        if i == 0 {
          if j > 1 {
            assert le(xs[0].title, xs[j - 1].title);
          }
        }
      }
    } else {
      assert le(xs[0].title, e.title);
      InsertSorted(e, xs[1..], le);
      InsertPerm(e, xs[1..], le);
      var tail := Insert(e, xs[1..], le);
      var r := [xs[0]] + tail;
      forall j | 1 <= j < |r|
        ensures le(xs[0].title, r[j].title)
      {
        assert r[j] == tail[j - 1];
        assert tail[j - 1] in multiset(tail);
        if tail[j - 1] != e {
          assert tail[j - 1] in multiset(xs[1..]);
          var k :| 0 <= k < |xs[1..]| && xs[1..][k] == tail[j - 1];
          assert xs[k + 1] == tail[j - 1];
        }
      }
      forall i, j | 0 <= i < j < |r|
        ensures le(r[i].title, r[j].title)
      {
        if i > 0 {
          assert r[i] == tail[i - 1] && r[j] == tail[j - 1];
        }
      }
    }
  }

  /** The sort returns the same entries, ordered by title. */
  lemma {:induction false} SortByTitleCorrect(s: seq<IndexEntry>, le: (string, string) -> bool)
    requires TotalPreorder(le)
    ensures SortedByTitle(SortByTitle(s, le), le)
    ensures multiset(SortByTitle(s, le)) == multiset(s)
    decreases |s|
  {
    if s != [] {
      SortByTitleCorrect(s[1..], le);
      InsertSorted(s[0], SortByTitle(s[1..], le), le);
    }
  }

  // ---------------------------------------------------------------------------
  // The file
  // ---------------------------------------------------------------------------

  /** What `getSiteMeta` yields: the normalised site URL, the trimmed title and the trimmed tagline. */
  datatype SiteMeta = SiteMeta(siteUrl: string, title: string, tagline: string)

  /** `# title` (default "Documentation"), then an empty line and `> tagline` when there is one, the intro lines and an empty line. */
  function Header(site: SiteMeta, intro: seq<string>): (h: seq<string>)
    ensures |h| >= 2 && h[|h| - 1] == ""
    ensures h[0] == "# " + (if site.title != "" then site.title else "Documentation")
  {
    ["# " + (if site.title != "" then site.title else "Documentation")]
    + (if site.tagline != "" then ["", "> " + site.tagline] else [])
    + intro + [""]
  }

  /** The brand used in generated descriptions. */
  function Brand(site: SiteMeta): string {
    BrandFromTitle(if site.title != "" then site.title else "MultiversX")
  }

  /** One line per entry, in order. */
  function FormatAll(es: seq<IndexEntry>, brand: string): seq<string> {
    MapSeq(e => FormatEntry(e, brand), es)
  }

  /** The entries of one category: one per collected id, sorted by title. */
  function CategoryEntries(tree: DocsTree, site: SiteMeta, items: seq<Item>, le: (string, string) -> bool): seq<IndexEntry> {
    SortByTitle(Entries(tree, Collected([], items), site.siteUrl), le)
  }

  /** A category's section: nothing when it has no ids; else `## label`, its entry lines and an empty line. */
  function Section(tree: DocsTree, site: SiteMeta, caption: string, items: seq<Item>, le: (string, string) -> bool): seq<string> {
    if Collected([], items) == [] then []
    else ["## " + caption] + FormatAll(CategoryEntries(tree, site, items, le), Brand(site)) + [""]
  }

  function Sections(tree: DocsTree, site: SiteMeta, cats: SidebarConfig, le: (string, string) -> bool): seq<string> {
    if cats == [] then []
    else Sections(tree, site, cats[..|cats| - 1], le) + Section(tree, site, cats[|cats| - 1].0, cats[|cats| - 1].1, le)
  }

  /** The lines of `llms.txt`. */
  function IndexLines(tree: DocsTree, site: SiteMeta, intro: seq<string>, sidebar: SidebarConfig, le: (string, string) -> bool): seq<string> {
    Header(site, intro) + Sections(tree, site, sidebar, le)
  }

  /**
    `main` of the llms script: the header, then every category in order,
    skipping those with no ids.
   */
  method EmitIndex(tree: DocsTree, site: SiteMeta, intro: seq<string>, sidebar: SidebarConfig, le: (string, string) -> bool)
    returns (lines: seq<string>)
    ensures lines == IndexLines(tree, site, intro, sidebar, le)
  {
    var sections := [];
    for k := 0 to |sidebar|
      invariant sections == Sections(tree, site, sidebar[..k], le)
    {
      var section := EmitSection(tree, site, sidebar[k].0, sidebar[k].1, le);
      SectionsSnoc(tree, site, sidebar, k, le);
      sections := sections + section;
    }
    assert sidebar[..|sidebar|] == sidebar;
    lines := Header(site, intro) + sections;
  }

  lemma SectionsSnoc(tree: DocsTree, site: SiteMeta, sidebar: SidebarConfig, k: nat, le: (string, string) -> bool)
    requires k < |sidebar|
    ensures Sections(tree, site, sidebar[..k + 1], le)
      == Sections(tree, site, sidebar[..k], le) + Section(tree, site, sidebar[k].0, sidebar[k].1, le)
  {
    assert sidebar[..k + 1][..k] == sidebar[..k];
  }

  /** One category of `main`: its ids are collected; with none, nothing is printed. */
  method EmitSection(tree: DocsTree, site: SiteMeta, caption: string, items: seq<Item>, le: (string, string) -> bool)
    returns (section: seq<string>)
    ensures section == Section(tree, site, caption, items, le)
  {
    var ids := CollectDocIdsFromItems(items, []);
    if |ids| == 0 {
      return [];
    }
    var all := BuildEntries(tree, ids, site.siteUrl);
    all := SortByTitle(all, le);
    var body := FormatLines(all, Brand(site));
    section := ["## " + caption] + body + [""];
  }

  /** Each id's metadata and URL, in id order. */
  method BuildEntries(tree: DocsTree, ids: seq<string>, siteUrl: string) returns (all: seq<IndexEntry>)
    ensures all == Entries(tree, ids, siteUrl)
  {
    all := [];
    for i := 0 to |ids|
      invariant all == Entries(tree, ids[..i], siteUrl)
    {
      assert ids[..i + 1][..i] == ids[..i];
      var meta := GetDocMeta(tree, ids[i]);
      var url := ComputeUrlForDoc(tree, ids[i], siteUrl);
      all := all + [IndexEntry(ids[i], meta.title, meta.description, url, meta.source, meta.filePath)];
    }
    assert ids[..|ids|] == ids;
  }

  /** The printing loop over the sorted entries. */
  method FormatLines(all: seq<IndexEntry>, brand: string) returns (body: seq<string>)
    ensures body == FormatAll(all, brand)
  {
    body := [];
    for i := 0 to |all|
      invariant body == FormatAll(all[..i], brand)
    {
      assert all[..i + 1][..i] == all[..i];
      body := body + [FormatEntry(all[i], brand)];
    }
    assert all[..|all|] == all;
  }

  // ---------------------------------------------------------------------------
  // Layout of a section
  // ---------------------------------------------------------------------------

  /** A category is skipped exactly when its items hold no id. */
  lemma SectionSkippedIffNoIds(tree: DocsTree, site: SiteMeta, caption: string, items: seq<Item>, le: (string, string) -> bool)
    ensures Section(tree, site, caption, items, le) == [] <==> DocIds(items) == {}
  {
    CollectedProps([], items);
    var ids := Collected([], items);
    assert Elems([]) == {};
    if ids != [] {
      assert ids[0] in Elems(ids);
    }
  }

  /** A category has one entry per distinct id. */
  lemma CategoryEntriesCount(tree: DocsTree, site: SiteMeta, items: seq<Item>, le: (string, string) -> bool)
    ensures |CategoryEntries(tree, site, items, le)| == |DocIds(items)|
  {
    CollectedProps([], items);
    var ids := Collected([], items);
    assert Elems([]) == {};
    NoDupsCard(ids);
    MapSeqAt(id => MakeEntry(tree, id, site.siteUrl), ids);
  }

  /** The entries of a category are those of its ids, sorted by title. */
  lemma CategoryEntriesSorted(tree: DocsTree, site: SiteMeta, items: seq<Item>, le: (string, string) -> bool)
    requires TotalPreorder(le)
    ensures SortedByTitle(CategoryEntries(tree, site, items, le), le)
    ensures multiset(CategoryEntries(tree, site, items, le)) == multiset(Entries(tree, Collected([], items), site.siteUrl))
  {
    SortByTitleCorrect(Entries(tree, Collected([], items), site.siteUrl), le);
  }

  /** The printed lines are the entries formatted one by one. */
  lemma FormatAllAt(es: seq<IndexEntry>, brand: string)
    ensures |FormatAll(es, brand)| == |es|
    ensures forall i :: 0 <= i < |es| ==> FormatAll(es, brand)[i] == FormatEntry(es[i], brand)
  {
    MapSeqAt(e => FormatEntry(e, brand), es);
  }

  /**
    Otherwise its section is the `## label` line, one entry line per distinct
    id (in the order of the sorted entries), and an empty line.
   */
  lemma SectionLayout(tree: DocsTree, site: SiteMeta, caption: string, items: seq<Item>, le: (string, string) -> bool)
    requires DocIds(items) != {}
    ensures Framed(Section(tree, site, caption, items, le), "## " + caption, FormatAll(CategoryEntries(tree, site, items, le), Brand(site)))
    ensures |FormatAll(CategoryEntries(tree, site, items, le), Brand(site))| == |DocIds(items)|
  {
    SectionSkippedIffNoIds(tree, site, caption, items, le);
    CategoryEntriesCount(tree, site, items, le);
    var es := CategoryEntries(tree, site, items, le);
    FormatAllAt(es, Brand(site));
    FramedLines("## " + caption, FormatAll(es, Brand(site)));
  }

  lemma FramedLines(head: string, body: seq<string>)
    ensures Framed([head] + body + [""], head, body)
  {
    var sec := [head] + body + [""];
    forall i | 0 <= i < |body| ensures sec[i + 1] == body[i] {
    }
  }

  /** `sec` is the line `head`, then `body`, then an empty line. */
  predicate Framed(sec: seq<string>, head: string, body: seq<string>) {
    |sec| == |body| + 2 && sec[0] == head && sec[|body| + 1] == ""
    && forall i :: 0 <= i < |body| ==> sec[i + 1] == body[i]
  }

  /** Every entry line of a category names its page and its URL and carries a description. */
  lemma SectionEntriesDescribed(tree: DocsTree, site: SiteMeta, items: seq<Item>, le: (string, string) -> bool)
    requires TotalPreorder(le)
    ensures forall e :: e in CategoryEntries(tree, site, items, le) ==>
      FormatEntry(e, Brand(site)) == "- [" + e.title + "](" + e.url + "): " + EntryDescription(e, Brand(site))
  {
    var ids := Collected([], items);
    SortByTitleCorrect(Entries(tree, ids, site.siteUrl), le);
    var es := CategoryEntries(tree, site, items, le);
    var raw := Entries(tree, ids, site.siteUrl);
    MapSeqAt(id => MakeEntry(tree, id, site.siteUrl), ids);
    forall e | e in es
      ensures FormatEntry(e, Brand(site)) == "- [" + e.title + "](" + e.url + "): " + EntryDescription(e, Brand(site))
    {
      assert e in multiset(raw);
      var k :| 0 <= k < |raw| && raw[k] == e;
      EveryEntryDescribed(e, Brand(site));
    }
  }
}
