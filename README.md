# Documentation artefact generators — a verified model

This project models the logic of two build scripts of a Docusaurus documentation site.

- `scripts/generate-llms-txt.js` writes `static/llms.txt`. That file opens with a header, then has one `## category` section per top-level sidebar category. Each section lists its documents as `- [title](url): description` lines.
- `scripts/generate-md-urls.js` writes one clean Markdown file per sidebar document, at `static/<url path>.md`. The file has a `# title` / `> description` header and MDX-free body text.

Both scripts do the same groundwork:

1. They walk the sidebar tree and collect document ids, keeping insertion order and dropping duplicates.
2. They resolve each id to a file under `docs/`. The first success in this chain wins:
   - the exact `.md` or `.mdx` file;
   - the kebab-cased last segment;
   - a directory scan for a file whose frontmatter `id` equals the base name.
3. They read the YAML-like frontmatter block.
4. They compute the document's URL. A frontmatter slug that starts with `/` overrides the file's location.

On top of that, the llms script picks titles and descriptions:

- slug title-casing, with special segments;
- `rest-api` title contextualisation;
- the first prose paragraph of the body;
- a quality gate for poor descriptions;
- generated `Learn more about …` descriptions;
- clipping at 400 characters.

The md-urls script instead cleans MDX markup:

- `mdx-code-block` fences;
- `import` lines;
- `[comment]:` lines;
- `Tabs`/`TabItem`/`details`/`summary` wrappers;
- runs of blank lines.

File access is a parameter. The docs tree is a `DocsTree`: a map from docs-relative path to file contents, plus the `readdir` listing of each directory, in its given order.

Modules:

- `Wrappers` and `Text` (text.dfy): `Option`, and the string primitives the regexes are rewritten into.
- `Sidebar`: the sidebar tree and id collection.
- `Frontmatter`: the frontmatter block and its fields.
- `Resolver`: `resolveDocPath`, shared by both scripts. A `strict` flag captures their one difference, the truthiness test on the frontmatter id.
- `Urls`: `computeUrlForDoc`, `computeUrlPath`, and the site URL normalisation.
- `Titles`: title-casing and humanising of path segments.
- `Paragraph`: `extractFirstParagraph`.
- `Descriptions`: `isPoorDescription`, `brandFromTitle`, `generatedDescriptionFromPath`, and clipping.
- `LlmsIndex`: `getDocMeta` and the `main` of the llms script.
- `MdxCleaner`: `cleanMdxContent`.
- `MdPages`: the `main` of the md-urls script.

Code that mutates state step by step is modelled as methods with loops. This covers:

- the `Set` accumulator walk;
- the directory scan;
- the line scanner;
- the category and entry loops;
- the per-id write/skip loop.

Each of these methods is proved equal to a specification function. The properties the scripts promise are then lemmas about those functions.

## Model

| member | source | states |
|---|---|---|
| Sidebar.CollectDocIdsFromItems | scripts/generate-llms-txt.js:133-154 | The walk extends the accumulator without reordering it. A duplicate-free accumulator stays duplicate-free. The ids in the result are exactly the accumulator's ids plus every id the items contribute at any depth. |
| Sidebar.CollectedProps | scripts/generate-md-urls.js:41-61 | The collected sequence starts with the accumulator, has no new duplicates, and holds exactly the accumulator's ids plus the items' ids. |
| Sidebar.DocIdsAreOwnIdsOfNodes | scripts/generate-llms-txt.js:133-154 | The collected set is exactly the set of ids the nodes contribute on their own: every bare string, every non-empty `doc`/`id` object id, and every `link.id` of a `doc`-type category link, at any depth. |
| Sidebar.DocIdsBound | scripts/generate-llms-txt.js:133-154 | Duplicates collapse: the number of distinct ids is at most the number of contributing nodes. |
| Sidebar.NoDupsCard | scripts/generate-md-urls.js:198-201 | A duplicate-free id sequence has exactly as many elements as its set. |
| Sidebar.SidebarIdsProps | scripts/generate-md-urls.js:197-201 | The union over all top-level categories has no duplicates and holds exactly the ids of every category. |
| Sidebar.CollectAllDocIds | scripts/generate-md-urls.js:197-201 | The loop over `Object.values(sidebars.docs)` yields the duplicate-free union of every category's ids, in insertion order. |
| Frontmatter.ClosingIndex | scripts/generate-md-urls.js:107-111 | There is no block unless the content starts with `---` and has a `\n---` at index 3 or later. When found, the index is the first such `\n---`. |
| Frontmatter.Body | scripts/generate-llms-txt.js:208-213 | Without a frontmatter block the body is the whole content. Otherwise it is everything after the closing `\n---`. |
| Frontmatter.FirstFieldIsFirstKeyLine | scripts/generate-llms-txt.js:193-198 | A field's value comes from the first line of the block that carries that key. |
| Frontmatter.ParseFrontmatter | scripts/generate-md-urls.js:107-123 | Without an opening `---` and a later `\n---` the record is empty. Otherwise `_fmEnd` is the closing index plus 4, and every field value is trimmed. |
| Frontmatter.ReadFrontmatterSlug | scripts/generate-llms-txt.js:54-63 | Returns the same slug as the full parser. The slug needs a complete frontmatter block and is trimmed. |
| Resolver.Kebab | scripts/generate-llms-txt.js:75 | The kebab name never lengthens the name and has no whitespace left. A name without whitespace is its own kebab name. |
| Resolver.KebabRun | scripts/generate-llms-txt.js:75 | Each maximal whitespace run becomes exactly one `-`. For `a + run + b`, with `a` free of whitespace and `b` not starting with any, the kebab name is `a + "-" + Kebab(b)`. |
| Resolver.FirstExisting | scripts/generate-llms-txt.js:66-79 | The first candidate present in the tree is returned. None is returned iff no candidate exists. |
| Resolver.Resolve | scripts/generate-llms-txt.js:65-106 | A resolved path is always a file of the tree. |
| Resolver.ResolveDocPath | scripts/generate-llms-txt.js:65-106 | The candidate checks and the early-return directory loop compute `Resolve`. |
| Resolver.ScanDirectory | scripts/generate-md-urls.js:82-98 | The loop over directory entries returns the first `.md`/`.mdx` file whose frontmatter id equals the base name, or nothing. |
| Resolver.DirectMarkdownWins | scripts/generate-llms-txt.js:69 | When `<id>.md` exists it is the answer, whatever else exists. |
| Resolver.CandidateOrder | scripts/generate-llms-txt.js:66-79 | The candidates are tried in order: `<id>.md`, `<id>.mdx`, kebab `.md`, kebab `.mdx`. The first one that exists wins. |
| Resolver.ScanResult | scripts/generate-llms-txt.js:82-101 | When no candidate exists, a result is a directory entry that is a file with a `.md`/`.mdx` name and whose frontmatter id equals the base name. Every earlier entry failed those tests. |
| Resolver.UnresolvedIff | scripts/generate-md-urls.js:67-101 | Resolution fails iff no candidate exists and no directory entry matches. |
| Resolver.StrictnessIrrelevant | scripts/generate-md-urls.js:93 | For a non-empty base name, the two scripts' id tests (`fid && fid === base` and `idm && … === base`) resolve every id identically. |
| Urls.StripDocExtension | scripts/generate-llms-txt.js:114 | The result is a prefix of the input. It is strictly shorter iff the input ends in `.md`/`.mdx` (any case). |
| Urls.StripAppendedExtension | scripts/generate-md-urls.js:135 | Stripping `.md` or `.mdx` from `p + ext` gives back `p`. |
| Urls.SiteUrl | scripts/generate-llms-txt.js:39-43 | No `url` gives an empty site URL. |
| Urls.SiteUrlDefaultBase | scripts/generate-llms-txt.js:40-43 | With the default `baseUrl` of `/`, the site URL is `url` without its trailing slash. |
| Urls.SiteUrlWithBase | scripts/generate-llms-txt.js:41-43 | A base with or without slashes is joined to `url` with exactly one `/`, and no trailing slash is left. |
| Urls.ComputeUrlForDoc | scripts/generate-llms-txt.js:108-127 | The URL is `siteUrl` followed by a `/`-led path. |
| Urls.ComputeUrlPath | scripts/generate-md-urls.js:129-145 | The path is never empty and starts with `/`. |
| Urls.SlugOverridesLocation | scripts/generate-llms-txt.js:116-124 | A resolved file whose slug starts with `/` gets `siteUrl + slug`, wherever the file is. |
| Urls.SameSlugSameUrl | scripts/generate-llms-txt.js:116-124 | Two documents with the same absolute slug get the same URL. |
| Urls.DefaultIsRelativePath | scripts/generate-llms-txt.js:111-115 | Without an absolute slug, a resolved document's URL is `siteUrl + "/" +` its docs-relative path minus `.md`/`.mdx`. |
| Urls.DirectFileUrl | scripts/generate-md-urls.js:131-136 | A document stored at `<id>.md` without an absolute slug lives at `/<id>`, in both scripts. |
| Urls.UnresolvedUsesId | scripts/generate-llms-txt.js:110-126 | An unresolved id gets `siteUrl + "/" + id`. |
| Urls.EmptySiteUrlIsPath | scripts/generate-llms-txt.js:108-127 | With an empty `siteUrl` the URL is a bare `/`-led path. Every URL is `siteUrl` followed by that path. For an id with a non-empty base name, that path is the md-urls script's `computeUrlPath`. |
| Urls.UrlAgreesAcrossScripts | scripts/generate-md-urls.js:129-145 | For a non-empty base name, the llms URL is `siteUrl` plus the md-urls path. |
| Titles.Capitalize | scripts/generate-llms-txt.js:161 | Upper-cases the first character in ASCII and keeps the rest and the length. |
| Titles.TitleCaseFromSlug | scripts/generate-llms-txt.js:156-163 | Stated by `TitleCaseOfWords` (content), `TitleCaseWords` (shape) and `TitleCaseUsesLastSegment` (last segment only). |
| Titles.TitleCaseOfWords | scripts/generate-llms-txt.js:156-163 | Take non-empty words free of `-`, `_`, whitespace, `/` and line terminators, joined by any runs of `-`/`_`. Their title is the same words, capitalised and joined by single spaces. |
| Titles.GettingStarted | scripts/generate-llms-txt.js:156-178 | `getting-started` is titled `Getting Started`, both as a slug and as a segment. |
| Titles.TwoWordsTitle | scripts/generate-llms-txt.js:156-178 | Two lower-case words joined by `-` are titled as the two words capitalised and joined by a space. As a segment this holds when it is outside the special-case table. (`rest-api` is such a pair but is titled `Rest API`.) |
| Titles.TitleCaseWords | scripts/generate-llms-txt.js:156-163 | A slug title is empty, or every space-separated word in it is non-empty, free of `-`/`_`, and capitalised. |
| Titles.TitleCaseUsesLastSegment | scripts/generate-llms-txt.js:157 | Only the text after the last `/` matters. |
| Titles.HumanizedWords | scripts/generate-llms-txt.js:170-178 | A non-special segment turns into capitalised words, with no empty words and no dash or underscore runs. |
| Titles.HumanizeSegmentForTitle | scripts/generate-llms-txt.js:170-178 | Stated by `HumanizeOfWords` (content), `HumanizedWords` (shape), `SpecialSegments` (the table) and `LowerWordHumanized`. |
| Titles.HumanizeOfWords | scripts/generate-llms-txt.js:170-178 | Take a segment outside the special-case table, made of non-empty words free of `-`, `_` and whitespace and joined by runs of `-`/`_`. It is titled as those words capitalised and joined by single spaces, and its description form is that title lower-cased. |
| Titles.LowerWordHumanized | scripts/generate-llms-txt.js:170-183 | A segment of lower-case letters is titled by capitalising it, and its description form is the segment itself. |
| Titles.SpecialSegments | scripts/generate-llms-txt.js:165-172 | `rest-api` gives `Rest API`, `sdk-and-tools` gives `SDK and Tools`, and its description form is `sdk and tools`. |
| Titles.HumanizeSegmentForDescription | scripts/generate-llms-txt.js:180-183 | Each character is the lower-case form of the title's character at the same position. The length is the same, and no ASCII capital letters are left. |
| Titles.ContextualizeTitle | scripts/generate-llms-txt.js:256-266 | The title is kept or prefixed with `Rest API `, and nothing else. |
| Titles.ContextualizeIff | scripts/generate-llms-txt.js:256-266 | The prefix is added iff the path has at least two segments, the parent is `rest-api`, and the trimmed title equals the humanised last segment. |
| Paragraph.FlattenLinks | scripts/generate-llms-txt.js:229 | Never lengthens the line. Text without `[` is unchanged. |
| Paragraph.FlattenOneLink | scripts/generate-llms-txt.js:229 | `[text](target)` becomes `text`, and the rest is processed in turn. |
| Paragraph.StripInlineCode | scripts/generate-llms-txt.js:231 | Never lengthens the line. Text without a backtick is unchanged. |
| Paragraph.StripOneCodeSpan | scripts/generate-llms-txt.js:231 | A `` `code` `` span becomes `code`. |
| Paragraph.CompactWhitespace | scripts/generate-llms-txt.js:233 | The result has no edge whitespace, and its only whitespace is single spaces. |
| Paragraph.CompactIsIdempotent | scripts/generate-llms-txt.js:233 | Compacting an already compact string changes nothing. |
| Paragraph.CleanLine | scripts/generate-llms-txt.js:228-233 | A cleaned line is compact. |
| Paragraph.ExtractFirstParagraph | scripts/generate-llms-txt.js:207-237 | The scanning loop, with its `:::` toggle, computes `FirstParagraph`, and its result is compact. |
| Paragraph.FirstParagraph | scripts/generate-llms-txt.js:207-237 | The first paragraph is compact. What it selects is stated by `ScanIsFirstEligible`. |
| Paragraph.ScanIsCompact | scripts/generate-llms-txt.js:217-236 | Whatever the scan returns is compact. |
| Paragraph.ScanIsFirstEligible | scripts/generate-llms-txt.js:217-236 | The result is non-empty iff some line is eligible. An eligible line is non-blank, outside `:::` blocks, not `#`/`<`/`[comment]:`, and non-empty once cleaned. When one exists, the result is the first such line, cleaned. |
| Descriptions.PoorIgnoresTrailingSpace | scripts/generate-llms-txt.js:276 | The quality gate sees the trimmed text: trailing whitespace does not change the verdict. |
| Descriptions.IsPoorDescription | scripts/generate-llms-txt.js:274-285 | Its verdict is stated by `PoorIgnoresTrailingSpace` and `PlainTextIsNotPoor`. The 20-character threshold counts UTF-16 code units, as `length` does. |
| Descriptions.PlainTextIsNotPoor | scripts/generate-llms-txt.js:274-285 | Text of at least 20 characters made only of letters and digits is not poor: it has no fence, no `mdx-code-block`, no `:::` line and no `please take note`. |
| Descriptions.BrandFromTitle | scripts/generate-llms-txt.js:287-291 | The brand has no edge whitespace. An empty title gives `MultiversX`. |
| Descriptions.BrandStripsDocs | scripts/generate-llms-txt.js:290 | `Brand Docs` (any case of `docs`) gives `Brand`. |
| Descriptions.BrandStripsDocumentation | scripts/generate-llms-txt.js:290 | `Brand Documentation` (any case) gives `Brand`. |
| Descriptions.BrandKeepsOtherTitles | scripts/generate-llms-txt.js:290 | A trimmed title not ending in a `docs`/`documentation` word is its own brand. |
| Descriptions.DropIndex | scripts/generate-llms-txt.js:300 | Every kept segment is in the input and is not `index`. Every input segment other than `index` is kept. Input without `index` is returned unchanged. |
| Descriptions.DropIndexEmptyIff | scripts/generate-llms-txt.js:300 | Nothing is left iff every segment is `index`. |
| Descriptions.Segments | scripts/generate-llms-txt.js:296-300 | Segments are non-empty and never `index`. |
| Descriptions.GeneratedDescriptionFromPath | scripts/generate-llms-txt.js:295-307 | Never empty. With a non-empty, trimmed brand it starts with `Learn more about {brand}`. |
| Descriptions.GeneratedNamesBrand | scripts/generate-llms-txt.js:295-307 | A generated description always starts with `Learn more about {brand}`. |
| Descriptions.GeneratedNotEmpty | scripts/generate-llms-txt.js:295-307 | A generated description is never empty. |
| Descriptions.IndexIsDropped | scripts/generate-llms-txt.js:300 | `p/index` describes exactly like `p`. |
| Descriptions.OverviewIsDropped | scripts/generate-llms-txt.js:299-303 | Take any path `p` and a last segment `o` that lower-cases to `overview`. Let `X` be the segments of `p` (empty pieces and `index` removed). Then `p/o` has segments `X` when `X` is not empty, and `[o]` otherwise. Its description is built from those segments. |
| Descriptions.OverviewOfPlainSegment | scripts/generate-llms-txt.js:301-303 | For a plain segment `seg`, `seg/overview` describes exactly like `seg`. |
| Descriptions.WordOverviewDescribed | scripts/generate-llms-txt.js:295-307 | A lower-case segment `p` other than `index`, followed by an `overview` segment in any case, is described as `Learn more about {brand} p`. |
| Descriptions.PlainWordDescribed | scripts/generate-llms-txt.js:304-306 | A single lower-case segment `w` is described as `Learn more about {brand} w`. |
| Descriptions.DevelopersOverview | scripts/generate-llms-txt.js:295-307 | `developers/overview` is described as `Learn more about {brand} developers`. |
| Descriptions.NoSegmentsGiveDocumentation | scripts/generate-llms-txt.js:296-304 | For every id and file path, no segment is left iff every non-empty `/`-piece of the reference is `index`. In that case the text is `Learn more about {brand} documentation`. |
| Descriptions.EmptyAndIndexGiveDocumentation | scripts/generate-llms-txt.js:304 | An empty id and the id `index` both give `Learn more about {brand} documentation`. |
| Descriptions.Clip | scripts/generate-llms-txt.js:356 | The result is at most 400 characters. A short text is kept. A longer one is its first 397 characters followed by `...`. |
| Descriptions.ClipKeepsPrefix | scripts/generate-llms-txt.js:356 | Clipping keeps every prefix of at most 397 characters. |
| LlmsIndex.GetDocMeta | scripts/generate-llms-txt.js:239-272 | The file path is the strict resolution. An unresolved id gets its slug title and nothing else. For a resolved file, the title is the frontmatter title or the slug title, contextualised by the path. The description is the frontmatter description when it is non-empty, else the first paragraph. The source is `frontmatter` iff the former, `content` iff the latter is non-empty, and `none` only for an empty description. |
| LlmsIndex.FrontmatterDescriptionPreferred | scripts/generate-llms-txt.js:253-254 | A non-empty frontmatter description is taken as is and marked `frontmatter`. |
| LlmsIndex.MakeEntry | scripts/generate-llms-txt.js:341-348 | An entry keeps its id. Its description matches its source: non-empty for `frontmatter` and `content`, empty for `none`. Its URL is `computeUrlForDoc`'s. |
| LlmsIndex.FormatEntry | scripts/generate-llms-txt.js:357 | Every entry line starts with `- [title](url)`. |
| LlmsIndex.EntryDescription | scripts/generate-llms-txt.js:352-356 | At most 400 characters. Stated further by `FrontmatterNeverReplaced`, `ContentReplacedWhenPoor` and `EveryEntryDescribed`. |
| LlmsIndex.FrontmatterNeverReplaced | scripts/generate-llms-txt.js:352-356 | A frontmatter description is never replaced, only compacted and clipped. A compact one within the limit is emitted verbatim. |
| LlmsIndex.ContentReplacedWhenPoor | scripts/generate-llms-txt.js:352-356 | A description not from the frontmatter that is poor after compacting prints a generated text starting with `Learn more about {brand}` (when that prefix fits within 397 characters). One that is not poor, compact and at most 400 characters prints unchanged. |
| LlmsIndex.EveryEntryDescribed | scripts/generate-llms-txt.js:352-357 | The emitted description is never empty, so every line reads `- [title](url): description`. |
| LlmsIndex.SortByTitle | scripts/generate-llms-txt.js:350 | The sorted entries are a permutation of the input, of the same length. Ordering is stated by `SortByTitleCorrect`. |
| LlmsIndex.SortByTitleCorrect | scripts/generate-llms-txt.js:350 | Under a total preorder on titles, the sorted entries are ordered and a permutation of the input. |
| LlmsIndex.InsertSorted | scripts/generate-llms-txt.js:350 | Inserting into a sorted sequence keeps it sorted. |
| LlmsIndex.Header | scripts/generate-llms-txt.js:324-333 | The header starts with `# title` (default `Documentation`) and ends with an empty line. |
| LlmsIndex.EmitIndex | scripts/generate-llms-txt.js:309-366 | The loop over categories yields the header followed by every non-empty category's section, in order. |
| LlmsIndex.EmitSection | scripts/generate-llms-txt.js:335-360 | One category's loop yields its section: nothing for a category without ids, else `## label`, the entry lines and an empty line. |
| LlmsIndex.BuildEntries | scripts/generate-llms-txt.js:341-348 | The `all.push` loop yields one entry per id, in collection order. |
| LlmsIndex.FormatLines | scripts/generate-llms-txt.js:351-358 | The output loop yields one formatted line per sorted entry. |
| LlmsIndex.SectionSkippedIffNoIds | scripts/generate-llms-txt.js:338 | A section is empty iff its category has no ids. |
| LlmsIndex.CategoryEntriesCount | scripts/generate-llms-txt.js:336-348 | A category has one entry per distinct id. |
| LlmsIndex.CategoryEntriesSorted | scripts/generate-llms-txt.js:350 | A category's entries are sorted by title and are a permutation of the unsorted entries. |
| LlmsIndex.SectionLayout | scripts/generate-llms-txt.js:340-359 | A category with ids yields `## label`, then exactly one line per id, then an empty line. |
| LlmsIndex.SectionEntriesDescribed | scripts/generate-llms-txt.js:352-357 | Every line of a section carries `: description` after the link. |
| MdxCleaner.RemoveMdxCodeBlocks | scripts/generate-md-urls.js:159 | Never lengthens the text. Text without a backtick is unchanged. |
| MdxCleaner.FenceRemoved | scripts/generate-md-urls.js:159 | Take a whole ```` ```mdx-code-block ```` fence whose content has no three backticks before the closing ones (backticks inside are allowed). It is removed with its optional newline, and the rest is cleaned on its own. |
| MdxCleaner.PlainFenceRemoved | scripts/generate-md-urls.js:159 | In particular, a fence whose content has no backtick is removed. |
| MdxCleaner.ImportLinesRemoved | scripts/generate-md-urls.js:162 | Every `import` line becomes empty, every other line is kept, and no `import` line remains. |
| MdxCleaner.CommentLinesRemoved | scripts/generate-md-urls.js:165 | Every `[comment]: # (…)` line becomes empty, every other line is kept, and none remains. |
| MdxCleaner.NoDoomedLineKept | scripts/generate-md-urls.js:162-165 | Text without such lines is unchanged. |
| MdxCleaner.RemoveTags | scripts/generate-md-urls.js:169-178 | Never lengthens the text. Text without `<` is unchanged. |
| MdxCleaner.TagRemoved | scripts/generate-md-urls.js:169-177 | An opening tag is removed up to its first `>`, across lines, whatever its attributes. |
| MdxCleaner.LiteralRemoved | scripts/generate-md-urls.js:170-178 | A closing tag is removed. |
| MdxCleaner.TextBeforeTagKept | scripts/generate-md-urls.js:169-178 | Text before a tag is kept. |
| MdxCleaner.CollapseBlankLines | scripts/generate-md-urls.js:181 | The result has no three newlines in a row. A leading newline run is cut to at most two. |
| MdxCleaner.CollapseKeepsText | scripts/generate-md-urls.js:181 | Collapsing removes only newlines. |
| MdxCleaner.CollapseKeepsClean | scripts/generate-md-urls.js:181 | Text without three newlines in a row is unchanged. |
| MdxCleaner.CleanMdxContent | scripts/generate-md-urls.js:151-184 | The cleaned body has no edge whitespace and no three newlines in a row. |
| MdxCleaner.TabsKeepInnerText | scripts/generate-md-urls.js:167-183 | For `<Tabs …>` / `<TabItem …>` / text / `</TabItem>` / `</Tabs>` on separate lines, only the plain text line survives. |
| MdxCleaner.TabsHelloExample | scripts/generate-md-urls.js:167-183 | The five-line `Tabs` example with `Hello` cleans to `Hello`. |
| MdPages.PushHeader | scripts/generate-md-urls.js:220-223 | The pushes build `# title` when there is a title, `""` and `> description` when there is a description, and a blank line when there was any header. |
| MdPages.BuildPage | scripts/generate-md-urls.js:215-229 | A page goes to `<urlPath>.md` and holds the header lines plus the cleaned body, joined by `\n`, followed by a newline. |
| MdPages.PageLayout | scripts/generate-md-urls.js:220-229 | The written text is the optional title line, the optional blank line and `> description`, a blank line if there was a header, the cleaned body, and a trailing newline. |
| MdPages.EmitPages | scripts/generate-md-urls.js:203-233 | The loop writes one page per resolved id, in collection order, with later writes to a path overwriting earlier ones. It returns those pages' paths and counts them. Every other id counts as skipped, and `written + skipped` equals the number of distinct ids. |
| MdPages.EmittedExactly | scripts/generate-md-urls.js:208-232 | A page is emitted iff some id produces it. |
| MdPages.Pages | scripts/generate-md-urls.js:208-232 | Stated by `PagesCount` and `PagesAreResolvedIds`: one page per resolved id, in order, and every other id skipped. |
| MdPages.PageOf | scripts/generate-md-urls.js:209-229 | Stated by `PageOfResolves`. |
| MdPages.PageOfResolves | scripts/generate-md-urls.js:209-229 | An id gets a page iff it resolves without the strict id test. The page is the one built from that file, at `computeUrlPath` plus `.md`. |
| MdPages.PagesCount | scripts/generate-md-urls.js:208-232 | Every id is either written or skipped, never both. |
| MdPages.PagesAreResolvedIds | scripts/generate-md-urls.js:208-213 | The pages are exactly those of ids that resolve. An id yields a page iff it resolves. |
| MdPages.PagePaths | scripts/generate-md-urls.js:227-231 | Every page path starts with `/` and ends with `.md`. |
| MdPages.WrittenKeys | scripts/generate-md-urls.js:227-231 | The set of written files is exactly the set of reported paths. |
| MdPages.LastWriteWins | scripts/generate-md-urls.js:229 | A file's content is that of the last page written to its path. |

## Left out

- File access is a parameter: `fs.existsSync`, `readdir`, `readFile`, `mkdir` and `writeFile`. The tree is a map from docs-relative path to contents, plus a listing per directory in `readdir` order. `existsSync` on a directory named `<id>.md` is not modelled. A `readFile` failure, caught or not, is not modelled: the unguarded one in the md-urls `main` would abort the run.
- `require`/`safeRequire`, the `process.exit` when the sidebar is missing, console output and `async`/`await` are left out. Every await is sequential, so the loops are modelled as plain loops.
- `path.join`/`dirname`/`basename`/`relative` normalisation and backslash conversion are left out. The model's base name of an id ending in `/` is empty, where `path.basename` drops the trailing slash first. Paths are `/`-separated docs-relative strings, and `..`, `.` and doubled slashes are not normalised. The `static/` prefix of output paths is dropped: a page's path is `<urlPath>.md`.
- Regexes, `trim`, `toUpperCase` and `toLowerCase` are rewritten as string functions over ASCII whitespace and ASCII case. So `trim` keeps U+00A0 and U+FEFF at the ends of a title, a description or a frontmatter value, where the script removes them.
  - Frontmatter fields: the first block line whose left-trimmed text starts with `key:`, with the value trimmed and matching quotes removed.
  - `import` and `[comment]:` removal is line-wise. `\s` in these regexes can span a line break, and a trailing `\s*$` can swallow following blank lines; neither is modelled.
  - `\r` and U+2028/U+2029 as `m`-flag line anchors are handled only where a function splits lines.
- `localeCompare` is an abstract total preorder `le`. `SortByTitle` is a stable insertion sort over values, standing in for the in-place `Array.prototype.sort`. Stability is not proved.
- `getSiteMeta` scrapes `docusaurus.config.js`; only its `siteUrl` computation (lines 39-43) is modelled. `SiteMeta` takes the scraped title and tagline as inputs.
- The fixed intro prose of `llms.txt` is a parameter of `LlmsIndex.Header` and `LlmsIndex.EmitIndex`. The final `join('\n')` into one file and its write are left out: `EmitIndex` returns the lines.
- Urls.SiteUrl: its contract states only the empty-`url` case. The normalised forms are stated by `SiteUrlDefaultBase` and `SiteUrlWithBase`, for bases without inner slashes.
- Descriptions.StripDocsSuffix: removes a single whitespace character before `Docs`/`Documentation` rather than a whitespace run. The following `trim` makes the two equal for the brands stated in `BrandStripsDocs` and `BrandStripsDocumentation`.
- MdxCleaner.TabsKeepInnerText: states the inner-text property for one `Tabs`/`TabItem` pair on separate lines with attributes free of `<`, `>` and newlines. It does not state it for arbitrary nesting or for `details`/`summary`.
- Descriptions.Clip: counts and cuts in characters, where `length` and `slice` count UTF-16 code units. For text with characters outside the Basic Multilingual Plane, the model clips later than the script. A cut inside a surrogate pair, which the script can make, has no counterpart in a Dafny string.
- Titles.Capitalize: upper-cases ASCII letters only. `toUpperCase` also capitalises other letters: `élan` gives `Élan` in the script and `élan` here. It can also lengthen a string: `ß` becomes `SS`. The contract's "same length" holds only for the ASCII mapping.
- Titles.HumanizeSegmentForDescription: lower-cases ASCII letters only. `toLowerCase` also lowers `É` and `Ü`: the segment `Über-uns` is described as `über uns` by the script and as `Über uns` here. "No capital letters are left" is stated for ASCII capitals.
