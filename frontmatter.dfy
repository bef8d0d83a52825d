/**
  The light frontmatter reader of both scripts (`parseFrontmatter`,
  `readFrontmatterSlug`, and the inline copies in `resolveDocPath`,
  `extractFirstParagraph` and `cleanMdxContent`).

  A block exists when the content starts with `---` and a later `\n---` occurs
  (searched from index 3). Each field is found by a multi-line regular
  expression; this model reads it line by line: the first line of the block
  whose left-trimmed text starts with `key:` gives the field, its value being
  the rest of the line, trimmed, with one pair of matching surrounding quotes
  removed, and trimmed again. `id`, `title` and `slug` need at least one
  character after the colon; `description` may be empty.
 */
module Frontmatter {
  import opened Wrappers
  import opened Text

  /** What the scripts read from a frontmatter block; `fmEnd` is the `_fmEnd` offset. */
  datatype Frontmatter = Frontmatter(
    id: Option<string>,
    title: Option<string>,
    slug: Option<string>,
    description: Option<string>,
    fmEnd: Option<nat>)

  /** The empty record `{}` returned when there is no block. */
  const NoFrontmatter := Frontmatter(None, None, None, None, None)

  const Opening := "---"
  const Closing := "\n---"

  /** The index of the `\n---` that closes a leading frontmatter block, when there is one. */
  function ClosingIndex(content: string): (r: Option<nat>)
    ensures r.None? ==> !StartsWith(content, Opening) || forall k :: 3 <= k ==> !MatchAt(content, Closing, k)
    ensures r.Some? ==>
      && StartsWith(content, Opening)
      && 3 <= r.value && MatchAt(content, Closing, r.value)
      && forall k :: 3 <= k < r.value ==> !MatchAt(content, Closing, k)
  {
    if !StartsWith(content, Opening) then None
    else
      var e := IndexOf(content, Closing, 3);
      if e < 0 then None else Some(e)
  }

  /**
    The content with its frontmatter block removed through the closing `\n---`
    (`content.slice(end + 4)`), or the whole content when there is no block.
   */
  function Body(content: string): (r: string)
    ensures ClosingIndex(content).None? ==> r == content
    ensures ClosingIndex(content).Some? ==>
      var cut := ClosingIndex(content).value + |Closing|;
      cut <= |content| && r == content[cut..]
  {
    var c := ClosingIndex(content);
    if c.None? then content else content[c.value + |Closing|..]
  }

  /** `(["']?)(.+?)\1`: a value wrapped in one pair of matching quotes loses them. */
  function Unquote(v: string, minLen: nat): string {
    if |v| >= minLen && |v| >= 2 && (v[0] == '"' || v[0] == '\'') && v[|v| - 1] == v[0]
    then v[1..|v| - 1] else v
  }

  /** The line is a `key:` line: left-trimmed, it starts with `key:` (followed by at least one character unless `allowEmpty`). */
  predicate IsKeyLine(line: string, key: string, allowEmpty: bool) {
    var t := TrimStart(line);
    StartsWith(t, key + ":") && (allowEmpty || |t| > |key| + 1)
  }

  /** The value of a `key:` line: the rest of the line, trimmed and unquoted. */
  function KeyValue(line: string, key: string, allowEmpty: bool): (v: string)
    requires IsKeyLine(line, key, allowEmpty)
    ensures NoEdgeSpace(v)
  {
    var t := TrimStart(line);
    Trim(Unquote(Trim(t[|key| + 1..]), if allowEmpty then 2 else 3))
  }

  /** The value a line gives for `key`, if it is a `key:` line. */
  function LineField(line: string, key: string, allowEmpty: bool): (r: Option<string>)
    ensures r.Some? ==> NoEdgeSpace(r.value)
  {
    if IsKeyLine(line, key, allowEmpty) then Some(KeyValue(line, key, allowEmpty)) else None
  }

  /** The value of the first `key:` line. */
  function FirstField(lines: seq<string>, key: string, allowEmpty: bool): (r: Option<string>)
    ensures r.Some? ==> NoEdgeSpace(r.value)
  {
    if lines == [] then None
    else
      var f := LineField(lines[0], key, allowEmpty);
      if f.Some? then f else FirstField(lines[1..], key, allowEmpty)
  }

  /** The field `key` of a frontmatter block. */
  function FieldValue(block: string, key: string, allowEmpty: bool): (r: Option<string>)
    ensures r.Some? ==> NoEdgeSpace(r.value)
  {
    FirstField(SplitOn(block, {'\n'}), key, allowEmpty)
  }

  /** The index of the first `key:` line, or the number of lines when there is none. */
  function FirstKeyLine(lines: seq<string>, key: string, allowEmpty: bool): (k: nat)
    ensures k <= |lines|
    ensures forall j :: 0 <= j < k ==> !IsKeyLine(lines[j], key, allowEmpty)
    ensures k < |lines| ==> IsKeyLine(lines[k], key, allowEmpty)
  {
    if lines == [] then 0
    else if IsKeyLine(lines[0], key, allowEmpty) then 0
    else 1 + FirstKeyLine(lines[1..], key, allowEmpty)
  }

  /**
    A field is present exactly when some line of the block is a `key:` line, and
    then its value is the one the first such line gives.
   */
  lemma {:induction false} FirstFieldIsFirstKeyLine(lines: seq<string>, key: string, allowEmpty: bool)
    ensures var k := FirstKeyLine(lines, key, allowEmpty);
      FirstField(lines, key, allowEmpty) == if k < |lines| then Some(KeyValue(lines[k], key, allowEmpty)) else None
    decreases |lines|
  {
    if lines != [] && !IsKeyLine(lines[0], key, allowEmpty) {
      FirstFieldIsFirstKeyLine(lines[1..], key, allowEmpty);
    }
  }

  predicate Trimmed(v: Option<string>) {
    v.None? || NoEdgeSpace(v.value)
  }

  /**
    `parseFrontmatter`: no field at all (and no `_fmEnd`) unless the content
    starts with `---` and has a later `\n---`; otherwise each field read from
    the block, trimmed, and `_fmEnd` is the closing index plus 4.
   */
  function ParseFrontmatter(content: string): (fm: Frontmatter)
    ensures ClosingIndex(content).None? ==> fm == NoFrontmatter
    ensures fm.fmEnd.Some? <==> ClosingIndex(content).Some?
    ensures fm.fmEnd.Some? ==> fm.fmEnd.value == ClosingIndex(content).value + 4
    ensures Trimmed(fm.id) && Trimmed(fm.title) && Trimmed(fm.slug) && Trimmed(fm.description)
  {
    var c := ClosingIndex(content);
    if c.None? then NoFrontmatter
    else
      var e := c.value;
      var block := content[3..e];
      Frontmatter(
        FieldValue(block, "id", false),
        FieldValue(block, "title", false),
        FieldValue(block, "slug", false),
        FieldValue(block, "description", true),
        Some(e + |Closing|))
  }

  /**
    `readFrontmatterSlug`: the same block detection and the same `slug` pattern,
    hence the same slug as `parseFrontmatter`.
   */
  function ReadFrontmatterSlug(content: string): (slug: Option<string>)
    ensures slug == ParseFrontmatter(content).slug
    ensures slug.Some? ==> ClosingIndex(content).Some? && NoEdgeSpace(slug.value)
  {
    if !StartsWith(content, Opening) then None
    else
      var e := IndexOf(content, Closing, 3);
      if e == -1 then None else FieldValue(content[3..e], "slug", false)
  }
}
