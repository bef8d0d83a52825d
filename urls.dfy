/**
  Page URLs: `computeUrlForDoc` of the llms script (site URL prefix included)
  and `computeUrlPath` of the per-page script (path only), with the site URL
  normalisation of `getSiteMeta`.
 */
module Urls {
  import opened Wrappers
  import opened Text
  import opened Frontmatter
  import opened Resolver

  /** `rel.replace(/\.(md|mdx)$/i, '')`: drops one trailing `.md` or `.mdx`, in any case. */
  function StripDocExtension(rel: string): (r: string)
    ensures |r| <= |rel| && r == rel[..|r|]
    ensures HasDocExtension(rel) ==> |r| < |rel|
    ensures !HasDocExtension(rel) ==> r == rel
  {
    if EndsWithCI(rel, ".mdx") then rel[..|rel| - 4]
    else if EndsWithCI(rel, ".md") then rel[..|rel| - 3]
    else rel
  }

  /** Stripping undoes appending either extension. */
  lemma StripAppendedExtension(p: string)
    ensures StripDocExtension(p + ".md") == p
    ensures StripDocExtension(p + ".mdx") == p
  {
    var a := p + ".md";
    assert !EndsWithCI(a, ".mdx") by {
      if |a| >= 4 {
        assert LowerStr(a[|a| - 4..])[3] == Lower(a[|a| - 1]) == 'd';
        assert LowerStr(".mdx")[3] == 'x';
      }
    }
    assert a[|a| - 3..] == ".md";
    assert EndsWithCI(a, ".md");
    assert a[..|a| - 3] == p;
    var b := p + ".mdx";
    assert b[|b| - 4..] == ".mdx";
    assert EndsWithCI(b, ".mdx");
    assert b[..|b| - 4] == p;
  }

  /** `s.replace(/\/$/, '')`: drops one trailing `/`. */
  function DropTrailingSlash(s: string): (r: string)
    ensures r == s || (s != [] && s[|s| - 1] == '/' && r == s[..|s| - 1])
    ensures s == [] || s[|s| - 1] != '/' ==> r == s
  {
    if s != [] && s[|s| - 1] == '/' then s[..|s| - 1] else s
  }

  /**
    The `siteUrl` of `getSiteMeta`: empty without a configured `url`; otherwise
    the url without one trailing `/`, then `baseUrl` (default `/`, given a
    leading `/`), then one trailing `/` dropped.
   */
  function SiteUrl(url: Option<string>, baseUrl: Option<string>): (r: string)
    ensures url.None? || url.value == "" ==> r == ""
  {
    var base := if baseUrl.Some? then baseUrl.value else "/";
    var baseNorm := if StartsWith(base, "/") then base else "/" + base;
    if url.None? || url.value == "" then ""
    else DropTrailingSlash(DropTrailingSlash(url.value) + baseNorm)
  }

  /** With the default base, a url without a trailing slash is the site URL itself, and a single trailing slash is dropped. */
  lemma SiteUrlDefaultBase(url: string)
    requires url != "" && url[|url| - 1] != '/'
    ensures SiteUrl(Some(url), None) == url
    ensures SiteUrl(Some(url + "/"), None) == url
  {
    assert (url + "/")[..|url|] == url;
    assert (url + "/")[..|url + "/"| - 1] == url;
  }

  /** A base path `/docs/` (or `docs/`) is appended without its trailing slash. */
  lemma SiteUrlWithBase(url: string, base: string)
    requires url != "" && url[|url| - 1] != '/'
    requires base != "" && base[|base| - 1] != '/' && '/' !in base
    ensures SiteUrl(Some(url), Some("/" + base + "/")) == url + "/" + base
    ensures SiteUrl(Some(url), Some(base)) == url + "/" + base
  {
    var full := url + ("/" + base + "/");
    assert full[..|full| - 1] == url + "/" + base;
    assert !StartsWith(base, "/") by {
      assert base[0] != '/';
    }
  }

  /** The slug a file's frontmatter gives when it begins with `/`. */
  predicate AbsoluteSlug(slug: Option<string>) {
    slug.Some? && StartsWith(slug.value, "/")
  }

  /** `/` plus the docs-relative path without its extension, or `/` plus the id when unresolved. */
  function DefaultPath(file: Option<string>, docId: string): (p: string)
    ensures p != [] && p[0] == '/'
  {
    if file.None? then "/" + docId else "/" + StripDocExtension(file.value)
  }

  /**
    `computeUrlForDoc` (llms script): the URL is the site URL followed by a
    path beginning with `/`.
   */
  function ComputeUrlForDoc(tree: DocsTree, docId: string, siteUrl: string): (url: string)
    ensures StartsWith(url, siteUrl) && |url| > |siteUrl| && url[|siteUrl|] == '/'
  {
    var file := Resolve(tree, docId, true);
    var defaultPath := DefaultPath(file, docId);
    var slug := if file.Some? then ReadFrontmatterSlug(tree.files[file.value]) else None;
    if AbsoluteSlug(slug) then (if siteUrl != "" then siteUrl + slug.value else slug.value)
    else if siteUrl != "" then siteUrl + defaultPath else defaultPath
  }

  /** `computeUrlPath` (per-page script): a path beginning with `/`. */
  function ComputeUrlPath(tree: DocsTree, docId: string): (path: string)
    ensures path != [] && path[0] == '/'
  {
    var file := Resolve(tree, docId, false);
    var slug := if file.Some? then ParseFrontmatter(tree.files[file.value]).slug else None;
    if AbsoluteSlug(slug) then slug.value else DefaultPath(file, docId)
  }

  // ---------------------------------------------------------------------------
  // What the URL is made of
  // ---------------------------------------------------------------------------

  /** A `/`-leading slug is the URL, after the site URL, whatever the file's location. */
  lemma SlugOverridesLocation(tree: DocsTree, docId: string, siteUrl: string)
    requires Resolve(tree, docId, true).Some?
    requires AbsoluteSlug(ParseFrontmatter(tree.files[Resolve(tree, docId, true).value]).slug)
    ensures ComputeUrlForDoc(tree, docId, siteUrl)
      == siteUrl + ParseFrontmatter(tree.files[Resolve(tree, docId, true).value]).slug.value
  {
  }

  /** Two documents in different places with the same `/`-leading slug get the same URL. */
  lemma SameSlugSameUrl(t1: DocsTree, d1: string, t2: DocsTree, d2: string, siteUrl: string)
    requires Resolve(t1, d1, true).Some? && Resolve(t2, d2, true).Some?
    requires var s1 := ParseFrontmatter(t1.files[Resolve(t1, d1, true).value]).slug;
      AbsoluteSlug(s1) && s1 == ParseFrontmatter(t2.files[Resolve(t2, d2, true).value]).slug
    ensures ComputeUrlForDoc(t1, d1, siteUrl) == ComputeUrlForDoc(t2, d2, siteUrl)
  {
  }

  /** Without a `/`-leading slug the URL is the site URL, `/`, and the docs-relative path without its extension. */
  lemma DefaultIsRelativePath(tree: DocsTree, docId: string, siteUrl: string)
    requires Resolve(tree, docId, true).Some?
    requires !AbsoluteSlug(ParseFrontmatter(tree.files[Resolve(tree, docId, true).value]).slug)
    ensures ComputeUrlForDoc(tree, docId, siteUrl)
      == siteUrl + "/" + StripDocExtension(Resolve(tree, docId, true).value)
  {
    var file := Resolve(tree, docId, true);
    var rel := StripDocExtension(file.value);
    assert !AbsoluteSlug(ReadFrontmatterSlug(tree.files[file.value]));
    assert DefaultPath(file, docId) == "/" + rel;
    assert siteUrl + "/" + rel == siteUrl + ("/" + rel);
  }

  /** An id found as `<id>.md` without a `/`-leading slug is served at `/<id>`. */
  lemma DirectFileUrl(tree: DocsTree, docId: string, siteUrl: string)
    requires docId + ".md" in tree.files
    requires !AbsoluteSlug(ParseFrontmatter(tree.files[docId + ".md"]).slug)
    ensures ComputeUrlForDoc(tree, docId, siteUrl) == siteUrl + "/" + docId
    ensures ComputeUrlPath(tree, docId) == "/" + docId
  {
    assert siteUrl + "/" + docId == siteUrl + ("/" + docId);
    DirectMarkdownWins(tree, docId, true);
    DirectMarkdownWins(tree, docId, false);
    StripAppendedExtension(docId);
  }

  /** An unresolved id is served at `/` plus the id. */
  lemma UnresolvedUsesId(tree: DocsTree, docId: string, siteUrl: string)
    requires Resolve(tree, docId, true).None?
    ensures ComputeUrlForDoc(tree, docId, siteUrl) == siteUrl + "/" + docId
  {
    assert DefaultPath(None, docId) == "/" + docId;
    assert !AbsoluteSlug(None);
    assert siteUrl + "/" + docId == siteUrl + ("/" + docId);
  }

  /**
    An empty site URL gives the bare path, which starts with `/`: every URL is
    the site URL followed by it, and for an id with a non-empty base name it is
    the per-page script's path.
   */
  lemma EmptySiteUrlIsPath(tree: DocsTree, docId: string, siteUrl: string)
    ensures var url := ComputeUrlForDoc(tree, docId, "");
      url != [] && url[0] == '/'
      && ComputeUrlForDoc(tree, docId, siteUrl) == siteUrl + url
      && (BaseName(docId) != "" ==> url == ComputeUrlPath(tree, docId))
  {
    if BaseName(docId) != "" {
      StrictnessIrrelevant(tree, docId);
    }
  }

  /**
    For every id with a non-empty base name the llms script's URL is the site
    URL followed by the per-page script's path: both scripts serve a page at
    the same place.
   */
  lemma UrlAgreesAcrossScripts(tree: DocsTree, docId: string, siteUrl: string)
    requires BaseName(docId) != ""
    ensures ComputeUrlForDoc(tree, docId, siteUrl) == siteUrl + ComputeUrlPath(tree, docId)
  {
    StrictnessIrrelevant(tree, docId);
  }
}
