/**
 * The link extractor `extract_article_links`: from the hyperlink targets of a
 * listing page, keep the same-site article URLs of the news section.
 *
 * The HTML parser that lists the `href` attributes and the URL library that
 * joins an href to the site's base URL and splits the result are outside the
 * model: the hrefs are an input sequence, and joining is an abstract function
 * `join` giving, for each href, the joined URL and its network location and path.
 */
module LinkFilter {
  import opened Wrappers
  import opened Strings

  /** The network location of the site's base URL `https://media.kpfu.ru`. */
  const BASE_NETLOC := "media.kpfu.ru"

  /** Paths ending in one of these (after lower-casing) are not documents. */
  const BLOCKED_EXTENSIONS: seq<string> :=
    [".js", ".css", ".png", ".jpg", ".jpeg", ".gif", ".svg", ".ico", ".pdf", ".doc", ".docx"]

  /** Hrefs starting with these are in-page fragments or script code. */
  const FRAGMENT_PREFIX := "#"
  const SCRIPT_PREFIX := "javascript:"

  /** The marker of feed URLs, which are never articles. */
  const FEED_MARKER := "rss"

  /** The news section's path; articles lie inside it, the bare listing is not one. */
  const NEWS_PATH := "/news"
  const NEWS_PATH_SLASH := "/news/"

  /** An href joined to the base URL: the absolute URL and the parts the filter looks at. */
  datatype Resolved = Resolved(url: string, netloc: string, path: string)

  /** References to an in-page fragment or to script code are skipped before joining. */
  predicate IsSkippedHref(href: string) {
    IsPrefix(FRAGMENT_PREFIX, href) || IsPrefix(SCRIPT_PREFIX, href)
  }

  /** Python's `any(path.endswith(ext) for ext in exts)`, trying the extensions in list order. */
  function EndsWithAny(path: string, exts: seq<string>): (r: bool)
    ensures r <==> exists k :: 0 <= k < |exts| && IsSuffix(exts[k], path)
  {
    if exts == [] then
      false
    else if IsSuffix(exts[0], path) then
      true
    else
      var rest := EndsWithAny(path, exts[1..]);
      assert forall k :: 1 <= k < |exts| ==> exts[k] == exts[1..][k - 1];
      rest
  }

  /** Every condition a kept link satisfies, stated at once. */
  ghost predicate IsArticleLink(href: string, r: Resolved) {
    var path := Lower(r.path);
    !IsPrefix(FRAGMENT_PREFIX, href) && !IsPrefix(SCRIPT_PREFIX, href) &&
    r.netloc == BASE_NETLOC &&
    (forall k :: 0 <= k < |BLOCKED_EXTENSIONS| ==> !IsSuffix(BLOCKED_EXTENSIONS[k], path)) &&
    (forall i :: !OccursAt(FEED_MARKER, path, i)) &&
    path != NEWS_PATH && path != NEWS_PATH_SLASH &&
    (exists i :: OccursAt(NEWS_PATH, path, i))
  }

  /** The conditions of `IsArticleLink` are exactly the tests the extractor runs, in its order. */
  lemma ArticleLinkTests(href: string, r: Resolved)
    ensures IsArticleLink(href, r) <==>
      !IsSkippedHref(href) && r.netloc == BASE_NETLOC &&
      !EndsWithAny(Lower(r.path), BLOCKED_EXTENSIONS) &&
      !Contains(Lower(Lower(r.path)), FEED_MARKER) &&
      Lower(r.path) != NEWS_PATH && Lower(r.path) != NEWS_PATH_SLASH &&
      Contains(Lower(r.path), NEWS_PATH)
  {
    LowerIdempotent(r.path);
  }

  /**
   * One pass of the extractor's loop body: the filters in the order the
   * source applies them, giving the joined URL when the href is kept.
   */
  function Admit(href: string, r: Resolved): (u: Option<string>)
    ensures u.Some? <==> IsArticleLink(href, r)
    ensures u.Some? ==> u.value == r.url
  {
    ArticleLinkTests(href, r);
    if IsSkippedHref(href) then None
    else if r.netloc != BASE_NETLOC then None
    else
      var path := Lower(r.path);
      if EndsWithAny(path, BLOCKED_EXTENSIONS) then None
      else if Contains(Lower(path), FEED_MARKER) then None
      else if path == NEWS_PATH || path == NEWS_PATH_SLASH then None
      else if Contains(path, NEWS_PATH) then Some(r.url)
      else None
  }

  /**
   * The set the extractor returns for `hrefs`, built as the source's loop
   * builds it: one href after another, adding each admitted URL.
   */
  function ArticleLinks(hrefs: seq<string>, join: string -> Resolved): set<string> {
    if hrefs == [] then
      {}
    else
      var last := hrefs[|hrefs| - 1];
      var u := Admit(last, join(last));
      ArticleLinks(hrefs[..|hrefs| - 1], join) + (if u.Some? then {u.value} else {})
  }

  /** A URL is extracted exactly when some href in the list is admitted and joins to it. */
  lemma {:induction false} ArticleLinksMembership(hrefs: seq<string>, join: string -> Resolved, url: string)
    ensures url in ArticleLinks(hrefs, join) <==>
      exists h :: h in hrefs && Admit(h, join(h)) == Some(url)
  {
    if hrefs != [] {
      var init := hrefs[..|hrefs| - 1];
      var last := hrefs[|hrefs| - 1];
      ArticleLinksMembership(init, join, url);
      assert hrefs == init + [last];
      assert forall h :: h in hrefs <==> h in init || h == last;
    }
  }

  /** Each href adds at most one URL, so there are never more links than hrefs. */
  lemma {:induction false} ArticleLinksBound(hrefs: seq<string>, join: string -> Resolved)
    ensures |ArticleLinks(hrefs, join)| <= |hrefs|
  {
    if hrefs != [] {
      ArticleLinksBound(hrefs[..|hrefs| - 1], join);
    }
  }

  /**
   * Every extracted URL comes unchanged from an href that passes each filter:
   * not a fragment or script reference, same network location as the base,
   * no blocked extension, no "rss", not the bare listing path, and inside "/news".
   */
  lemma ArticleLinksSound(hrefs: seq<string>, join: string -> Resolved, url: string)
    requires url in ArticleLinks(hrefs, join)
    ensures exists h :: h in hrefs && join(h).url == url && IsArticleLink(h, join(h))
  {
    ArticleLinksMembership(hrefs, join, url);
  }

  /**
   * The result depends only on which hrefs occur, not on their order or
   * repetition: the extractor is deterministic and order-insensitive.
   */
  lemma ArticleLinksOrderInsensitive(hrefs1: seq<string>, hrefs2: seq<string>, join: string -> Resolved)
    requires forall h :: h in hrefs1 <==> h in hrefs2
    ensures ArticleLinks(hrefs1, join) == ArticleLinks(hrefs2, join)
  {
    forall url ensures url in ArticleLinks(hrefs1, join) <==> url in ArticleLinks(hrefs2, join) {
      ArticleLinksMembership(hrefs1, join, url);
      ArticleLinksMembership(hrefs2, join, url);
    }
  }

  /** The listing page itself, with or without a trailing slash, is never an article. */
  lemma ListingRootRejected(href: string, r: Resolved)
    requires Lower(r.path) == "/news" || Lower(r.path) == "/news/"
    ensures Admit(href, r) == None
  {
  }

  /** `extract_article_links` over the parser's href list: a loop adding to a local set. */
  method ExtractArticleLinks(hrefs: seq<string>, join: string -> Resolved) returns (links: set<string>)
    ensures links == ArticleLinks(hrefs, join)
  {
    links := {};
    for i := 0 to |hrefs|
      invariant links == ArticleLinks(hrefs[..i], join)
    {
      var href := hrefs[i];
      assert hrefs[..i + 1][..i] == hrefs[..i];
      var u := Admit(href, join(href));
      if u.Some? {
        links := links + {u.value};
      }
    }
    assert hrefs[..|hrefs|] == hrefs;
  }
}
