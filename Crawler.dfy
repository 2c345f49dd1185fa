/**
 * The crawl itself: the pagination walker that gathers candidate article URLs
 * from the news listing, and the frontier archiver that fetches candidates,
 * keeps the text pages under dense sequence numbers and builds the index.
 *
 * The network, the HTML parser and the URL library are oracles collected in
 * a `Site` value; the files written are returned as values. The walker and
 * the archiver are proved for any settings; `Crawl` runs them with `CONFIG`.
 */
module Crawler {
  import opened Wrappers
  import opened Decimal
  import opened Classifier
  import opened LinkFilter
  import opened IndexFile

  /**
   * The crawl's fixed settings: the unpaginated news listing, the query that
   * selects page n of it (followed by n), the number of saved pages at which
   * archiving stops, and the number of listing pages tried.
   */
  datatype Config = Config(newsUrl: string, pageQuery: string, minPages: nat, maxPagesToTry: nat)

  /** The settings the crawler runs with. */
  const CONFIG := Config("https://media.kpfu.ru/news", "?page=", 100, 30)

  /**
   * What the crawler learns from the outside world.
   * `fetch` is one GET: the body, or None on a network error, a timeout or an
   * HTTP error status. `hrefsOf` lists the href attributes of a page's anchors,
   * `join` resolves an href against the base URL, and `visibleText` is the
   * page's text with script, style, meta and link elements removed, trimmed.
   */
  datatype Site = Site(
    fetch: string -> Option<string>,
    hrefsOf: string -> seq<string>,
    join: string -> Resolved,
    visibleText: string -> string)

  /** One accepted page: its sequence number, its URL and its archive file name. */
  datatype SavedPage = SavedPage(number: nat, url: string, filename: string)

  /** A file written to the output directory. */
  datatype PageFile = PageFile(name: string, content: string)

  predicate Distinct(s: seq<string>) {
    forall i, j :: 0 <= i < j < |s| ==> s[i] != s[j]
  }

  lemma DistinctPrefix(s: seq<string>, n: nat)
    requires Distinct(s) && n <= |s|
    ensures Distinct(s[..n])
  {
    forall i, j | 0 <= i < j < n ensures s[..n][i] != s[..n][j] {
      assert s[..n][i] == s[i] && s[..n][j] == s[j];
    }
  }

  /** A fetch counts as successful only when it returned a non-empty body (Python's truthiness). */
  predicate Fetched(r: Option<string>) {
    r.Some? && r.value != []
  }

  // ----- Pagination walker -----

  /** The URL of listing page n: the listing, the page query, then n in decimal. */
  function PageUrl(cfg: Config, n: nat): string {
    cfg.newsUrl + cfg.pageQuery + NatToString(n)
  }

  /** Reads the page number back from a paginated listing URL, if it is one. */
  function PageNumber(cfg: Config, url: string): Option<nat> {
    var prefix := cfg.newsUrl + cfg.pageQuery;
    if |url| > |prefix| && url[..|prefix|] == prefix && AllDigits(url[|prefix|..])
    then Some(ParseDecimal(url[|prefix|..]))
    else None
  }

  /** The page number is read back from the URL of every listing page. */
  lemma PageUrlRoundTrip(cfg: Config, n: nat)
    ensures PageNumber(cfg, PageUrl(cfg, n)) == Some(n)
  {
    var prefix := cfg.newsUrl + cfg.pageQuery;
    var url := PageUrl(cfg, n);
    assert url[..|prefix|] == prefix && url[|prefix|..] == NatToString(n);
    ParseNatToString(n);
  }

  /** Distinct page numbers give distinct listing URLs, none of them the unpaginated one. */
  lemma PageUrlInjective(cfg: Config, a: nat, b: nat)
    ensures PageUrl(cfg, a) == PageUrl(cfg, b) ==> a == b
    ensures PageUrl(cfg, a) != cfg.newsUrl
  {
    var prefix := cfg.newsUrl + cfg.pageQuery;
    if PageUrl(cfg, a) == PageUrl(cfg, b) {
      assert NatToString(a) == PageUrl(cfg, a)[|prefix|..];
      assert NatToString(b) == PageUrl(cfg, b)[|prefix|..];
      NatToStringInjective(a, b);
    }
    assert |PageUrl(cfg, a)| > |cfg.newsUrl|;
  }

  /** The article links a listing URL yields: its extraction when fetched, nothing otherwise. */
  function ListingLinks(site: Site, url: string): set<string> {
    var r := site.fetch(url);
    if Fetched(r) then ArticleLinks(site.hrefsOf(r.value), site.join) else {}
  }

  /** Listing page n was fetched and yielded at least one link, so the walk goes on past it. */
  predicate PageContinues(site: Site, cfg: Config, n: nat) {
    ListingLinks(site, PageUrl(cfg, n)) != {}
  }

  /** The last listing page requested once the walk has gone past pages 1..n-1. */
  function LastPageFrom(site: Site, cfg: Config, n: nat): (last: nat)
    requires 1 <= n <= cfg.maxPagesToTry + 1
    ensures n - 1 <= last <= cfg.maxPagesToTry
    decreases cfg.maxPagesToTry + 1 - n
  {
    if n > cfg.maxPagesToTry then n - 1
    else if !PageContinues(site, cfg, n) then n
    else LastPageFrom(site, cfg, n + 1)
  }

  /** The last listing page the walker requests (0 only when no page is to be tried). */
  function LastListingPage(site: Site, cfg: Config): nat {
    LastPageFrom(site, cfg, 1)
  }

  /** The unpaginated listing URL followed by the URLs of pages 1..n. */
  function RequestsUpTo(cfg: Config, n: nat): (reqs: seq<string>)
    ensures |reqs| == n + 1 && reqs[0] == cfg.newsUrl
    ensures forall k :: 1 <= k <= n ==> reqs[k] == PageUrl(cfg, k)
  {
    if n == 0 then [cfg.newsUrl] else RequestsUpTo(cfg, n - 1) + [PageUrl(cfg, n)]
  }

  /** Every URL the walker requests, in order: the unpaginated listing, then pages 1 to the last. */
  function ListingRequests(site: Site, cfg: Config): seq<string> {
    RequestsUpTo(cfg, LastListingPage(site, cfg))
  }

  /** The union of the links of listing pages 1..n. */
  function PagesUnion(site: Site, cfg: Config, n: nat): set<string> {
    if n == 0 then {} else PagesUnion(site, cfg, n - 1) + ListingLinks(site, PageUrl(cfg, n))
  }

  lemma {:induction false} LastPageFromContinues(site: Site, cfg: Config, n: nat)
    requires 1 <= n <= cfg.maxPagesToTry + 1
    ensures forall k :: n <= k < LastPageFrom(site, cfg, n) ==> PageContinues(site, cfg, k)
    ensures n <= LastPageFrom(site, cfg, n) < cfg.maxPagesToTry ==> !PageContinues(site, cfg, LastPageFrom(site, cfg, n))
    decreases cfg.maxPagesToTry + 1 - n
  {
    if n <= cfg.maxPagesToTry && PageContinues(site, cfg, n) {
      LastPageFromContinues(site, cfg, n + 1);
    }
  }

  /**
   * The walk covers pages 1..last, in increasing order: every page before the
   * last was fetched and yielded links, and the last is the final page to try
   * or the first page that failed or yielded nothing.
   */
  lemma LastListingPageSpec(site: Site, cfg: Config)
    ensures LastListingPage(site, cfg) <= cfg.maxPagesToTry
    ensures cfg.maxPagesToTry >= 1 ==> LastListingPage(site, cfg) >= 1
    ensures forall k :: 1 <= k < LastListingPage(site, cfg) ==> PageContinues(site, cfg, k)
    ensures LastListingPage(site, cfg) < cfg.maxPagesToTry ==> !PageContinues(site, cfg, LastListingPage(site, cfg))
  {
    LastPageFromContinues(site, cfg, 1);
  }

  lemma {:induction false} LastPageFromBound(site: Site, cfg: Config, n: nat, p: nat)
    requires 1 <= n <= p <= cfg.maxPagesToTry && !PageContinues(site, cfg, p)
    ensures LastPageFrom(site, cfg, n) <= p
    decreases p - n
  {
    if n < p && PageContinues(site, cfg, n) {
      LastPageFromBound(site, cfg, n + 1, p);
    }
  }

  /**
   * A listing page that fails or yields no links ends the walk: no page after
   * it is ever requested.
   */
  lemma LaterPagesNotRequested(site: Site, cfg: Config, p: nat, q: nat)
    requires 1 <= p <= cfg.maxPagesToTry && !PageContinues(site, cfg, p)
    requires q > p
    ensures LastListingPage(site, cfg) <= p
    ensures PageUrl(cfg, q) !in ListingRequests(site, cfg)
  {
    LastPageFromBound(site, cfg, 1, p);
    var reqs := ListingRequests(site, cfg);
    forall i | 0 <= i < |reqs| ensures reqs[i] != PageUrl(cfg, q) {
      PageUrlInjective(cfg, q, q);
      PageUrlInjective(cfg, i, q);
    }
  }

  lemma {:induction false} PagesUnionMembership(site: Site, cfg: Config, n: nat, url: string)
    ensures url in PagesUnion(site, cfg, n) <==>
      exists k :: 1 <= k <= n && url in ListingLinks(site, PageUrl(cfg, k))
  {
    if n > 0 {
      PagesUnionMembership(site, cfg, n - 1, url);
    }
  }

  /** The candidate set once the unpaginated listing and pages 1..n have been read. */
  function Gathered(site: Site, cfg: Config, n: nat): set<string> {
    ListingLinks(site, cfg.newsUrl) + PagesUnion(site, cfg, n)
  }

  /** Reading page n either ends the walk there, adding nothing, or adds its links and goes on. */
  lemma NextPage(site: Site, cfg: Config, n: nat)
    requires 1 <= n <= cfg.maxPagesToTry
    ensures Gathered(site, cfg, n) == Gathered(site, cfg, n - 1) + ListingLinks(site, PageUrl(cfg, n))
    ensures PageContinues(site, cfg, n) ==> LastPageFrom(site, cfg, n) == LastPageFrom(site, cfg, n + 1)
    ensures !PageContinues(site, cfg, n) ==>
      LastPageFrom(site, cfg, n) == n && Gathered(site, cfg, n) == Gathered(site, cfg, n - 1)
  {
  }

  /**
   * The pagination phase of `crawl`: fetch the unpaginated listing, then pages
   * 1..maxPagesToTry in increasing order, stopping at the first failed fetch
   * or the first page without article links. The candidate set is the union
   * of everything extracted on the way.
   */
  method Paginate(site: Site, cfg: Config) returns (articleUrls: set<string>, requested: seq<string>)
    ensures requested == ListingRequests(site, cfg)
    ensures articleUrls == Gathered(site, cfg, LastListingPage(site, cfg))
  {
    requested := [cfg.newsUrl];
    articleUrls := {};
    var html := site.fetch(cfg.newsUrl);
    if Fetched(html) {
      var newLinks := ExtractArticleLinks(site.hrefsOf(html.value), site.join);
      articleUrls := articleUrls + newLinks;
    }
    assert articleUrls == Gathered(site, cfg, 0);
    for pageNum := 1 to cfg.maxPagesToTry + 1
      invariant requested == RequestsUpTo(cfg, pageNum - 1)
      invariant LastListingPage(site, cfg) == LastPageFrom(site, cfg, pageNum)
      invariant articleUrls == Gathered(site, cfg, pageNum - 1)
    {
      NextPage(site, cfg, pageNum);
      var paginatedUrl := PageUrl(cfg, pageNum);
      requested := requested + [paginatedUrl];
      html := site.fetch(paginatedUrl);
      if !Fetched(html) {
        break;
      }
      var newLinks := ExtractArticleLinks(site.hrefsOf(html.value), site.join);
      assert newLinks == ListingLinks(site, paginatedUrl);
      if newLinks == {} {
        break;
      }
      articleUrls := articleUrls + newLinks;
    }
  }

  // ----- Frontier archiver -----

  /** A candidate is kept when its fetch succeeds and the classifier accepts its text. */
  predicate Accepts(site: Site, url: string)
    ensures Accepts(site, url) ==>
      site.fetch(url).Some? && site.fetch(url).value != [] &&
      |site.visibleText(site.fetch(url).value)| >= MIN_TEXT_LENGTH
  {
    var r := site.fetch(url);
    Fetched(r) && IsTextPage(r.value, site.visibleText(r.value))
  }

  /** The candidates among `urls` that are kept, in the order they were visited. */
  function Selected(site: Site, urls: seq<string>): (kept: seq<string>)
    ensures |kept| <= |urls|
  {
    if urls == [] then []
    else
      var last := urls[|urls| - 1];
      Selected(site, urls[..|urls| - 1]) + (if Accepts(site, last) then [last] else [])
  }

  /** The kept candidates are exactly the accepted ones among those visited. */
  lemma {:induction false} SelectedMembers(site: Site, urls: seq<string>)
    ensures forall k :: 0 <= k < |Selected(site, urls)| ==>
      Accepts(site, Selected(site, urls)[k]) && Selected(site, urls)[k] in urls
    ensures forall u :: u in urls && Accepts(site, u) ==> u in Selected(site, urls)
  {
    if urls != [] {
      var init := urls[..|urls| - 1];
      SelectedMembers(site, init);
      assert urls == init + [urls[|urls| - 1]];
    }
  }

  /** Keeping is a filter: visiting distinct URLs keeps distinct URLs. */
  lemma {:induction false} SelectedDistinct(site: Site, urls: seq<string>)
    requires Distinct(urls)
    ensures Distinct(Selected(site, urls))
  {
    if urls != [] {
      var init := urls[..|urls| - 1];
      SelectedDistinct(site, init);
      SelectedMembers(site, init);
      assert forall u :: u in Selected(site, init) ==> u in init;
    }
  }

  /** When every visited URL is accepted, every one of them is kept. */
  lemma {:induction false} SelectedAll(site: Site, urls: seq<string>)
    requires forall k :: 0 <= k < |urls| ==> Accepts(site, urls[k])
    ensures Selected(site, urls) == urls
  {
    if urls != [] {
      SelectedAll(site, urls[..|urls| - 1]);
    }
  }

  /** The records of the kept URLs, numbered densely from 1 in the order they were kept. */
  function Records(kept: seq<string>): (pages: seq<SavedPage>)
    ensures |pages| == |kept|
  {
    seq(|kept|, k requires 0 <= k < |kept| => SavedPage(k + 1, kept[k], FileName(k + 1)))
  }

  /** The index records of the saved pages: one line per page, in sequence order. */
  function IndexEntries(pages: seq<SavedPage>): (entries: seq<string>)
    ensures |entries| == |pages|
  {
    seq(|pages|, k requires 0 <= k < |pages| => IndexLine(pages[k].number, pages[k].url))
  }

  /** The body a fetch returned, empty when it returned none. */
  function Body(r: Option<string>): string {
    if r.Some? then r.value else []
  }

  /** The files written for the saved pages: each page's fetched body under its file name. */
  function PageFiles(site: Site, pages: seq<SavedPage>): (written: seq<PageFile>)
    ensures |written| == |pages|
  {
    seq(|pages|, k requires 0 <= k < |pages| => PageFile(pages[k].filename, Body(site.fetch(pages[k].url))))
  }

  /** The record one visit of `url` appends to a run that has saved n pages: one exactly when it is accepted. */
  function NewRecords(site: Site, url: string, n: nat): seq<SavedPage> {
    if Accepts(site, url) then [SavedPage(n + 1, url, FileName(n + 1))] else []
  }

  /** The index line one visit of `url` appends. */
  function NewEntries(site: Site, url: string, n: nat): seq<string> {
    if Accepts(site, url) then [IndexLine(n + 1, url)] else []
  }

  /** The file one visit of `url` writes. */
  function NewFiles(site: Site, url: string, n: nat): seq<PageFile> {
    if Accepts(site, url) then [PageFile(FileName(n + 1), site.fetch(url).value)] else []
  }

  /** Visiting the next candidate keeps it exactly when it is accepted. */
  lemma SelectedNext(site: Site, candidates: seq<string>, i: nat)
    requires i < |candidates|
    ensures Selected(site, candidates[..i + 1]) ==
      Selected(site, candidates[..i]) + (if Accepts(site, candidates[i]) then [candidates[i]] else [])
  {
    assert candidates[..i + 1][..i] == candidates[..i];
  }

  lemma RecordsAppend(kept: seq<string>, url: string)
    ensures Records(kept + [url]) == Records(kept) + [SavedPage(|kept| + 1, url, FileName(|kept| + 1))]
  {
  }

  lemma IndexEntriesAppend(pages: seq<SavedPage>, extra: seq<SavedPage>)
    ensures IndexEntries(pages + extra) == IndexEntries(pages) + IndexEntries(extra)
  {
  }

  lemma PageFilesAppend(site: Site, pages: seq<SavedPage>, extra: seq<SavedPage>)
    ensures PageFiles(site, pages + extra) == PageFiles(site, pages) + PageFiles(site, extra)
  {
  }

  /** The archive's state after visiting `visited`: the records, index lines and files of the kept pages. */
  ghost predicate Archived(site: Site, visited: seq<string>,
                           saved: seq<SavedPage>, entries: seq<string>, files: seq<PageFile>) {
    saved == Records(Selected(site, visited)) &&
    entries == IndexEntries(saved) && files == PageFiles(site, saved)
  }

  /**
   * Visiting one more URL extends the records, the index and the files by
   * that URL's page exactly when it is accepted.
   */
  lemma VisitStep(site: Site, candidates: seq<string>, i: nat,
                  saved: seq<SavedPage>, entries: seq<string>, files: seq<PageFile>,
                  saved': seq<SavedPage>, entries': seq<string>, files': seq<PageFile>)
    requires i < |candidates|
    requires Archived(site, candidates[..i], saved, entries, files)
    requires saved' == saved + NewRecords(site, candidates[i], |saved|)
    requires entries' == entries + NewEntries(site, candidates[i], |saved|)
    requires files' == files + NewFiles(site, candidates[i], |saved|)
    ensures Archived(site, candidates[..i + 1], saved', entries', files')
  {
    var url := candidates[i];
    var kept := Selected(site, candidates[..i]);
    var added := NewRecords(site, url, |saved|);
    SelectedNext(site, candidates, i);
    IndexEntriesAppend(saved, added);
    PageFilesAppend(site, saved, added);
    if Accepts(site, url) {
      RecordsAppend(kept, url);
    } else {
      assert kept + [] == kept;
    }
  }

  /**
   * One pass of the frontier loop's body for `url`, once the target has not
   * been reached: fetch it, skip it when the fetch fails or the classifier
   * rejects it, and otherwise number it, write its file and record its index line.
   */
  method Visit(site: Site, url: string, pageCounter: nat,
               saved: seq<SavedPage>, indexEntries: seq<string>, files: seq<PageFile>)
    returns (counter': nat, saved': seq<SavedPage>, indexEntries': seq<string>, files': seq<PageFile>)
    ensures counter' == pageCounter + |NewRecords(site, url, pageCounter)|
    ensures saved' == saved + NewRecords(site, url, pageCounter)
    ensures indexEntries' == indexEntries + NewEntries(site, url, pageCounter)
    ensures files' == files + NewFiles(site, url, pageCounter)
  {
    counter', saved', indexEntries', files' := pageCounter, saved, indexEntries, files;
    var html := site.fetch(url);
    if !Fetched(html) {
      assert saved + [] == saved && indexEntries + [] == indexEntries && files + [] == files;
      return;
    }
    if !IsTextPage(html.value, site.visibleText(html.value)) {
      assert saved + [] == saved && indexEntries + [] == indexEntries && files + [] == files;
      return;
    }
    counter' := pageCounter + 1;
    var filename := FileName(counter');
    files' := files + [PageFile(filename, html.value)];
    saved' := saved + [SavedPage(counter', url, filename)];
    indexEntries' := indexEntries + [IndexLine(counter', url)];
  }

  /**
   * The frontier loop of `crawl` over the candidates in iteration order. It
   * stops before fetching once minPages pages are saved; a failed fetch or a
   * rejected page is skipped; each acceptance takes the next sequence number,
   * writes the page under its file name and records an index line.
   */
  method Archive(site: Site, cfg: Config, candidates: seq<string>)
    returns (saved: seq<SavedPage>, indexEntries: seq<string>, files: seq<PageFile>, fetched: seq<string>)
    // candidates are fetched in order, each at most once, and fetching stops early only at the target
    ensures |fetched| <= |candidates| && fetched == candidates[..|fetched|]
    ensures |fetched| < |candidates| ==> |saved| == cfg.minPages
    ensures |fetched| > 0 ==> |Selected(site, candidates[..|fetched| - 1])| < cfg.minPages
    // the saved pages are exactly the accepted fetched ones, numbered densely from 1
    ensures saved == Records(Selected(site, fetched)) && |saved| <= cfg.minPages
    // one index line and one file per saved page
    ensures indexEntries == IndexEntries(saved)
    ensures files == PageFiles(site, saved)
  {
    saved, indexEntries, files, fetched := [], [], [], [];
    var pageCounter := 0;
    for i := 0 to |candidates|
      invariant fetched == candidates[..i]
      invariant Archived(site, fetched, saved, indexEntries, files)
      invariant pageCounter == |saved| <= cfg.minPages
      invariant i > 0 ==> |Selected(site, candidates[..i - 1])| < cfg.minPages
    {
      if |saved| >= cfg.minPages {
        break;
      }
      var url := candidates[i];
      var saved', indexEntries', files';
      pageCounter, saved', indexEntries', files' := Visit(site, url, pageCounter, saved, indexEntries, files);
      VisitStep(site, candidates, i, saved, indexEntries, files, saved', indexEntries', files');
      fetched := candidates[..i + 1];
      saved, indexEntries, files := saved', indexEntries', files';
    }
  }

  /**
   * No more candidates than the target, all of them accepted: the run ends
   * with every candidate saved, a degraded but not failed outcome.
   */
  method ArchiveAllAccepted(site: Site, cfg: Config, candidates: seq<string>)
    returns (count: nat, saved: seq<SavedPage>, indexEntries: seq<string>)
    requires |candidates| <= cfg.minPages
    requires forall k :: 0 <= k < |candidates| ==> Accepts(site, candidates[k])
    ensures count == |candidates|
    ensures saved == Records(candidates)
    ensures indexEntries == IndexEntries(Records(candidates)) && |indexEntries| == |candidates|
  {
    var files, fetched;
    saved, indexEntries, files, fetched := Archive(site, cfg, candidates);
    assert |fetched| == |candidates|;
    assert fetched == candidates;
    SelectedAll(site, fetched);
    count := |saved|;
  }

  // ----- The whole run -----

  /** Python's iteration over a set: every element once, in an order the model leaves open. */
  method Enumerate(s: set<string>) returns (order: seq<string>)
    ensures Distinct(order)
    ensures forall u :: u in order <==> u in s
  {
    order := [];
    var rest := s;
    while rest != {}
      invariant Distinct(order)
      invariant forall u :: u in s <==> u in rest || u in order
      invariant forall u :: u in rest ==> u !in order
      decreases |rest|
    {
      var u :| u in rest;
      order := order + [u];
      rest := rest - {u};
    }
  }

  /** Every extracted link is the joined form of some href. */
  ghost predicate IsJoined(site: Site, url: string) {
    exists h :: site.join(h).url == url
  }

  lemma ListingLinksJoined(site: Site, listing: string, url: string)
    requires url in ListingLinks(site, listing)
    ensures IsJoined(site, url)
  {
    var r := site.fetch(listing);
    ArticleLinksSound(site.hrefsOf(r.value), site.join, url);
  }

  /**
   * Every candidate is the joined URL of an href, found on a listing page that
   * was read, that passes every filter of the link extractor.
   */
  lemma CandidatesAreArticles(site: Site, cfg: Config, url: string)
    requires url in Gathered(site, cfg, LastListingPage(site, cfg))
    ensures exists h :: site.join(h).url == url && IsArticleLink(h, site.join(h))
  {
    var listing := cfg.newsUrl;
    if url !in ListingLinks(site, cfg.newsUrl) {
      PagesUnionMembership(site, cfg, LastListingPage(site, cfg), url);
      var p :| 1 <= p <= LastListingPage(site, cfg) && url in ListingLinks(site, PageUrl(cfg, p));
      listing := PageUrl(cfg, p);
    }
    var r := site.fetch(listing);
    ArticleLinksSound(site.hrefsOf(r.value), site.join, url);
  }

  /** When the URL library never yields a newline, no candidate URL holds one. */
  lemma CandidateHasNoNewline(site: Site, cfg: Config, url: string)
    requires url in Gathered(site, cfg, LastListingPage(site, cfg))
    requires forall h :: NoNewline(site.join(h).url)
    ensures NoNewline(url)
  {
    if url in ListingLinks(site, cfg.newsUrl) {
      ListingLinksJoined(site, cfg.newsUrl, url);
    } else {
      PagesUnionMembership(site, cfg, LastListingPage(site, cfg), url);
      var p :| 1 <= p <= LastListingPage(site, cfg) && url in ListingLinks(site, PageUrl(cfg, p));
      ListingLinksJoined(site, PageUrl(cfg, p), url);
    }
    var h :| site.join(h).url == url;
    assert NoNewline(site.join(h).url);
  }

  /**
   * The records of a run over distinct URLs: numbered densely from 1, each
   * under its own file name, each an accepted visited URL, no URL twice.
   */
  lemma RecordsOfSelected(site: Site, fetched: seq<string>)
    requires Distinct(fetched)
    ensures var saved := Records(Selected(site, fetched));
      (forall j, k :: 0 <= j < k < |saved| ==> saved[j].url != saved[k].url) &&
      (forall k :: 0 <= k < |saved| ==>
        saved[k].number == k + 1 && saved[k].filename == FileName(k + 1) &&
        saved[k].url in fetched && Accepts(site, saved[k].url))
  {
    SelectedDistinct(site, fetched);
    SelectedMembers(site, fetched);
  }

  /**
   * When the URL library never yields a newline, the index file read back
   * has the two header lines and one line per saved candidate.
   */
  lemma IndexLineCount(site: Site, cfg: Config, fetched: seq<string>)
    requires forall u :: u in fetched ==>
      u in Gathered(site, cfg, LastListingPage(site, cfg))
    requires forall h :: NoNewline(site.join(h).url)
    ensures |SplitLines(IndexText(IndexEntries(Records(Selected(site, fetched)))))| ==
      |Selected(site, fetched)| + 2
  {
    var kept := Selected(site, fetched);
    var saved := Records(kept);
    var entries := IndexEntries(saved);
    SelectedMembers(site, fetched);
    forall k | 0 <= k < |entries| ensures NoNewline(entries[k]) {
      assert kept[k] in fetched;
      CandidateHasNoNewline(site, cfg, saved[k].url);
      IndexLineNoNewline(saved[k].number, saved[k].url);
    }
    IndexTextLines(entries);
  }

  /**
   * `crawl`: paginate, then archive the candidates in the set's iteration
   * order, then write the index; the result is the number of pages saved.
   */
  method Crawl(site: Site)
    returns (count: nat, articleUrls: set<string>, order: seq<string>, saved: seq<SavedPage>,
             files: seq<PageFile>, indexText: string, requested: seq<string>, fetched: seq<string>)
    // the listing requests and the candidate set
    ensures requested == ListingRequests(site, CONFIG)
    ensures articleUrls == Gathered(site, CONFIG, LastListingPage(site, CONFIG))
    // the frontier visits the candidates in some order, each at most once
    ensures Distinct(order) && (forall u :: u in order <==> u in articleUrls)
    ensures |fetched| <= |order| && fetched == order[..|fetched|] && Distinct(fetched)
    // the archive: the accepted fetched candidates, at most minPages of them, as `Records` numbers them
    ensures count == |saved| <= CONFIG.minPages
    ensures |fetched| < |order| ==> count == CONFIG.minPages
    ensures |fetched| > 0 ==> |Selected(site, order[..|fetched| - 1])| < CONFIG.minPages
    ensures saved == Records(Selected(site, fetched))
    ensures files == PageFiles(site, saved)
    // the index: header, then one line per saved page in sequence order
    ensures indexText == IndexText(IndexEntries(saved))
    ensures (forall h :: NoNewline(site.join(h).url)) ==> |SplitLines(indexText)| == count + 2
  {
    var cfg := CONFIG;
    var listingRequests;
    articleUrls, listingRequests := Paginate(site, cfg);
    requested := listingRequests;
    order := Enumerate(articleUrls);
    var indexEntries;
    saved, indexEntries, files, fetched := Archive(site, cfg, order);
    indexText := IndexText(indexEntries);
    count := |saved|;

    DistinctPrefix(order, |fetched|);
    if forall h :: NoNewline(site.join(h).url) {
      IndexLineCount(site, cfg, fetched);
    }
  }
}
