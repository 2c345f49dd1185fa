# A verified model of the media.kpfu.ru news crawler

`crawler.py` gathers news articles from the Kazan Federal University media site and
archives them. The run has three parts:

1. It walks the paginated news listing (`/news`, then `/news?page=1` up to `?page=30`).
   It stops at the first page that fails to load or yields no article links.
2. It extracts same-site article links from every listing page. The union of these
   links is the candidate set.
3. It visits the candidates in the set's iteration order. It skips every page that
   fails to load or does not look like a text page. It saves up to 100 accepted pages
   as `page_0001.txt`, `page_0002.txt`, … and then writes a tab-separated index file.

The Dafny project models each of these decisions and proves what they promise.

| module | file | models |
|---|---|---|
| `Wrappers` | Wrappers.dfy | the `Option` result of a fetch |
| `Decimal` | Decimal.dfy | `str(n)` and `%04d`, with the parser that reads them back |
| `Strings` | Strings.dfy | `startswith`, `endswith`, substring `in`, `lower()` |
| `Classifier` | Classifier.dfy | `is_text_page` |
| `LinkFilter` | LinkFilter.dfy | `extract_article_links` |
| `IndexFile` | IndexFile.dfy | archive file names, index records, the index file text |
| `Crawler` | Crawler.dfy | the pagination loop and the frontier loop of `crawl` |

The outside world is a value of type `Crawler.Site`, made of four functions:

- `fetch` is one GET. It gives the body, or `None` for any request error.
- `hrefsOf` lists the `href` attributes of a page's `<a>` tags.
- `join` resolves an href against the base URL. It gives the absolute URL with its
  network location and path.
- `visibleText` is the page text, with script, style, meta and link elements removed.

A body counts as fetched only when it is non-empty, as Python's truthiness test does.

`crawl` writes files. The model returns their contents instead:

- the page files, as `PageFile` values;
- the index, as a string;
- the list of requested listing URLs and the prefix of candidates that were fetched.

`crawl`'s module constants are collected in `Crawler.CONFIG`: the listing URL,
`?page=`, `MIN_PAGES` = 100 and the 30 listing pages tried. The walker and the
archiver are proved for any `Config`, and `Crawl` runs them with `CONFIG`.

Python iterates a set in an order it does not promise. `Crawler.Enumerate` picks an
arbitrary order, so everything proved about `Archive` and `Crawl` holds for every
order of the candidates.

A same-origin test would compare scheme and host. The code compares the network
location only (`crawler.py:57`), so an `http://` link to the same host passes. The
model follows the code. Likewise the "rss" test is a substring test on the lower-cased
path, not a test on whole path segments.

## Model

| member | source | states |
|---|---|---|
| `Classifier.IsTextPage` | crawler.py:22-42 | a page is kept exactly when the body is non-empty, its visible text has at least 100 characters, and the text has a U+0400..U+04FF character or, failing that, three ASCII letters in a row |
| `Classifier.ContainsCyrillic` | crawler.py:36-37 | the left-to-right scan succeeds exactly when some character lies in the Cyrillic block U+0400..U+04FF |
| `Classifier.ContainsLatinRun` | crawler.py:38-39 | the scan for `[a-zA-Z]{3,}` succeeds exactly when three ASCII letters stand in a row somewhere |
| `Classifier.ShortTextRejected` | crawler.py:23-34 | empty content, or visible text shorter than 100 characters, is always rejected |
| `Classifier.ShortTokensNoLatinRun` | crawler.py:38-40 | tokens of at most two characters, each followed by a space, never show three ASCII letters in a row |
| `Classifier.ShortTokensRejected` | crawler.py:36-42 | Cyrillic-free text made of tokens of at most two characters, each followed by a space ("ab cd ef …", "a bc de …"), is rejected at any length |
| `Classifier.LatinWordAccepted` | crawler.py:38-42 | long enough text containing "abc" is accepted |
| `Classifier.CyrillicWordAccepted` | crawler.py:36-42 | long enough text containing "Новость" is accepted |
| `Strings.Lower` | crawler.py:61 | lower-casing keeps the length, leaves no A-Z letter, and changes a character only when it is an A-Z letter, into its lower-case partner |
| `Strings.Contains` | crawler.py:66 | the substring scan succeeds exactly when some window of the string spells the pattern |
| `LinkFilter.EndsWithAny` | crawler.py:63-64 | `any(path.endswith(ext) …)` holds exactly when the path ends with one of the listed extensions |
| `LinkFilter.Admit` | crawler.py:52-74 | one href is kept exactly when every filter passes: no `#` or `javascript:` prefix, the base's network location, no blocked extension, no "rss", not `/news` or `/news/`, and "/news" in the lower-cased path; what is kept is the joined URL unchanged, not lower-cased |
| `LinkFilter.ExtractArticleLinks` | crawler.py:45-76 | the loop over the hrefs returns the set of admitted joined URLs |
| `LinkFilter.ArticleLinksBound` | crawler.py:47-76 | the extracted set has at most one URL per href |
| `LinkFilter.ArticleLinksMembership` | crawler.py:47-76 | a URL is extracted exactly when some href in the list is admitted and joins to it |
| `LinkFilter.ArticleLinksSound` | crawler.py:52-74 | every extracted URL is the joined form of an href passing all the filters |
| `LinkFilter.ArticleLinksOrderInsensitive` | crawler.py:47-76 | hrefs with the same members, in any order and with any repetition, give the same set |
| `LinkFilter.ListingRootRejected` | crawler.py:70-71 | the listing root `/news` or `/news/` (in any letter case) is never an article |
| `Decimal.NatToString` | crawler.py:161 | `str(n)` is a non-empty string of digits, with a leading zero only for 0 |
| `Decimal.Pad4` | crawler.py:158 | `%04d` is all digits, the numeral itself when it has four or more digits and four characters otherwise |
| `Decimal.ParseNatToString` | crawler.py:161 | the decimal numeral `str(n)` reads back as n |
| `Decimal.NatToStringInjective` | crawler.py:118 | distinct numbers have distinct numerals |
| `Decimal.Pad4RoundTrip` | crawler.py:158 | the `%04d` field reads back as the number written |
| `Decimal.Pad4Injective` | crawler.py:158 | distinct numbers have distinct `%04d` fields |
| `Decimal.Pad4FixedWidth` | crawler.py:158 | numbers up to 9999 are padded to exactly four digits |
| `IndexFile.FileNameRoundTrip` | crawler.py:158 | the file name `page_{n:04d}.txt` has the archive's shape and its number field reads back as n, for every n |
| `IndexFile.FileNameShape` | crawler.py:158 | for n up to 9999 the file name is 13 characters: `page_`, four digits that read back as n, `.txt` |
| `IndexFile.FileNameInjective` | crawler.py:157-159 | distinct sequence numbers never share an archive file |
| `IndexFile.IndexLineRoundTrip` | crawler.py:161 | the record `n\turl` parses back into n and the URL |
| `IndexFile.IndexLineNoNewline` | crawler.py:161 | a record stays on one line when its URL does |
| `IndexFile.SplitJoinLines` | crawler.py:173-174 | newline-free lines written one per line read back as the same lines |
| `IndexFile.IndexText` | crawler.py:170-174 | the index file is the header line and the separator line, each newline-terminated, followed by the records written one per line |
| `IndexFile.IndexTextLines` | crawler.py:170-174 | the index file reads back as the header line, the line of sixty "=", then exactly the entries in order |
| `Crawler.PageUrlRoundTrip` | crawler.py:118 | the URL of listing page n is the listing, `?page=`, then digits that read back as n |
| `Crawler.PageUrlInjective` | crawler.py:117-118 | distinct page numbers give distinct listing URLs, none of them the unpaginated listing |
| `Crawler.LastListingPageSpec` | crawler.py:116-132 | the walk covers pages 1..last, never beyond 30; every page before the last loaded and yielded links; a last page below 30 failed or yielded none |
| `Crawler.LaterPagesNotRequested` | crawler.py:117-132 | once a page fails or yields nothing, no later page is ever requested |
| `Crawler.PagesUnionMembership` | crawler.py:117-134 | a URL is in the union of pages 1..n exactly when some page k in 1..n yielded it |
| `Crawler.Paginate` | crawler.py:109-137 | requests are the listing and then pages 1..last in increasing order; the candidate set is exactly the listing's links (if it loaded) together with the links of pages 1..last |
| `Crawler.Accepts` | crawler.py:149-155 | a kept candidate was fetched with a non-empty body whose visible text has at least 100 characters |
| `Crawler.Selected` | crawler.py:149-160 | never more candidates are kept than were visited |
| `Crawler.SelectedMembers` | crawler.py:149-160 | the kept candidates are exactly the accepted ones among those visited |
| `Crawler.SelectedDistinct` | crawler.py:143-160 | visiting distinct URLs keeps each one at most once |
| `Crawler.SelectedAll` | crawler.py:149-160 | when every visited URL is accepted, all of them are kept in order |
| `Crawler.Visit` | crawler.py:147-165 | a failed fetch or a rejected page leaves the counter, records, index lines and files unchanged; an accepted one raises the counter by one and appends its record, its index line and its file |
| `Crawler.Archive` | crawler.py:141-165 | candidates are fetched in order, each at most once; fetching ends early only with exactly `minPages` (100 in the run) pages saved; the saved pages are the accepted fetched ones numbered 1..k, and there is one index line and one file (the fetched body) per saved page |
| `Crawler.ArchiveAllAccepted` | crawler.py:143-161 | with no more candidates than the target and all of them accepted, every candidate is saved: the records are the candidates numbered 1..k in order, with one index line per candidate |
| `Crawler.Enumerate` | crawler.py:143 | iterating the set visits every member exactly once |
| `Crawler.RecordsOfSelected` | crawler.py:157-161 | saved records are numbered densely from 1, each under its own file name, each an accepted fetched URL, no URL twice |
| `Crawler.CandidatesAreArticles` | crawler.py:110-134 | every candidate is the joined URL of some href that passes every link filter |
| `Crawler.CandidateHasNoNewline` | crawler.py:110-134 | when joined URLs never hold a newline, no candidate does |
| `Crawler.IndexLineCount` | crawler.py:161-174 | when joined URLs never hold a newline, the index reads back as two header lines and one line per saved page |
| `Crawler.Crawl` | crawler.py:96-182 | the whole run: the listing requests, the candidate set, visiting in some order without repeats, at most 100 pages saved and exactly 100 if it stopped early, no candidate fetched once 100 were saved, dense numbering, the files, the index text, and the returned count equal to the number of saved pages |

## Left out

- The HTTP request, its headers, timeout and error reporting (crawler.py:15-19, 79-86) are network I/O. They are the `fetch` oracle, which gives a body or `None`.
- BeautifulSoup parsing, tag removal and `get_text` (crawler.py:26-31, 46-49) are a foreign library. Their outputs are the `hrefsOf` and `visibleText` oracles.
- `urljoin` and `urlparse` (crawler.py:55-60) are a foreign library. They are the `join` oracle, which gives the joined URL, its network location and its path.
- `parse_qs`, `visited_urls` and the `soup`/`news_items` parse in the pagination loop (crawler.py:69, 99, 126-127) are computed and never used. The model has no counterpart for them.
- In the model `join`, `save_page` and the index write never fail. In the source `urljoin` and `urlparse` raise `ValueError` on a malformed href such as `http://[` (crawler.py:55, 57, 60), and the writes can raise `OSError` (crawler.py:91-92, 170-174). Nothing catches these errors, so one bad anchor or one failed write aborts `crawl`. The model has no abort outcome.
- `save_page`, `os.makedirs` and the index file's path (crawler.py:89-93, 97, 168-170) are filesystem effects. The written contents are returned as values, and the directory layout is not modelled.
- `time.sleep` and every `print` have no behaviour the model could state.
- The regular-expression engine is not modelled. Its two patterns are explicit scans proved equal to their meaning.
- Strings.Lower: lower-cases only A-Z. Python's `lower()` also maps other letters, but no non-ASCII letter lower-cases into a window that one of the ASCII patterns tested on the path (the extensions, "rss", "/news") would match differently, so every filter decision is the same.
- Crawler.IndexLineCount: counts index lines only when joined URLs contain no newline. The condition can fail in the source. `urljoin` returns an href unchanged when its scheme differs from the base's, so an anchor such as `http://media.kpfu.ru/news/a` with a line feed before a final `b` keeps the line feed. Current versions of `urlparse` drop line feeds before splitting, so the link still passes the network-location test, and its index record then spans two lines. This follows from urllib's documented behaviour and was not executed.
- Crawler.Crawl: the line count of the index is stated under the same no-newline condition, for the same reason.
- Text lengths count Unicode scalar values, as Python's `len` counts code points. Lone surrogates in Python strings are not modelled.
