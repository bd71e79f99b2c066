# luna-crawler: the crawl engine, modelled in Dafny

`luna_app.py` is a small Flask service. It crawls one web site breadth-first
from a seed URL. It keeps the pages on the seed's host that answer with HTML
and publishes its progress in a global `crawl_progress` record, which the
status page polls. When the crawl is done, it prices an offer from the number
of pages found. This project models that engine and proves what it promises:

- `urls.dfy`: `normalize_url`.
  - `urlparse`/`geturl` are a scheme/netloc/path/query/fragment split and its
    inverse.
  - A round-trip lemma shows what normalisation keeps and drops.
- `filters.dfy`: the two pre-filters.
  - `is_excluded`: the suffix list, compared case-insensitively.
  - `is_valid_html_response`: status 200 and a `text/html` content type.
- `crawler.dfy`: `crawl_website` as an imperative loop over a FIFO queue.
  - It runs against a fixed web: a finite map from URL to response.
  - It writes into a `CrawlProgress` object (idle → running → done).
  - The link loop is a method of its own, and so is one iteration of the
    main loop.
  - An invariant predicate, `CrawlInv`, holds between iterations:
    - nothing is recorded twice;
    - the queue holds no duplicates and no visited URL;
    - every queued URL after the seed is a normalised, in-scope link of a
      fetched page;
    - every in-scope link of an expanded (HTML) page is recorded, queued or
      not HTML. Links of failed or non-HTML fetches are never read.
  - Termination uses the measure (normalised URLs of the web not yet
    visited, queue length).
- `pricing.dfy`: `calculate_package`, including the `.`-separated thousands
  format, which is read back to its value.
- `text.dfy`: the string operations these rely on: ASCII `lower`,
  `endswith`, substring search, and Python's lexicographic string order
  with `sorted(set(...))`.
- `wrappers.dfy`: `Option`.

Three facts about the code shape the model:

- There is one global `crawl_progress` record (luna_app.py:15-20), so the
  model has one `CrawlProgress` object.
- `visited` only receives pages that passed `is_valid_html_response`
  (luna_app.py:69-70). A URL that failed, or was not HTML, can be enqueued
  again by a later page and fetched again.
- The dequeue-time test `clean_url in visited or is_excluded(clean_url)`
  (luna_app.py:63-65) never holds after the first iteration, as
  `Crawler.DequeueCheckRedundant` shows.

## Model

| member | source | states |
|---|---|---|
| Text.Lower | luna_app.py:46 | `str.lower` for ASCII letters; lower-casing twice is lower-casing once (`Text.LowerIdempotent`), and the exclusion test ignores case (`Filters.IsExcludedIgnoresCase`) |
| Text.EndsWith | luna_app.py:46 | `s.endswith(suffix)`: `s` ends with the characters of `suffix`, in order; used through `Filters.AnyEndsWith` |
| Text.Contains | luna_app.py:43 | `t in s` holds exactly when `t` occurs at some position of `s` |
| Text.LowerIdempotent | luna_app.py:46 | lower-casing twice is lower-casing once |
| Text.Less | luna_app.py:85 | the order `sorted` uses on `str`: lexicographic on code points, a proper prefix first; it is a strict total order (the three lemmas below) |
| Text.LessIrreflexive | luna_app.py:85 | no string sorts before itself |
| Text.LessTransitive | luna_app.py:85 | the string order used by `sorted` is transitive |
| Text.LessTotal | luna_app.py:85 | any two different strings are ordered one way or the other |
| Text.SortDedup | luna_app.py:85 | `sorted(set(xs))` is strictly increasing and has exactly the elements of `xs` |
| Text.SortDedupLength | luna_app.py:85 | without duplicates in `xs`, `sorted(set(xs))` is as long as `xs` |
| Text.StrictlySortedUnique | luna_app.py:85 | two strictly sorted lists with the same elements are equal, so the result is determined by the set of found pages |
| Urls.Split | luna_app.py:34 | `urlparse`: the parts it returns always form a well-formed record (`Urls.SplitWellFormed`), and parsing the `geturl` text of a well-formed record gives that record back (`Urls.SplitUnsplit`). The reverse does not hold: `geturl` of a parsed text lower-cases the scheme and drops an empty `?` or `#`, so `"//a?"` comes back as `"//a"` |
| Urls.Unsplit | luna_app.py:39 | `geturl`: parsing its text gives the same record back (see `Urls.SplitUnsplit`) |
| Urls.NormalizeUrl | luna_app.py:33-39 | `normalize_url`: drops the fragment, and the query unless `keep_query`; its properties are stated in the three lemmas below |
| Urls.SplitUnsplit | luna_app.py:34-39 | for a well-formed URL record, parsing its `geturl` text gives the record back |
| Urls.SplitWellFormed | luna_app.py:34 | every parsed URL is a well-formed record (lower-case scheme, netloc without `/?#`, path without `?#`, query without `#`) |
| Urls.NormalizeUrlComponents | luna_app.py:33-39 | the normalised URL parses to the same scheme, netloc and path, an empty fragment, and the query when `keep_query` is true (empty otherwise) |
| Urls.NormalizeUrlIdempotent | luna_app.py:33-39 | normalising twice gives the same URL as normalising once |
| Urls.NormalizeUrlKeepsNetloc | luna_app.py:33-39 | normalising does not change the host that the same-domain test compares |
| Filters.AnyEndsWith | luna_app.py:46 | `any(s.endswith(ext) for ext in exts)` holds exactly when some listed suffix ends `s` |
| Filters.ExcludedExtensions | luna_app.py:23-26 | `EXCLUDED_EXTENSIONS`: the same 18 suffixes in the same order; what they exclude is stated in `Filters.IsExcludedMeaning` and `Filters.NotExcludedWhenEndingInL` |
| Filters.IsExcluded | luna_app.py:45-46 | `is_excluded`; its meaning is stated in `Filters.IsExcludedMeaning` |
| Filters.IsExcludedMeaning | luna_app.py:45-46 | `is_excluded(url)` holds exactly when the lower-cased URL ends with one of the 18 listed suffixes |
| Filters.IsExcludedIgnoresCase | luna_app.py:45-46 | the test gives the same answer for a URL and its lower-cased form |
| Filters.IsExcludedExamples | luna_app.py:23-26 | `http://x/a.PDF` is excluded and `http://x/a.html` is not |
| Filters.NotExcludedWhenEndingInL | luna_app.py:23-26 | a URL ending in `l` or `L` is never excluded (no listed suffix ends in `l`), so `.html` pages pass |
| Filters.ContentType | luna_app.py:42 | `response.headers.get('Content-Type', '')`: the header, or `''` when it is missing; see `Filters.IsValidHtmlResponseMeaning` |
| Filters.IsValidHtmlResponse | luna_app.py:41-43 | `is_valid_html_response`; its meaning is stated in `Filters.IsValidHtmlResponseMeaning` |
| Filters.IsValidHtmlResponseMeaning | luna_app.py:41-43 | a response qualifies exactly when its status is 200 and it has a Content-Type whose lower-cased value contains `text/html`; a missing header counts as `''` |
| Filters.HtmlWithCharsetQualifies | luna_app.py:41-43 | status 200 with `Text/HTML; charset=utf-8` qualifies |
| Filters.NonHtmlRejected | luna_app.py:41-43 | a 404, an `application/json` 200 and a 200 without Content-Type are all rejected |
| Crawler.CrawlProgress.constructor | luna_app.py:15-20 | the record starts idle, with empty `current`, `found` 0 and no results; the log of values written to `found` is `[0]` |
| Crawler.CrawlProgress.Start | luna_app.py:54-57 | a crawl resets the record to running / `""` / 0 / `[]`, and the log of `found` values to `[0]` |
| Crawler.CrawlProgress.Finish | luna_app.py:84-85 | the record becomes done. Its results are `sorted(set(found_paths))`: strictly sorted, with the same elements. `current`, `found` and the `found` log are unchanged, and without duplicates `found` equals the number of results |
| Crawler.Fetch | luna_app.py:68 | `requests.get(url, timeout=5)` against the fixed web: the response, or nothing when the request raises; `Crawler.VisitNext` states what each outcome does |
| Crawler.Enqueue | luna_app.py:74-80 | the link loop as a function of the page's links: link by link, in page order, the normalised link is appended when its host is the base host, it is not visited, not already queued and not excluded; its meaning is stated in `Crawler.EnqueueMeaning` |
| Crawler.EnqueueLinks | luna_app.py:74-80 | the loop's queue is `Crawler.Enqueue`: link by link, in page order, the normalised link is appended exactly when it is on the base host, not visited, not already queued and not excluded. It also satisfies `Crawler.Enqueued` |
| Crawler.EnqueueMeaning | luna_app.py:74-80 | whatever the links and the starting queue, `Enqueue`'s result keeps the old queue as a prefix. Each appended URL is the normalised form of one of the links, on the base host, not excluded, not visited, and not already queued when appended. Every in-scope link ends up visited or queued |
| Crawler.EnqueuedQueue | luna_app.py:79-80 | the link loop keeps every queued URL, and a queue without duplicates stays without duplicates |
| Crawler.VisitNext | luna_app.py:62-82 | one iteration. An already-visited or excluded head is dropped with nothing else changed, not even `current`. A failed fetch or non-HTML response sets `current` and drops the head. An HTML page is added to `visited` and `found_paths`, `found` follows `len(found_paths)` and the new value is appended to the `found` log, and its links are appended in page order as `Crawler.Enqueue` computes; the log is unchanged in the other cases |
| Crawler.CrawlInvInit | luna_app.py:49-52 | the initial state (empty visited set, seed-only queue, no found pages) satisfies the loop invariant |
| Crawler.CrawlHead | luna_app.py:62-63 | the normalised head of the queue is normalised and on the seed's host. In the first iteration the head is the seed and nothing is expanded yet; after it, the head is its own normalised form and is linked from an expanded page |
| Crawler.ReachedAppend | luna_app.py:61-80 | expanding the seed first, or afterwards a page linked from an already expanded one, keeps the expansion order one in which each page after the seed is linked from an earlier one |
| Crawler.DequeueCheckRedundant | luna_app.py:63-65 | after the first iteration the dequeued URL is already normalised, unvisited and not excluded, so the `continue` branch is never taken |
| Crawler.CrawlStepSkip | luna_app.py:64-82 | dropping a visited or excluded head, or one whose fetch fails or is not HTML, preserves the loop invariant |
| Crawler.CrawlStepExpand | luna_app.py:69-80 | recording an HTML head and enqueueing its links preserves the loop invariant: no duplicates, `visited` equals the set of `found_paths`, same-host queue, links covered |
| Crawler.CrawlDone | luna_app.py:61-84 | with the queue empty, `found_paths` has no duplicates and the recorded pages are closed: every in-scope link of an expanded page that leads to an HTML page has been recorded, and so has the seed |
| Crawler.CrawlWebsite | luna_app.py:48-85 | the crawl ends done. Its results are strictly sorted and exactly `found` in number. They are normalised, on the seed's host and not excluded. They are the normalised forms of the expanded HTML pages, returned in expansion order: the seed first, and each later page linked from a page expanded before it. Exactly `found` pages were expanded, one per result. They contain every HTML page reachable by an in-scope link, and the seed when it qualifies. The values written to `found` were exactly 0, 1, 2, … in that order |
| Pricing.DigitsValue | luna_app.py:173 | the decimal digits of `n` read back to `n` |
| Pricing.Digits | luna_app.py:173 | `str(n)`: it reads back to `n` (`Pricing.DigitsValue`) and has the shape stated in `Pricing.DigitsShape` |
| Pricing.GroupThousands | luna_app.py:173 | `f"{n:,}".replace(",", ".")`: its layout, digits and value are stated in the three lemmas below |
| Pricing.DigitsShape | luna_app.py:173 | `str(n)` consists of decimal digits, has at most three of them below 1000, and has no leading zero unless `n` is 0 |
| Pricing.GroupThousandsLayout | luna_app.py:173 | in `f"{n:,}".replace(",", ".")`, counted from the right, every fourth character is a dot and every other character is a digit, and the first character is a digit |
| Pricing.GroupThousandsDigits | luna_app.py:173 | without its dots the formatted amount is `str(n)`, and it starts with `0` only when `n` is 0 |
| Pricing.GroupThousandsValue | luna_app.py:173 | the `.`-separated amount `f"{n:,}".replace(",", ".")` reads back to `n`: the dots only separate digit groups |
| Pricing.CalculatePackage | luna_app.py:163-173 | `calculate_package`; its properties are stated in the lemmas below |
| Pricing.CalculatePackagePrice | luna_app.py:163-173 | every displayed one-time price is the tier's price in the `.`-separated format followed by ` €` |
| Pricing.CalculatePackageMonthly | luna_app.py:163-173 | every displayed monthly fee is the tier's fee in the same format followed by ` €/Monat` |
| Pricing.CalculatePackageTiers | luna_app.py:163-173 | Starter exactly up to 50 pages (0 included), Professional 51–100, Advanced 101–200, Enterprise above 200 |
| Pricing.PriceMonotone | luna_app.py:163-173 | more pages never give a lower price or monthly fee |
| Pricing.EnterpriseBlocks | luna_app.py:170-173 | the Enterprise price is at least 19000 and grows by 1000 every 200 pages |
| Pricing.CalculatePackageExamples | luna_app.py:163-173 | 0 and 50 pages are Starter, 51 Professional, 200 Advanced, and 201 is Enterprise at `19.000 €` and `1.997 €/Monat` |

## Left out

- The Flask routes and the page template (`index`, `start_crawl`, `status`,
  `download`, `HTML_TEMPLATE`, luna_app.py:91-208): HTTP and presentation
  glue. They only call `calculate_package` and read `crawl_progress`.
- `requests.get`, BeautifulSoup and `urljoin` (luna_app.py:68, 73-76):
  network I/O and foreign parsing.
  - The web is a fixed map from URL to response (status, optional
    Content-Type, links already resolved against the page).
  - A URL outside the map is a request that raises.
- The catch-all `except` (luna_app.py:81-82) is modelled only for a failed
  fetch. An exception raised half-way through the link loop, after some links
  were enqueued, is not modelled.
- The `log` file appends (luna_app.py:28-31, 59, 87-89): side-channel I/O.
- The detached `threading.Thread` (luna_app.py:187-188) and concurrent
  reads of `crawl_progress` by the status route: the crawl itself is
  sequential.
- CSV export (luna_app.py:199-208): library serialisation.
- Urls.SplitWellFormed: the `urlparse` model leaves out several behaviours.
  - The `;params` field: a `;` stays part of the path.
  - The scheme-specific `uses_netloc` rule of `geturl`.
  - Stripping of leading whitespace and control characters.
  - The removal of every tab, carriage return and line feed anywhere in the
    URL. For example, `normalize_url("http://a.test/p\n1")` gives
    `http://a.test/p1` in Python, while `Urls.NormalizeUrl` keeps the line
    feed.
  - The IPv6 bracket check that raises `ValueError`.
  - The `ValueError` raised for a non-ASCII netloc whose NFKC normal form
    contains one of `/ ? # @ :`.
- Text.LowerIdempotent: `str.lower` is modelled for ASCII letters only.
  Non-ASCII case mappings are not captured.
- Crawler.CrawlWebsite: the web is finite, so the model always terminates.
  The source's non-termination on a site with unboundedly many generated
  same-host links is not captured.
- Crawler.CrawlWebsite: the contract does not state that the expansion
  order is breadth-first. It only states that each expanded page after the
  seed is linked from one expanded before it.
