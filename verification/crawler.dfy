/**
 * `crawl_website`: the breadth-first crawl from one seed URL over the pages
 * of the seed's host, publishing its progress in the single global
 * `crawl_progress` record.
 *
 * The network is a fixed map from URL to response (a URL missing from the
 * map is a request that fails); the links of a response are already
 * resolved against the page's URL.
 */
module Crawler {
  import opened Wrappers
  import opened Text
  import opened Urls
  import opened Filters

  /** The response every reachable URL gets; a URL outside the map cannot be fetched. */
  type Web = map<string, Response>

  /** `requests.get(url, timeout=5)`: the response, or `None` when the request raises. */
  function Fetch(web: Web, url: string): Option<Response>
  {
    if url in web then Some(web[url]) else None
  }

  /** Fetching `url` succeeds with a response that passes `is_valid_html_response`. */
  predicate IsHtmlPage(web: Web, url: string)
  {
    url in web && IsValidHtmlResponse(web[url])
  }

  /** The form in which the crawler stores URLs: fragment removed, query kept. */
  predicate IsNormalized(url: string)
  {
    NormalizeUrl(url, true) == url
  }

  /** A normalised link the crawler may follow: on the seed's host and not excluded by suffix. */
  predicate InScope(url: string, baseDomain: string)
  {
    Split(url).netloc == baseDomain && !IsExcluded(url)
  }

  /** The normalised pages of a set of fetched URLs. */
  function Pages(urls: set<string>): set<string>
  {
    set u | u in urls :: NormalizeUrl(u, true)
  }

  /** `url` is the normalised target of some link on a page in `pages`. */
  ghost predicate LinkedFrom(web: Web, pages: set<string>, url: string)
  {
    exists v, i :: v in pages && v in web && 0 <= i < |web[v].links| && NormalizeUrl(web[v].links[i], true) == url
  }

  /**
   * A link of an expanded page is taken care of: if it is in scope, its
   * normalised form has been recorded, is still waiting in the queue, or is
   * not an HTML page.
   */
  ghost predicate Covered(web: Web, baseDomain: string, visited: set<string>, queue: seq<string>, link: string)
  {
    var full := NormalizeUrl(link, true);
    InScope(full, baseDomain) ==> full in visited || full in queue || !IsHtmlPage(web, full)
  }

  ghost predicate AllCovered(web: Web, baseDomain: string, expanded: set<string>, visited: set<string>, queue: seq<string>)
  {
    forall v, i :: v in expanded && v in web && 0 <= i < |web[v].links| ==>
      Covered(web, baseDomain, visited, queue, web[v].links[i])
  }

  datatype Status = Idle | Running | Done

  /** The global `crawl_progress` record that the status page polls. */
  class CrawlProgress {
    var status: Status
    var current: string
    var found: nat
    var results: seq<string>
    /** Every value written to `found` since the last reset, in order. */
    ghost var foundLog: seq<nat>

    /** The record as the process starts: idle, nothing fetched, nothing found. */
    constructor ()
      ensures status == Idle && current == "" && found == 0 && results == [] && foundLog == [0]
    {
      status := Idle;
      current := "";
      found := 0;
      results := [];
      foundLog := [0];
    }

    /** The reset at the start of a crawl. */
    method Start()
      modifies this
      ensures status == Running && current == "" && found == 0 && results == [] && foundLog == [0]
    {
      status := Running;
      current := "";
      found := 0;
      results := [];
      foundLog := [0];
    }

    /**
     * The end of a crawl: `status` becomes done and `results` holds the
     * found pages sorted and without duplicates; when no page was found
     * twice, `found` equals the number of results.
     */
    method Finish(foundPaths: seq<string>)
      modifies this
      ensures status == Done && current == old(current) && found == old(found) && foundLog == old(foundLog)
      ensures results == SortDedup(foundPaths)
      ensures StrictlySorted(results) && forall r :: r in results <==> r in foundPaths
      ensures Distinct(foundPaths) && found == |foundPaths| ==> found == |results|
    {
      status := Done;
      results := SortDedup(foundPaths);
      if Distinct(foundPaths) {
        SortDedupLength(foundPaths);
      }
    }
  }

  /**
   * `queue'` is `queue` after the link loop of one page with links `links`:
   * the old entries stay in front, in order; each new entry is the normalised
   * form of one of the links, on `baseDomain`, not excluded, not visited and
   * not yet in the queue when it was appended; and every in-scope link ends
   * up visited or queued.
   */
  ghost predicate Enqueued(links: seq<string>, baseDomain: string, visited: set<string>,
                           queue: seq<string>, queue': seq<string>)
  {
    |queue| <= |queue'| && queue'[..|queue|] == queue &&
    (forall j :: |queue| <= j < |queue'| ==>
      IsNormalized(queue'[j]) && InScope(queue'[j], baseDomain) && queue'[j] !in visited &&
      queue'[j] !in queue'[..j] &&
      exists i :: 0 <= i < |links| && NormalizeUrl(links[i], true) == queue'[j]) &&
    (forall i :: 0 <= i < |links| && InScope(NormalizeUrl(links[i], true), baseDomain) ==>
      NormalizeUrl(links[i], true) in visited || NormalizeUrl(links[i], true) in queue')
  }

  /**
   * The queue after the link loop of one page, link by link in the order of
   * the page: the normalised link is appended when its host is `baseDomain`,
   * it is not visited, not already queued and not excluded.
   */
  function Enqueue(links: seq<string>, baseDomain: string, visited: set<string>, queue: seq<string>): seq<string>
    decreases |links|
  {
    if links == [] then queue
    else
      var fullUrl := NormalizeUrl(links[0], true);
      var queue1 :=
        if Split(fullUrl).netloc == baseDomain && fullUrl !in visited && fullUrl !in queue && !IsExcluded(fullUrl)
        then queue + [fullUrl] else queue;
      Enqueue(links[1..], baseDomain, visited, queue1)
  }

  /** One link of the loop: what `Enqueued` says after it and the rest, it says of the whole page. */
  lemma EnqueuedCons(links: seq<string>, baseDomain: string, visited: set<string>,
                     queue: seq<string>, queue1: seq<string>, r: seq<string>)
    requires links != []
    requires var fullUrl := NormalizeUrl(links[0], true);
      queue1 == if Split(fullUrl).netloc == baseDomain && fullUrl !in visited && fullUrl !in queue && !IsExcluded(fullUrl)
                then queue + [fullUrl] else queue
    requires Enqueued(links[1..], baseDomain, visited, queue1, r)
    ensures Enqueued(links, baseDomain, visited, queue, r)
  {
    hide NormalizeUrl, Split, IsExcluded;
    var fullUrl := NormalizeUrl(links[0], true);
    var rest := links[1..];
    NormalizeUrlIdempotent(links[0], true);
    assert queue1[..|queue|] == queue;
    assert r[..|queue|] == queue by {
      assert r[..|queue1|] == queue1;
      assert r[..|queue|] == r[..|queue1|][..|queue|];
    }
    forall j | |queue| <= j < |r|
      ensures IsNormalized(r[j]) && InScope(r[j], baseDomain) && r[j] !in visited && r[j] !in r[..j] &&
        exists i :: 0 <= i < |links| && NormalizeUrl(links[i], true) == r[j]
    {
      if j < |queue1| {
        assert r[j] == r[..|queue1|][j] == fullUrl;
        assert r[..j] == r[..|queue1|][..j] == queue;
        assert NormalizeUrl(links[0], true) == r[j];
      } else {
        var i :| 0 <= i < |rest| && NormalizeUrl(rest[i], true) == r[j];
        assert links[i + 1] == rest[i];
      }
    }
    forall i | 0 <= i < |links| && InScope(NormalizeUrl(links[i], true), baseDomain)
      ensures NormalizeUrl(links[i], true) in visited || NormalizeUrl(links[i], true) in r
    {
      if i == 0 {
        if fullUrl in queue1 {
          var j :| 0 <= j < |queue1| && queue1[j] == fullUrl;
          assert r[..|queue1|][j] == fullUrl;
        }
      } else {
        assert links[i] == rest[i - 1];
      }
    }
  }

  /** The link loop does what `Enqueued` describes, for every page and every starting queue. */
  lemma {:induction false} EnqueueMeaning(links: seq<string>, baseDomain: string, visited: set<string>, queue: seq<string>)
    ensures Enqueued(links, baseDomain, visited, queue, Enqueue(links, baseDomain, visited, queue))
    decreases |links|
  {
    hide NormalizeUrl, Split, IsExcluded;
    if links != [] {
      var fullUrl := NormalizeUrl(links[0], true);
      var queue1 :=
        if Split(fullUrl).netloc == baseDomain && fullUrl !in visited && fullUrl !in queue && !IsExcluded(fullUrl)
        then queue + [fullUrl] else queue;
      EnqueueMeaning(links[1..], baseDomain, visited, queue1);
      EnqueuedCons(links, baseDomain, visited, queue, queue1, Enqueue(links, baseDomain, visited, queue));
    }
  }

  /** The link loop of one page, `for link in soup.find_all('a', href=True)`. */
  method EnqueueLinks(links: seq<string>, baseDomain: string, visited: set<string>, queue: seq<string>)
    returns (queue': seq<string>)
    ensures queue' == Enqueue(links, baseDomain, visited, queue)
    ensures Enqueued(links, baseDomain, visited, queue, queue')
  {
    hide NormalizeUrl, Split, IsExcluded;
    queue' := queue;
    var k := 0;
    while k < |links|
      invariant 0 <= k <= |links|
      invariant Enqueue(links[k..], baseDomain, visited, queue') == Enqueue(links, baseDomain, visited, queue)
    {
      assert links[k..][0] == links[k] && links[k..][1..] == links[k + 1..];
      var fullUrl := NormalizeUrl(links[k], true);
      if Split(fullUrl).netloc == baseDomain && fullUrl !in visited && fullUrl !in queue' && !IsExcluded(fullUrl) {
        queue' := queue' + [fullUrl];
      }
      k := k + 1;
    }
    assert links[k..] == [];
    EnqueueMeaning(links, baseDomain, visited, queue);
  }

  /**
   * What the crawl needs from `Enqueued`: the old entries are all kept, and
   * a queue without duplicates stays without duplicates.
   */
  lemma EnqueuedQueue(links: seq<string>, baseDomain: string, visited: set<string>,
                      queue: seq<string>, queue': seq<string>)
    requires Enqueued(links, baseDomain, visited, queue, queue')
    ensures forall q :: q in queue ==> q in queue'
    ensures forall q :: q in queue' && q !in queue ==>
      IsNormalized(q) && InScope(q, baseDomain) && q !in visited &&
      exists i :: 0 <= i < |links| && NormalizeUrl(links[i], true) == q
    ensures Distinct(queue) ==> Distinct(queue')
  {
    hide NormalizeUrl, Split, IsExcluded;
    forall q | q in queue ensures q in queue' {
      var j :| 0 <= j < |queue| && queue[j] == q;
      assert queue'[j] == q;
    }
    forall q | q in queue' && q !in queue
      ensures IsNormalized(q) && InScope(q, baseDomain) && q !in visited &&
        exists i :: 0 <= i < |links| && NormalizeUrl(links[i], true) == q
    {
      var j :| 0 <= j < |queue'| && queue'[j] == q;
    }
    if Distinct(queue) {
      forall i, j | 0 <= i < j < |queue'| ensures queue'[i] != queue'[j] {
        if j < |queue| {
          assert queue'[i] == queue[i] && queue'[j] == queue[j];
        } else {
          assert queue'[i] in queue'[..j];
        }
      }
    }
  }

  lemma DistinctTail(s: seq<string>)
    requires s != [] && Distinct(s)
    ensures Distinct(s[1..]) && s[0] !in s[1..]
  {
  }

  lemma PagesEmpty()
    ensures Pages({}) == {}
  {
  }

  lemma PagesMember(urls: set<string>, url: string)
    requires url in urls
    ensures NormalizeUrl(url, true) in Pages(urls)
  {
  }

  lemma AllCoveredInit(web: Web, baseDomain: string, visited: set<string>, queue: seq<string>)
    ensures AllCovered(web, baseDomain, {}, visited, queue)
  {
  }

  /** With the queue empty, every in-scope HTML link of an expanded page has been recorded. */
  lemma AllCoveredClosed(web: Web, baseDomain: string, expanded: set<string>, visited: set<string>)
    requires AllCovered(web, baseDomain, expanded, visited, [])
    ensures forall v, i ::
      (v in expanded && v in web && 0 <= i < |web[v].links| &&
       InScope(NormalizeUrl(web[v].links[i], true), baseDomain) &&
       IsHtmlPage(web, NormalizeUrl(web[v].links[i], true))) ==>
      NormalizeUrl(web[v].links[i], true) in visited
  {
  }

  lemma PagesAdd(urls: set<string>, url: string)
    ensures Pages(urls + {url}) == Pages(urls) + {NormalizeUrl(url, true)}
  {
  }

  lemma LinkedFromGrows(web: Web, pages: set<string>, more: set<string>)
    requires pages <= more
    ensures forall u :: LinkedFrom(web, pages, u) ==> LinkedFrom(web, more, u)
  {
    hide NormalizeUrl;
    forall u | LinkedFrom(web, pages, u) ensures LinkedFrom(web, more, u) {
      var v, i :| v in pages && v in web && 0 <= i < |web[v].links| && NormalizeUrl(web[v].links[i], true) == u;
      assert v in more;
    }
  }

  /**
   * Removing the head of the queue keeps every link of the expanded pages
   * covered, provided the head itself was recorded, is not an HTML page or
   * is excluded.
   */
  lemma CoveredAfterDequeue(web: Web, baseDomain: string, expanded: set<string>,
                            visited: set<string>, queue: seq<string>, visited': set<string>, queue': seq<string>)
    requires queue != []
    requires AllCovered(web, baseDomain, expanded, visited, queue)
    requires visited <= visited'
    requires forall q :: q in queue[1..] ==> q in queue'
    requires expanded == {} || queue[0] in visited' || !IsHtmlPage(web, queue[0]) || IsExcluded(queue[0])
    ensures AllCovered(web, baseDomain, expanded, visited', queue')
  {
    hide NormalizeUrl, Split, IsExcluded;
    forall v, i | v in expanded && v in web && 0 <= i < |web[v].links|
      ensures Covered(web, baseDomain, visited', queue', web[v].links[i])
    {
      assert Covered(web, baseDomain, visited, queue, web[v].links[i]);
      var full := NormalizeUrl(web[v].links[i], true);
      if full in queue && full != queue[0] {
        assert full in queue[1..];
      }
    }
  }

  /**
   * Expanding the head of the queue keeps every link covered, once the
   * head's own normalised form is recorded and each of its in-scope links is
   * recorded or queued.
   */
  lemma CoveredAfterExpand(web: Web, baseDomain: string, expanded: set<string>,
                           visited: set<string>, queue: seq<string>, visited': set<string>, queue': seq<string>)
    requires queue != [] && queue[0] in web
    requires AllCovered(web, baseDomain, expanded, visited, queue)
    requires visited <= visited'
    requires forall q :: q in queue[1..] ==> q in queue'
    requires expanded == {} || queue[0] in visited'
    requires forall i :: 0 <= i < |web[queue[0]].links| && InScope(NormalizeUrl(web[queue[0]].links[i], true), baseDomain) ==>
      NormalizeUrl(web[queue[0]].links[i], true) in visited' || NormalizeUrl(web[queue[0]].links[i], true) in queue'
    ensures AllCovered(web, baseDomain, expanded + {queue[0]}, visited', queue')
  {
    hide NormalizeUrl, Split, IsExcluded;
    CoveredAfterDequeue(web, baseDomain, expanded, visited, queue, visited', queue');
    forall v, i | v in expanded + {queue[0]} && v in web && 0 <= i < |web[v].links|
      ensures Covered(web, baseDomain, visited', queue', web[v].links[i])
    {
    }
  }

  /** Every link of a page in `pages` leads, normalised, to a page linked from `pages`. */
  lemma LinkedFromLinks(web: Web, pages: set<string>, v: string)
    requires v in pages && v in web
    ensures forall i :: 0 <= i < |web[v].links| ==> LinkedFrom(web, pages, NormalizeUrl(web[v].links[i], true))
  {
  }

  /**
   * What holds between two iterations of the crawl loop of a crawl from
   * `startUrl`. `seedPending` is true only before the first iteration.
   * Recorded pages (`visited`, in order of discovery `foundPaths`) are the
   * normalised forms of the expanded pages; nothing is recorded or queued
   * twice; every queued URL after the seed is a normalised, in-scope link of
   * an expanded page; and every in-scope link of an expanded page is covered.
   */
  ghost predicate CrawlInv(web: Web, startUrl: string, seedPending: bool, visited: set<string>,
                           foundPaths: seq<string>, queue: seq<string>, expanded: set<string>)
  {
    var baseDomain := Split(startUrl).netloc;
    (forall x :: x in visited <==> x in foundPaths) &&
    Distinct(foundPaths) &&
    Distinct(queue) &&
    (forall q :: q in queue ==> q !in visited) &&
    (seedPending ==> queue == [startUrl] && visited == {} && expanded == {}) &&
    (!seedPending ==> forall q :: q in queue ==>
      IsNormalized(q) && InScope(q, baseDomain) && LinkedFrom(web, expanded, q)) &&
    visited == Pages(expanded) &&
    (forall u :: u in expanded ==> IsHtmlPage(web, u) && (u == startUrl || LinkedFrom(web, expanded, u))) &&
    (forall x :: x in visited ==> InScope(x, baseDomain) && IsNormalized(x)) &&
    AllCovered(web, baseDomain, expanded, visited, queue) &&
    (!seedPending && IsHtmlPage(web, startUrl) && !IsExcluded(NormalizeUrl(startUrl, true)) ==>
      NormalizeUrl(startUrl, true) in visited)
  }

  /** The state before the first iteration: only the seed is queued. */
  lemma CrawlInvInit(web: Web, startUrl: string)
    ensures CrawlInv(web, startUrl, true, {}, [], [startUrl], {})
  {
    hide NormalizeUrl, Split, IsExcluded;
    PagesEmpty();
    AllCoveredInit(web, Split(startUrl).netloc, {}, [startUrl]);
  }

  /**
   * The head of the queue, normalised, is on the seed's host and normalised,
   * and after the first iteration it is the head itself.
   */
  lemma CrawlHead(web: Web, startUrl: string, seedPending: bool, visited: set<string>,
                  foundPaths: seq<string>, queue: seq<string>, expanded: set<string>)
    requires CrawlInv(web, startUrl, seedPending, visited, foundPaths, queue, expanded)
    requires queue != []
    ensures Split(NormalizeUrl(queue[0], true)).netloc == Split(startUrl).netloc
    ensures IsNormalized(NormalizeUrl(queue[0], true))
    ensures !seedPending ==> NormalizeUrl(queue[0], true) == queue[0]
    ensures seedPending ==> queue[0] == startUrl && expanded == {}
    ensures !seedPending ==> LinkedFrom(web, expanded, queue[0])
  {
    hide NormalizeUrl, Split, IsExcluded;
    NormalizeUrlKeepsNetloc(queue[0]);
    NormalizeUrlIdempotent(queue[0], true);
    assert queue[0] in queue;
  }

  /**
   * After the first iteration the skip test on dequeue never fires: every
   * queued URL is already normalised, in scope and unvisited, because the
   * link loop only enqueues such URLs and nothing is queued twice.
   */
  lemma DequeueCheckRedundant(web: Web, startUrl: string, visited: set<string>,
                              foundPaths: seq<string>, queue: seq<string>, expanded: set<string>)
    requires CrawlInv(web, startUrl, false, visited, foundPaths, queue, expanded)
    requires queue != []
    ensures NormalizeUrl(queue[0], true) == queue[0]
    ensures NormalizeUrl(queue[0], true) !in visited && !IsExcluded(NormalizeUrl(queue[0], true))
  {
    hide NormalizeUrl, Split, IsExcluded;
    assert queue[0] in queue;
  }

  /**
   * An iteration that drops the head of the queue without expanding it:
   * its normalised form is already recorded or excluded, or it is not an
   * HTML page.
   */
  lemma CrawlStepSkip(web: Web, startUrl: string, seedPending: bool, visited: set<string>,
                      foundPaths: seq<string>, queue: seq<string>, expanded: set<string>)
    requires CrawlInv(web, startUrl, seedPending, visited, foundPaths, queue, expanded)
    requires queue != []
    requires NormalizeUrl(queue[0], true) in visited || IsExcluded(NormalizeUrl(queue[0], true)) || !IsHtmlPage(web, queue[0])
    ensures CrawlInv(web, startUrl, false, visited, foundPaths, queue[1..], expanded)
  {
    hide NormalizeUrl, Split, IsExcluded, Pages, LinkedFrom, AllCovered, InScope, IsNormalized, Distinct;
    CrawlHead(web, startUrl, seedPending, visited, foundPaths, queue, expanded);
    DistinctTail(queue);
    CoveredAfterDequeue(web, Split(startUrl).netloc, expanded, visited, queue, visited, queue[1..]);
  }

  /**
   * An iteration that expands the head of the queue: its normalised form is
   * recorded, and `queue'` is the rest of the queue with the page's links
   * enqueued as `EnqueueLinks` promises.
   */
  lemma CrawlStepExpand(web: Web, startUrl: string, seedPending: bool, visited: set<string>,
                        foundPaths: seq<string>, queue: seq<string>, expanded: set<string>, queue': seq<string>)
    requires CrawlInv(web, startUrl, seedPending, visited, foundPaths, queue, expanded)
    requires queue != [] && IsHtmlPage(web, queue[0])
    requires NormalizeUrl(queue[0], true) !in visited && !IsExcluded(NormalizeUrl(queue[0], true))
    requires Enqueued(web[queue[0]].links, Split(startUrl).netloc, visited + {NormalizeUrl(queue[0], true)}, queue[1..], queue')
    ensures CrawlInv(web, startUrl, false, visited + {NormalizeUrl(queue[0], true)},
                     foundPaths + [NormalizeUrl(queue[0], true)], queue', expanded + {queue[0]})
  {
    hide NormalizeUrl, Split, IsExcluded, Pages, LinkedFrom, AllCovered, IsNormalized;
    var url := queue[0];
    var cleanUrl := NormalizeUrl(url, true);
    var baseDomain := Split(startUrl).netloc;
    var visited', expanded' := visited + {cleanUrl}, expanded + {url};
    CrawlHead(web, startUrl, seedPending, visited, foundPaths, queue, expanded);
    EnqueuedQueue(web[url].links, baseDomain, visited', queue[1..], queue');
    PagesAdd(expanded, url);
    LinkedFromGrows(web, expanded, expanded');
    LinkedFromLinks(web, expanded', url);
    forall q | q in queue'
      ensures q !in visited' && IsNormalized(q) && InScope(q, baseDomain) && LinkedFrom(web, expanded', q)
    {
      if q in queue[1..] {
        assert q in queue;
      } else {
        var i :| 0 <= i < |web[url].links| && NormalizeUrl(web[url].links[i], true) == q;
      }
    }
    CoveredAfterExpand(web, baseDomain, expanded, visited, queue, visited', queue');
  }

  /**
   * `order` lists pages in an order in which a crawl from `startUrl` can
   * reach them: the first is the seed, and every later one is the target of
   * a link on a page listed before it.
   */
  ghost predicate ReachedInOrder(web: Web, startUrl: string, order: seq<string>)
  {
    (order != [] ==> order[0] == startUrl) &&
    forall k :: 0 < k < |order| ==> LinkedFrom(web, Elems(order[..k]), order[k])
  }

  /** Expanding the seed first, or a page linked from an already expanded one, keeps the order a reachable one. */
  lemma ReachedAppend(web: Web, startUrl: string, order: seq<string>, url: string)
    requires ReachedInOrder(web, startUrl, order)
    requires (order == [] && url == startUrl) || LinkedFrom(web, Elems(order), url)
    ensures ReachedInOrder(web, startUrl, order + [url])
  {
    var order' := order + [url];
    forall k | 0 < k < |order'| ensures LinkedFrom(web, Elems(order'[..k]), order'[k]) {
      if k < |order| {
        assert order'[..k] == order[..k];
      } else {
        assert order'[..k] == order;
      }
    }
  }

  /** `order` lists the expanded pages, each once, as HTML pages reachable in that order. */
  ghost predicate ExpandedInOrder(web: Web, startUrl: string, expanded: set<string>, order: seq<string>)
  {
    expanded == Elems(order) && ReachedInOrder(web, startUrl, order) &&
    forall k :: 0 <= k < |order| ==> IsHtmlPage(web, order[k])
  }

  lemma ExpandedInOrderInit(web: Web, startUrl: string)
    ensures ExpandedInOrder(web, startUrl, {}, [])
  {
    assert Elems<string>([]) == {};
  }

  /** Expanding one more HTML page, the seed first or else a linked one, extends the order. */
  lemma ExpandedInOrderStep(web: Web, startUrl: string, expanded: set<string>, order: seq<string>, url: string)
    requires ExpandedInOrder(web, startUrl, expanded, order)
    requires IsHtmlPage(web, url)
    requires (order == [] && url == startUrl) || LinkedFrom(web, expanded, url)
    ensures ExpandedInOrder(web, startUrl, expanded + {url}, order + [url])
  {
    hide LinkedFrom, IsHtmlPage;
    ReachedAppend(web, startUrl, order, url);
    assert Elems(order + [url]) == Elems(order) + {url};
  }

  /** What `ExpandedInOrder` says about the order once the crawl is over. */
  lemma ExpandedInOrderDone(web: Web, startUrl: string, expanded: set<string>, order: seq<string>)
    requires ExpandedInOrder(web, startUrl, expanded, order)
    ensures expanded == Elems(order) && forall v :: v in expanded <==> v in order
    ensures ReachedInOrder(web, startUrl, order)
    ensures forall k :: 0 <= k < |order| ==> IsHtmlPage(web, order[k])
  {
  }

  /** The numbers `0, 1, ..., n - 1`, in order. */
  function Count(n: nat): seq<nat>
  {
    if n == 0 then [] else Count(n - 1) + [n - 1]
  }

  lemma {:induction false} CountValues(n: nat)
    ensures |Count(n)| == n && forall i :: 0 <= i < n ==> Count(n)[i] == i
  {
    if n > 0 {
      CountValues(n - 1);
    }
  }

  /** Recording one more page of the web leaves fewer pages to record. */
  lemma RecordShrinks(domain: set<string>, visited: set<string>, x: string)
    requires visited <= domain && x in domain && x !in visited
    ensures |domain - (visited + {x})| < |domain - visited|
  {
    assert domain - (visited + {x}) == (domain - visited) - {x};
  }

  /** When the queue is empty, the recorded pages are closed under in-scope HTML links. */
  lemma CrawlDone(web: Web, startUrl: string, visited: set<string>, foundPaths: seq<string>, expanded: set<string>)
    requires CrawlInv(web, startUrl, false, visited, foundPaths, [], expanded)
    ensures Distinct(foundPaths) && forall x :: x in visited <==> x in foundPaths
    ensures visited == Pages(expanded)
    ensures forall x :: x in visited ==> InScope(x, Split(startUrl).netloc) && IsNormalized(x)
    ensures forall u :: u in expanded ==> IsHtmlPage(web, u) && (u == startUrl || LinkedFrom(web, expanded, u))
    ensures forall v, i ::
      (v in expanded && v in web && 0 <= i < |web[v].links| &&
       InScope(NormalizeUrl(web[v].links[i], true), Split(startUrl).netloc) &&
       IsHtmlPage(web, NormalizeUrl(web[v].links[i], true))) ==>
      NormalizeUrl(web[v].links[i], true) in visited
    ensures IsHtmlPage(web, startUrl) && !IsExcluded(NormalizeUrl(startUrl, true)) ==>
      NormalizeUrl(startUrl, true) in visited
  {
    hide NormalizeUrl, Split, IsExcluded;
    AllCoveredClosed(web, Split(startUrl).netloc, expanded, visited);
  }

  /**
   * One iteration of `while queue`: the head is taken off the queue. When its
   * normalised form is already visited or excluded, nothing else changes,
   * not even `current`. Otherwise `current` becomes the normalised form and
   * the head is fetched; a failed fetch or a response that is not HTML
   * changes nothing more. An HTML page is recorded in `visited` and
   * `found_paths`, `found` follows the count, and its links are enqueued in
   * the order of the page, as `Enqueue` computes.
   */
  method VisitNext(progress: CrawlProgress, web: Web, baseDomain: string, visited: set<string>,
                   foundPaths: seq<string>, queue: seq<string>)
    returns (visited': set<string>, foundPaths': seq<string>, queue': seq<string>)
    requires queue != []
    modifies progress
    ensures progress.status == old(progress.status) && progress.results == old(progress.results)
    ensures var url := queue[0]; var cleanUrl := NormalizeUrl(url, true);
      if cleanUrl in visited || IsExcluded(cleanUrl) then
        visited' == visited && foundPaths' == foundPaths && queue' == queue[1..] &&
        progress.current == old(progress.current) && progress.found == old(progress.found) &&
        progress.foundLog == old(progress.foundLog)
      else if !IsHtmlPage(web, url) then
        visited' == visited && foundPaths' == foundPaths && queue' == queue[1..] &&
        progress.current == cleanUrl && progress.found == old(progress.found) &&
        progress.foundLog == old(progress.foundLog)
      else
        visited' == visited + {cleanUrl} && foundPaths' == foundPaths + [cleanUrl] &&
        progress.current == cleanUrl && progress.found == |foundPaths'| &&
        progress.foundLog == old(progress.foundLog) + [progress.found] &&
        queue' == Enqueue(web[url].links, baseDomain, visited', queue[1..]) &&
        Enqueued(web[url].links, baseDomain, visited', queue[1..], queue')
  {
    hide NormalizeUrl, Split, IsExcluded;
    var url := queue[0];
    queue' := queue[1..];
    visited', foundPaths' := visited, foundPaths;
    var cleanUrl := NormalizeUrl(url, true);
    if cleanUrl in visited || IsExcluded(cleanUrl) {
      return;
    }
    progress.current := cleanUrl;
    var response := Fetch(web, url);
    if response.Some? && IsValidHtmlResponse(response.value) {
      visited' := visited + {cleanUrl};
      foundPaths' := foundPaths + [cleanUrl];
      progress.found := |foundPaths'|;
      progress.foundLog := progress.foundLog + [progress.found];
      queue' := EnqueueLinks(response.value.links, baseDomain, visited', queue');
    }
  }

  /**
   * `crawl_website(start_url)`, run against `web`. When it returns, the
   * record is done; its results are strictly sorted, normalised, on the
   * seed's host and not excluded, and there are exactly `found` of them.
   * They are the normalised forms of the fetched HTML pages, listed in
   * `order` in the order they were expanded: the seed first, and every later
   * one the target of a link on a page expanded before it. They are closed
   * under following links: every in-scope link of an expanded page that
   * leads to an HTML page is among the results, and so is the seed itself
   * when it is an HTML page that is not excluded. Exactly `found` pages were
   * expanded, one per recorded result. `found` took the values
   * 0, 1, 2, ... up to the final count, in that order.
   */
  method CrawlWebsite(progress: CrawlProgress, web: Web, startUrl: string)
    returns (ghost order: seq<string>)
    modifies progress
    ensures |order| == progress.found
    ensures progress.status == Done
    ensures progress.found == |progress.results|
    ensures StrictlySorted(progress.results)
    ensures forall r :: r in progress.results ==> InScope(r, Split(startUrl).netloc) && IsNormalized(r)
    ensures forall r :: r in progress.results <==> r in Pages(Elems(order))
    ensures forall k :: 0 <= k < |order| ==> IsHtmlPage(web, order[k])
    ensures ReachedInOrder(web, startUrl, order)
    ensures forall v, i ::
      (v in order && v in web && 0 <= i < |web[v].links| &&
       InScope(NormalizeUrl(web[v].links[i], true), Split(startUrl).netloc) &&
       IsHtmlPage(web, NormalizeUrl(web[v].links[i], true))) ==>
      NormalizeUrl(web[v].links[i], true) in progress.results
    ensures IsHtmlPage(web, startUrl) && !IsExcluded(NormalizeUrl(startUrl, true)) ==>
      NormalizeUrl(startUrl, true) in progress.results
    ensures progress.current == "" || (InScope(progress.current, Split(startUrl).netloc) && IsNormalized(progress.current))
    ensures progress.foundLog == Count(progress.found + 1)
    ensures forall i :: 0 <= i < |progress.foundLog| ==> progress.foundLog[i] == i
  {
    hide NormalizeUrl, Split, IsExcluded, Pages, LinkedFrom, AllCovered, CrawlInv, Enqueue, Enqueued, ExpandedInOrder,
      Distinct, Elems, SortDedup, StrictlySorted, ReachedInOrder, IsValidHtmlResponse, Fetch;
    var visited: set<string> := {};
    var queue: seq<string> := [startUrl];
    var baseDomain := Split(startUrl).netloc;
    var foundPaths: seq<string> := [];
    progress.Start();
    ghost var expanded: set<string> := {};
    order := [];
    ghost var seedPending := true;
    ghost var domain := Pages(web.Keys);
    CrawlInvInit(web, startUrl);
    ExpandedInOrderInit(web, startUrl);

    while queue != []
      invariant progress.status == Running && progress.results == [] && progress.found == |foundPaths|
      invariant CrawlInv(web, startUrl, seedPending, visited, foundPaths, queue, expanded)
      invariant seedPending ==> queue != [] && order == []
      invariant visited <= domain
      invariant ExpandedInOrder(web, startUrl, expanded, order) && |order| == |foundPaths|
      invariant progress.current == "" || (InScope(progress.current, baseDomain) && IsNormalized(progress.current))
      invariant progress.foundLog == Count(|foundPaths| + 1)
      decreases |domain - visited|, |queue|
    {
      ghost var queue0, visited0, foundPaths0, expanded0 := queue, visited, foundPaths, expanded;
      ghost var url := queue[0];
      ghost var cleanUrl := NormalizeUrl(url, true);
      CrawlHead(web, startUrl, seedPending, visited, foundPaths, queue, expanded);
      visited, foundPaths, queue := VisitNext(progress, web, baseDomain, visited, foundPaths, queue);
      if cleanUrl !in visited0 && !IsExcluded(cleanUrl) && IsHtmlPage(web, url) {
        PagesMember(web.Keys, url);
        RecordShrinks(domain, visited0, cleanUrl);
        ExpandedInOrderStep(web, startUrl, expanded, order, url);
        expanded := expanded + {url};
        order := order + [url];
        EnqueueMeaning(web[url].links, baseDomain, visited, queue0[1..]);
        CrawlStepExpand(web, startUrl, seedPending, visited0, foundPaths0, queue0, expanded0, queue);
      } else {
        CrawlStepSkip(web, startUrl, seedPending, visited, foundPaths, queue0, expanded);
      }
      seedPending := false;
    }

    CrawlDone(web, startUrl, visited, foundPaths, expanded);
    ExpandedInOrderDone(web, startUrl, expanded, order);
    progress.Finish(foundPaths);
    CountValues(progress.found + 1);
  }
}
