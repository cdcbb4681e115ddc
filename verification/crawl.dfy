/** `APIScraper.crawl` (api_doc_generator/scraper.py:306-331): a FIFO queue
    seeded with the base URL, drained one `scrape_page` call at a time, each
    call's discovered URLs appended to the back. An exception that escapes
    `scrape_page` ends the crawl. The sleep and the progress bar are left
    out. */
module Crawler {
  import opened Results
  import opened Retry
  import opened OrderedMaps
  import opened Scraper
  import Urls

  /** A crawl that drains its queue returns `api_docs`; one that an escaping
      exception ends leaves the scraper as it was at that point. */
  datatype CrawlResult =
    | Finished(state: ScraperState)
    | Aborted(error: Exception, state: ScraperState)

  /** Every link target the reader can answer with lies in `site`: the
      documentation site is finite, which is what makes a crawl end. */
  ghost predicate ReaderWithin(env: Services, site: set<string>) {
    forall u: string, n: nat :: LinksWithin(env.reader(u, n), site)
  }

  ghost predicate LinksWithin(a: Attempt<ReaderReply>, site: set<string>) {
    a.Answer? && a.value.data.Some? && a.value.data.value.links.Some? ==>
      forall i :: 0 <= i < |a.value.data.value.links.value| ==> a.value.data.value.links.value[i].target in site
  }

  /** Every link of every record the fetch returns points into `site`. */
  ghost predicate Within(web: Web, site: set<string>) {
    forall u: string, n: nat :: web.page(u, n).Ok? ==>
      forall i :: 0 <= i < |web.page(u, n).value.links| ==> web.page(u, n).value.links[i].target in site
  }

  /** A record's links are those of the reader reply it was built from, so
      the scraper's fetch stays within a site the reader stays within. */
  lemma ScraperWebWithin(env: Services, baseUrl: string, site: set<string>)
    requires ReaderWithin(env, site)
    ensures Within(ScraperWeb(env, baseUrl), site)
  {
    var web := ScraperWeb(env, baseUrl);
    forall u: string, n: nat | web.page(u, n).Ok?
      ensures forall i :: 0 <= i < |web.page(u, n).value.links| ==> web.page(u, n).value.links[i].target in site
    {
      assert web.page(u, n) == FetchPage(env, u, n);
      var call := (k: nat) => env.reader(u, k);
      var reply := ReaderCall(env, u);
      assert call(reply.attempts) == Answer(reply.value);
      assert LinksWithin(env.reader(u, reply.attempts), site);
    }
  }

  /** The URLs a page discovers are among its links' targets, so they lie
      in the site. */
  lemma DiscoveredWithinSite(s: ScraperState, web: Web, handling: Handling, url: string, site: set<string>)
    requires Within(web, site)
    ensures var out := ScrapePage(s, web, handling, url).1;
      out.Discovered? ==> forall i :: 0 <= i < |out.urls| ==> out.urls[i] in site
  {
    var out := ScrapePage(s, web, handling, url).1;
    if url !in s.visited && out.Discovered? {
      var fetched := web.page(url, |s.visitLog| + 1);
      if fetched.Ok? {
        var targets := Targets(fetched.value.links);
        assert forall j :: 0 <= j < |targets| ==> targets[j] in site;
      }
    }
  }

  /** The crawl from a given state and queue, one page at a time: the
      reference the loop of `Crawl` is proved to compute. */
  function Drain(s: ScraperState, web: Web, handling: Handling, queue: seq<string>, site: set<string>): (r: CrawlResult)
    requires Within(web, site)
    requires s.visited <= site
    requires forall i :: 0 <= i < |queue| ==> queue[i] in site
    ensures r.state.baseUrl == s.baseUrl
    decreases |site - s.visited|, |queue|
  {
    if queue == [] then Finished(s)
    else
      var url := queue[0];
      var (t, out) := ScrapePage(s, web, handling, url);
      match out
      case Raised(e) => Aborted(e, t)
      case Discovered(urls) =>
        DiscoveredWithinSite(s, web, handling, url, site);
        RemainingShrinks(site, s.visited, url);
        Drain(t, web, handling, queue[1..] + urls, site)
  }

  /** Visiting an unvisited page of the site leaves fewer to visit. */
  lemma RemainingShrinks(site: set<string>, visited: set<string>, url: string)
    requires url in site
    ensures url !in visited ==> |site - (visited + {url})| < |site - visited|
  {
    if url !in visited {
      var rest := site - (visited + {url});
      assert site - visited == rest + {url};
      assert url !in rest;
    }
  }

  /** The position of `x` in `xs`. */
  function Position<T(==)>(xs: seq<T>, x: T): (p: nat)
    requires x in xs
    ensures p < |xs| && xs[p] == x
    ensures forall k :: 0 <= k < p ==> xs[k] != x
  {
    if xs[0] == x then 0 else 1 + Position(xs[1..], x)
  }

  /** Appending to a sequence moves no element already in it. */
  lemma {:induction false} PositionOfAppend<T>(xs: seq<T>, y: T, x: T)
    requires x in xs
    ensures Position(xs + [y], x) == Position(xs, x)
  {
    if xs[0] != x {
      assert (xs + [y])[1..] == xs[1..] + [y];
      PositionOfAppend(xs[1..], y, x);
    }
  }

  /** The corpus lists its pages in the order they were visited. */
  ghost predicate InVisitOrder(s: ScraperState)
    requires Consistent(s)
  {
    forall i, j :: 0 <= i < j < |s.docs.keys| ==>
      Position(s.visitLog, s.docs.keys[i]) < Position(s.visitLog, s.docs.keys[j])
  }

  /** Every same-domain link of a stored page has been visited or is still
      waiting in the queue. */
  ghost predicate LinksFollowed(keep: string -> Result<bool, Urls.UrlError>, s: ScraperState, queue: seq<string>) {
    forall k :: k in s.docs.entries ==>
      match Filter(Targets(s.docs.entries[k].links), keep)
      case Ok(urls) => forall i :: 0 <= i < |urls| ==> urls[i] in s.visited || urls[i] in queue
      case Err(_) => false
  }

  /** What holds of the scraper and its queue between two iterations of the
      crawl loop: the scraper is consistent with its corpus in visit order;
      before the first page the queue holds just the base URL; after it the
      base URL is the first page visited and, unless the queue ran dry at
      once, the first page stored. */
  ghost predicate Frontier(baseUrl: string, s: ScraperState, queue: seq<string>) {
    && Consistent(s) && InVisitOrder(s)
    && s.baseUrl == baseUrl
    && (s.visitLog == [] ==> queue == [baseUrl] && s == Initial(baseUrl))
    && (s.visitLog != [] ==> s.visitLog[0] == baseUrl)
    && (s.visitLog != [] && baseUrl !in s.docs.entries ==> queue == [] && s.docs.keys == [])
    && (s.docs.keys != [] ==> s.docs.keys[0] == baseUrl)
  }

  /** One iteration of the crawl loop keeps the frontier facts, whether the
      page ends the crawl or hands back URLs to queue; with the source's
      handler, a page that does not end the crawl is stored. */
  lemma StepKeepsFrontier(baseUrl: string, s: ScraperState, web: Web, handling: Handling, queue: seq<string>)
    requires queue != [] && Frontier(baseUrl, s, queue) && SoundFetch(web)
    ensures var (t, out) := ScrapePage(s, web, handling, queue[0]);
      && Consistent(t) && InVisitOrder(t)
      && t.baseUrl == baseUrl
      && t.visitLog != [] && t.visitLog[0] == baseUrl
      && (t.docs.keys != [] ==> t.docs.keys[0] == baseUrl)
      && (out.Discovered? ==> Frontier(baseUrl, t, queue[1..] + out.urls))
      && s.docs.entries.Keys <= t.docs.entries.Keys
      && (out.Discovered? && handling == AsWritten ==> forall u :: u in t.visited ==> u in s.visited || u in t.docs.entries)
  {
    var url := queue[0];
    if url !in s.visited {
      VisitKeepsFrontier(baseUrl, s, web.keep, handling, queue, web.page(url, |s.visitLog| + 1));
    }
  }

  lemma VisitKeepsFrontier(baseUrl: string, s: ScraperState, keep: string -> Result<bool, Urls.UrlError>, handling: Handling, queue: seq<string>, fetched: Result<PageRecord, Exception>)
    requires queue != [] && Frontier(baseUrl, s, queue) && queue[0] !in s.visited
    requires fetched.Ok? ==> fetched.value.url == queue[0] && WellFormed(fetched.value)
    ensures var (t, out) := Visit(s, keep, handling, queue[0], fetched);
      && Consistent(t) && InVisitOrder(t)
      && t.baseUrl == baseUrl
      && t.visitLog != [] && t.visitLog[0] == baseUrl
      && (t.docs.keys != [] ==> t.docs.keys[0] == baseUrl)
      && (out.Discovered? ==> Frontier(baseUrl, t, queue[1..] + out.urls))
      && s.docs.entries.Keys <= t.docs.entries.Keys
      && (out.Discovered? && handling == AsWritten ==> forall u :: u in t.visited ==> u in s.visited || u in t.docs.entries)
  {
    var url := queue[0];
    VisitKeepsOrder(s, keep, handling, url, fetched);
    var (t, out) := Visit(s, keep, handling, url, fetched);
    if fetched.Ok? {
      PutSpec(s.docs, url, fetched.value);
    }
  }

  /** The invariant of the crawl loop. */
  ghost predicate Crawling(baseUrl: string, web: Web, handling: Handling, site: set<string>, s: ScraperState, queue: seq<string>) {
    && SoundFetch(web) && Within(web, site)
    && s.visited <= site
    && (forall i :: 0 <= i < |queue| ==> queue[i] in site)
    && Frontier(baseUrl, s, queue)
    && LinksFollowed(web.keep, s, queue)
    && (handling == AsWritten ==> forall u :: u in s.visited ==> u in s.docs.entries)
  }

  /** What holds of the scraper however the crawl ends: it is consistent,
      its corpus is in visit order, and the base URL is the first page
      visited and, when anything is stored, the first page stored. */
  ghost predicate Settled(baseUrl: string, s: ScraperState) {
    && Consistent(s) && InVisitOrder(s)
    && s.baseUrl == baseUrl
    && s.visitLog != [] && s.visitLog[0] == baseUrl
    && (s.docs.keys != [] ==> s.docs.keys[0] == baseUrl)
  }

  /** The crawl loop starts in its invariant. */
  lemma CrawlStarts(baseUrl: string, web: Web, handling: Handling, site: set<string>)
    requires SoundFetch(web) && Within(web, site) && baseUrl in site
    ensures Crawling(baseUrl, web, handling, site, Initial(baseUrl), [baseUrl])
  {
  }

  /** A crawl loop that drains its queue leaves the scraper settled, with
      every same-domain link of the corpus followed. */
  lemma CrawlEnds(baseUrl: string, web: Web, handling: Handling, site: set<string>, s: ScraperState)
    requires Crawling(baseUrl, web, handling, site, s, [])
    ensures Settled(baseUrl, s)
    ensures LinksFollowed(web.keep, s, [])
    ensures handling == AsWritten ==> forall u :: u in s.visited ==> u in s.docs.entries
  {
  }

  /** One iteration of the crawl loop: it either ends the crawl the way
      `Drain` does, or leaves a state and queue that keep the invariant,
      from which `Drain` goes on to the same result, with fewer pages left
      to visit or a shorter queue. */
  lemma CrawlStep(baseUrl: string, web: Web, handling: Handling, site: set<string>, s: ScraperState, queue: seq<string>)
    requires queue != [] && Crawling(baseUrl, web, handling, site, s, queue)
    ensures var (t, out) := ScrapePage(s, web, handling, queue[0]);
      && (out.Raised? ==> Settled(baseUrl, t) && Drain(s, web, handling, queue, site) == Aborted(out.error, t))
      && (out.Raised? && handling == SkipExhausted ==> !out.error.RetryError?)
      && (out.Discovered? ==>
            && Crawling(baseUrl, web, handling, site, t, queue[1..] + out.urls)
            && Drain(s, web, handling, queue, site) == Drain(t, web, handling, queue[1..] + out.urls, site)
            && (|site - t.visited| < |site - s.visited| ||
                (t.visited == s.visited && |queue[1..] + out.urls| < |queue|)))
  {
    StepKeepsFrontier(baseUrl, s, web, handling, queue);
    StepKeepsCrawling(baseUrl, web, handling, site, s, queue);
    DrainStep(web, handling, site, s, queue);
  }

  /** `Drain` takes the step the loop takes. */
  lemma DrainStep(web: Web, handling: Handling, site: set<string>, s: ScraperState, queue: seq<string>)
    requires Within(web, site) && s.visited <= site
    requires queue != [] && forall i :: 0 <= i < |queue| ==> queue[i] in site
    ensures var (t, out) := ScrapePage(s, web, handling, queue[0]);
      && t.visited <= site
      && (out.Raised? ==> Drain(s, web, handling, queue, site) == Aborted(out.error, t))
      && (out.Discovered? ==>
            && (forall i :: 0 <= i < |queue[1..] + out.urls| ==> (queue[1..] + out.urls)[i] in site)
            && Drain(s, web, handling, queue, site) == Drain(t, web, handling, queue[1..] + out.urls, site)
            && (|site - t.visited| < |site - s.visited| ||
                (t.visited == s.visited && |queue[1..] + out.urls| < |queue|)))
  {
    var url := queue[0];
    DiscoveredWithinSite(s, web, handling, url, site);
    RemainingShrinks(site, s.visited, url);
  }

  /** The loop invariant survives a step that discovers URLs. */
  lemma StepKeepsCrawling(baseUrl: string, web: Web, handling: Handling, site: set<string>, s: ScraperState, queue: seq<string>)
    requires queue != [] && Crawling(baseUrl, web, handling, site, s, queue)
    ensures var (t, out) := ScrapePage(s, web, handling, queue[0]);
      out.Discovered? ==> Crawling(baseUrl, web, handling, site, t, queue[1..] + out.urls)
  {
    StepKeepsFrontier(baseUrl, s, web, handling, queue);
    DrainStep(web, handling, site, s, queue);
    StepKeepsLinksFollowed(web, handling, s, queue);
  }

  lemma StepKeepsLinksFollowed(web: Web, handling: Handling, s: ScraperState, queue: seq<string>)
    requires queue != [] && LinksFollowed(web.keep, s, queue)
    ensures var (t, out) := ScrapePage(s, web, handling, queue[0]);
      out.Discovered? ==> LinksFollowed(web.keep, t, queue[1..] + out.urls)
  {
    var url := queue[0];
    if ScrapePage(s, web, handling, url).1.Discovered? {
      assert queue == [url] + queue[1..];
      ScrapeFollowsLinks(s, web, handling, url, queue[1..]);
    }
  }

  /** `crawl()`: breadth-first from the base URL. Whatever ends the crawl,
      the scraper stays consistent, the base URL is the first page visited,
      no URL is fetched twice, and the corpus keeps pages in visit order with
      the base URL first. A crawl that drains its queue has followed every
      same-domain link of every stored page, and with the source's handler
      it has stored every page it visited. */
  method Crawl(baseUrl: string, web: Web, handling: Handling, ghost site: set<string>) returns (r: CrawlResult)
    requires SoundFetch(web) && Within(web, site) && baseUrl in site
    ensures r == Drain(Initial(baseUrl), web, handling, [baseUrl], site)
    ensures Consistent(r.state) && InVisitOrder(r.state)
    ensures r.state.baseUrl == baseUrl
    ensures r.state.visitLog != [] && r.state.visitLog[0] == baseUrl
    ensures r.state.docs.keys != [] ==> r.state.docs.keys[0] == baseUrl
    ensures r.Finished? ==> LinksFollowed(web.keep, r.state, [])
    ensures r.Finished? && handling == AsWritten ==> forall u :: u in r.state.visited ==> u in r.state.docs.entries
    ensures r.Aborted? && handling == SkipExhausted ==> !r.error.RetryError?
  {
    var s := Initial(baseUrl);
    var queue := [baseUrl];
    CrawlStarts(baseUrl, web, handling, site);
    while queue != []
      invariant Crawling(baseUrl, web, handling, site, s, queue)
      invariant Drain(s, web, handling, queue, site) == Drain(Initial(baseUrl), web, handling, [baseUrl], site)
      decreases |site - s.visited|, |queue|
    {
      CrawlStep(baseUrl, web, handling, site, s, queue);
      var (t, out) := ScrapePage(s, web, handling, queue[0]);
      if out.Raised? {
        return Aborted(out.error, t);
      }
      s, queue := t, queue[1..] + out.urls;
    }
    CrawlEnds(baseUrl, web, handling, site, s);
    return Finished(s);
  }

  /** One page keeps the corpus in visit order: a stored page is the one
      just visited, which comes after every page visited before it. */
  lemma ScrapeKeepsOrder(s: ScraperState, web: Web, handling: Handling, url: string)
    requires Consistent(s) && InVisitOrder(s) && SoundFetch(web)
    ensures Consistent(ScrapePage(s, web, handling, url).0)
    ensures InVisitOrder(ScrapePage(s, web, handling, url).0)
  {
    ScrapePageKeepsConsistent(s, web, handling, url);
    if url !in s.visited {
      VisitKeepsOrder(s, web.keep, handling, url, web.page(url, |s.visitLog| + 1));
    }
  }

  lemma VisitKeepsOrder(s: ScraperState, keep: string -> Result<bool, Urls.UrlError>, handling: Handling, url: string, fetched: Result<PageRecord, Exception>)
    requires Consistent(s) && InVisitOrder(s) && url !in s.visited
    requires fetched.Ok? ==> fetched.value.url == url && WellFormed(fetched.value)
    ensures Consistent(Visit(s, keep, handling, url, fetched).0)
    ensures InVisitOrder(Visit(s, keep, handling, url, fetched).0)
  {
    VisitKeepsConsistent(s, keep, handling, url, fetched);
    var t := Visit(s, keep, handling, url, fetched).0;
    assert t.visitLog == s.visitLog + [url];
    assert forall i :: 0 <= i < |s.docs.keys| ==> s.docs.keys[i] in s.visitLog;
    if fetched.Ok? {
      assert t.docs.keys == s.docs.keys + [url];
      OrderAfterAppend(s.visitLog, s.docs.keys, url);
    } else {
      assert t.docs.keys == s.docs.keys;
      OrderAfterAppend(s.visitLog, s.docs.keys, url);
    }
  }

  /** Appending `url` to the log keeps the keys in log order, and so does
      appending it to both. */
  lemma OrderAfterAppend(log: seq<string>, keys: seq<string>, url: string)
    requires url !in log
    requires forall i :: 0 <= i < |keys| ==> keys[i] in log
    requires forall i, j :: 0 <= i < j < |keys| ==> Position(log, keys[i]) < Position(log, keys[j])
    ensures forall i, j :: 0 <= i < j < |keys| ==> Position(log + [url], keys[i]) < Position(log + [url], keys[j])
    ensures forall i, j :: 0 <= i < j < |keys + [url]| ==>
              Position(log + [url], (keys + [url])[i]) < Position(log + [url], (keys + [url])[j])
  {
    forall i | 0 <= i < |keys| ensures Position(log + [url], keys[i]) == Position(log, keys[i]) {
      PositionOfAppend(log, url, keys[i]);
    }
    var ks := keys + [url];
    forall i, j | 0 <= i < j < |ks| ensures Position(log + [url], ks[i]) < Position(log + [url], ks[j]) {
      assert ks[i] == keys[i];
      if j == |keys| {
        assert Position(log + [url], ks[j]) == |log|;
      } else {
        assert ks[j] == keys[j];
      }
    }
  }

  /** A page that discovers URLs leaves every link of the corpus followed
      once its URLs join the rest of the queue. */
  lemma ScrapeFollowsLinks(s: ScraperState, web: Web, handling: Handling, url: string, rest: seq<string>)
    requires LinksFollowed(web.keep, s, [url] + rest)
    requires ScrapePage(s, web, handling, url).1.Discovered?
    ensures LinksFollowed(web.keep, ScrapePage(s, web, handling, url).0, rest + ScrapePage(s, web, handling, url).1.urls)
  {
    if url !in s.visited {
      VisitFollowsLinks(s, web.keep, handling, url, web.page(url, |s.visitLog| + 1), rest);
    }
  }

  lemma VisitFollowsLinks(s: ScraperState, keep: string -> Result<bool, Urls.UrlError>, handling: Handling, url: string, fetched: Result<PageRecord, Exception>, rest: seq<string>)
    requires LinksFollowed(keep, s, [url] + rest)
    requires Visit(s, keep, handling, url, fetched).1.Discovered?
    ensures LinksFollowed(keep, Visit(s, keep, handling, url, fetched).0, rest + Visit(s, keep, handling, url, fetched).1.urls)
  {
    var (t, out) := Visit(s, keep, handling, url, fetched);
    var queue := rest + out.urls;
    forall k | k in t.docs.entries
      ensures match Filter(Targets(t.docs.entries[k].links), keep)
        case Ok(urls) => forall i :: 0 <= i < |urls| ==> urls[i] in t.visited || urls[i] in queue
        case Err(_) => false
    {
      if fetched.Ok? && k == url {
        assert t.docs.entries[k] == fetched.value;
      } else {
        assert k in s.docs.entries && t.docs.entries[k] == s.docs.entries[k];
      }
    }
  }
}

/** The crawl of a three-page site whose third page cannot be fetched: the
    base page links to two pages of its own domain, the first of which has
    no links and the second of which exhausts its retries. */
module CrawlScenario {
  import opened Results
  import opened Retry
  import opened Scraper
  import opened Crawler
  import Urls

  /** The site: `a` links to `b` and `c`, both of its own domain, `b`
      links nowhere, and fetching `c` ends in tenacity's `RetryError`. */
  ghost predicate ThreePages(web: Web, site: set<string>, a: string, b: string, c: string, e: ApiError) {
    && a != b && b != c && a != c
    && a in site && b in site && c in site
    && Within(web, site)
    && web.page(a, 1).Ok? && web.page(b, 2).Ok? && web.page(c, 3) == Err(RetryError(e))
    && Filter(Targets(web.page(a, 1).value.links), web.keep) == Ok([b, c])
    && Filter(Targets(web.page(b, 2).value.links), web.keep) == Ok([])
  }

  /** The scraper after `a`, after `b`, and after `c`. */
  function AfterA(web: Web, a: string): ScraperState
    requires web.page(a, 1).Ok?
  {
    ScraperState(a, {a}, Initial(a).docs.Put(a, web.page(a, 1).value), [a])
  }

  function AfterB(web: Web, a: string, b: string): ScraperState
    requires web.page(a, 1).Ok? && web.page(b, 2).Ok?
  {
    ScraperState(a, {a, b}, AfterA(web, a).docs.Put(b, web.page(b, 2).value), [a, b])
  }

  function AfterC(web: Web, a: string, b: string, c: string): ScraperState
    requires web.page(a, 1).Ok? && web.page(b, 2).Ok?
  {
    ScraperState(a, {a, b, c}, AfterB(web, a, b).docs, [a, b, c])
  }

  lemma PageA(web: Web, a: string, b: string, c: string, handling: Handling)
    requires web.page(a, 1).Ok?
    requires Filter(Targets(web.page(a, 1).value.links), web.keep) == Ok([b, c])
    ensures ScrapePage(Initial(a), web, handling, a) == (AfterA(web, a), Discovered([b, c]))
  {
    var s := Initial(a);
    assert s.visited + {a} == {a};
    assert s.visitLog + [a] == [a];
    assert web.page(a, |s.visitLog| + 1) == web.page(a, 1);
  }

  lemma PageB(web: Web, a: string, b: string, handling: Handling)
    requires a != b && web.page(a, 1).Ok? && web.page(b, 2).Ok?
    requires Filter(Targets(web.page(b, 2).value.links), web.keep) == Ok([])
    ensures ScrapePage(AfterA(web, a), web, handling, b) == (AfterB(web, a, b), Discovered([]))
  {
    var s := AfterA(web, a);
    assert b !in s.visited;
    assert s.visited + {b} == {a, b};
    assert s.visitLog + [b] == [a, b];
    assert web.page(b, |s.visitLog| + 1) == web.page(b, 2);
  }

  lemma PageC(web: Web, a: string, b: string, c: string, e: ApiError, handling: Handling)
    requires a != c && b != c
    requires web.page(a, 1).Ok? && web.page(b, 2).Ok? && web.page(c, 3) == Err(RetryError(e))
    ensures ScrapePage(AfterB(web, a, b), web, handling, c) ==
              (AfterC(web, a, b, c), if handling == AsWritten then Raised(RetryError(e)) else Discovered([]))
  {
    var s := AfterB(web, a, b);
    assert c !in s.visited;
    assert s.visited + {c} == {a, b, c};
    assert s.visitLog + [c] == [a, b, c];
    assert web.page(c, |s.visitLog| + 1) == Err(RetryError(e));
  }

  /** The first two pages of the crawl: `a` is stored and discovers `b` and
      `c`, then `b` is stored and discovers nothing. */
  lemma FirstTwoPages(web: Web, site: set<string>, a: string, b: string, c: string, e: ApiError, handling: Handling)
    requires ThreePages(web, site, a, b, c, e)
    ensures AfterB(web, a, b).visited <= site
    ensures Drain(Initial(a), web, handling, [a], site) == Drain(AfterB(web, a, b), web, handling, [c], site)
  {
    PageA(web, a, b, c, handling);
    DrainStep(web, handling, site, Initial(a), [a]);
    assert [a][1..] + [b, c] == [b, c];
    PageB(web, a, b, handling);
    DrainStep(web, handling, site, AfterA(web, a), [b, c]);
    assert [b, c][1..] + [] == [c];
  }

  /** As written: the exhausted retry escapes `scrape_page`, so the crawl
      aborts with `RetryError` after storing `a` and `b`, and nothing is
      returned to the generator. */
  lemma ExhaustedRetryAbortsCrawl(web: Web, site: set<string>, a: string, b: string, c: string, e: ApiError)
    requires ThreePages(web, site, a, b, c, e)
    ensures var r := Drain(Initial(a), web, AsWritten, [a], site);
      && r.Aborted? && r.error == RetryError(e)
      && r.state.visited == {a, b, c}
      && r.state.docs.keys == [a, b]
  {
    assert Drain(Initial(a), web, AsWritten, [a], site) == Aborted(RetryError(e), AfterC(web, a, b, c)) by {
      FirstTwoPages(web, site, a, b, c, e, AsWritten);
      PageC(web, a, b, c, e, AsWritten);
      DrainStep(web, AsWritten, site, AfterB(web, a, b), [c]);
    }
    StoredKeys(web, a, b);
  }

  /** Corrected: the exhausted page is logged and skipped, and the crawl
      finishes with `a` and `b` stored and all three pages visited. */
  lemma ExhaustedRetrySkipsPage(web: Web, site: set<string>, a: string, b: string, c: string, e: ApiError)
    requires ThreePages(web, site, a, b, c, e)
    ensures var r := Drain(Initial(a), web, SkipExhausted, [a], site);
      && r.Finished?
      && r.state.visited == {a, b, c}
      && r.state.docs.keys == [a, b]
  {
    var t := AfterC(web, a, b, c);
    assert Drain(Initial(a), web, SkipExhausted, [a], site) == Drain(t, web, SkipExhausted, [], site) by {
      FirstTwoPages(web, site, a, b, c, e, SkipExhausted);
      PageC(web, a, b, c, e, SkipExhausted);
      DrainStep(web, SkipExhausted, site, AfterB(web, a, b), [c]);
      assert [c][1..] + [] == [];
    }
    StoredKeys(web, a, b);
  }

  /** `a` and then `b` are stored, in that order. */
  lemma StoredKeys(web: Web, a: string, b: string)
    requires a != b && web.page(a, 1).Ok? && web.page(b, 2).Ok?
    ensures AfterB(web, a, b).docs.keys == [a, b]
  {
  }
}
