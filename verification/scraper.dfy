/** One page of the crawl: `APIScraper.scrape_page` and `is_valid_url`
    (api_doc_generator/scraper.py:226-304). The three Jina APIs, the HTML
    parser and the clock are parameters: the reader, segmenter and embedder
    are oracles answering attempt `n` of a call, the parser is what
    BeautifulSoup finds in a document, and the clock gives the timestamp of
    the n-th page scraped. */
module Scraper {
  import opened Results
  import opened Text
  import opened Retry
  import opened OrderedMaps
  import Urls
  import Extract

  /** One entry of the reader's `links` object: the link text (the key)
      and the link target (the value). */
  datatype Link = Link(text: string, target: string)

  /** One vector of the embeddings API. */
  datatype Embedding = Embedding(vector: seq<real>)

  /** The reader reply's `data` object; a key it lacks is `None`. */
  datatype ReaderData = ReaderData(
    content: Option<string>,
    title: Option<string>,
    description: Option<string>,
    links: Option<seq<Link>>)

  /** The reader reply; `data` is `None` when the reply has no `data` key. */
  datatype ReaderReply = ReaderReply(data: Option<ReaderData>)

  /** What BeautifulSoup finds in a document: the text nodes outside
      `script` and `style` elements, and the `.text` of every `code` and
      `pre` element. */
  datatype ParsedHtml = ParsedHtml(textNodes: seq<string>, codeElementTexts: seq<string>)

  /** Everything a page depends on that the scraper does not compute. The
      segmenter and the embedder answer the page's position in scrape
      order, their input and the attempt number, so two pages with the same
      text can get different answers. The segmenter's `None` is a reply
      without a `chunks` key. */
  datatype Services = Services(
    reader: (string, nat) -> Attempt<ReaderReply>,
    segmenter: (nat, string, nat) -> Attempt<Option<seq<string>>>,
    embedder: (nat, seq<string>, nat) -> Attempt<seq<Embedding>>,
    parse: string -> ParsedHtml,
    clock: nat -> string)

  /** The `api_info` dictionary stored for a page (scraper.py:268-279). */
  datatype PageRecord = PageRecord(
    title: string,
    description: string,
    content: string,
    rawContent: string,
    chunks: seq<string>,
    embeddings: seq<Embedding>,
    codeSamples: seq<string>,
    links: seq<Link>,
    url: string,
    scrapedAt: string)

  /** The exceptions that can leave `scrape_page`: tenacity's `RetryError`
      wrapping the last attempt's error, the `KeyError` of a reply without
      `data` or `content`, and the `ValueError` `urlparse` raises. */
  datatype Exception =
    | RetryError(cause: ApiError)
    | KeyError(key: string)
    | ValueError(urlError: Urls.UrlError)

  /** Which exceptions `scrape_page` logs and swallows: `AsWritten` is the
      source's `except (JinaAPIError, httpx.RequestError)`, which an
      exhausted retry never reaches; `SkipExhausted` also swallows the
      `RetryError`, the behaviour the handler was evidently meant to have. */
  datatype Handling = AsWritten | SkipExhausted

  /** The scraper's fields: `base_url`, `visited_urls` and `api_docs`, plus
      the order in which URLs were marked visited. */
  datatype ScraperState = ScraperState(
    baseUrl: string,
    visited: set<string>,
    docs: OrderedMap<string, PageRecord>,
    visitLog: seq<string>)

  /** What a `scrape_page` call ends with. */
  datatype Outcome = Discovered(urls: seq<string>) | Raised(error: Exception)

  /** `APIScraper(base_url)` (scraper.py:25-34). */
  function Initial(baseUrl: string): (s: ScraperState)
    ensures Consistent(s) && s.baseUrl == baseUrl
    ensures s.visited == {} && s.docs.keys == [] && s.visitLog == []
  {
    ScraperState(baseUrl, {}, Empty(), [])
  }

  // ---------------------------------------------------------------------
  // The decorated API calls
  // ---------------------------------------------------------------------

  /** `_call_reader_api(url)` with its retry policy. */
  function ReaderCall(env: Services, url: string): Retried<ReaderReply> {
    CallWithRetry((n: nat) => env.reader(url, n))
  }

  /** `_segment_content(content)` with its retry policy. */
  function SegmentCall(env: Services, page: nat, content: string): Retried<Option<seq<string>>> {
    CallWithRetry((n: nat) => env.segmenter(page, content, n))
  }

  /** `_get_embeddings(texts)` with its retry policy. */
  function EmbedCall(env: Services, page: nat, texts: seq<string>): Retried<seq<Embedding>> {
    CallWithRetry((n: nat) => env.embedder(page, texts, n))
  }

  /** `self._get_embeddings(chunks) if chunks else []` (scraper.py:265):
      no chunks, no call. */
  function Embeddings(env: Services, page: nat, chunks: seq<string>): (r: Result<seq<Embedding>, Exception>)
    ensures chunks == [] ==> r == Ok([])
    ensures chunks != [] ==> (r.Ok? <==> EmbedCall(env, page, chunks).Succeeded?)
    ensures chunks != [] && r.Ok? ==> r.value == EmbedCall(env, page, chunks).value
    ensures r.Err? ==> r.error == RetryError(EmbedCall(env, page, chunks).lastError)
  {
    if chunks == [] then Ok([])
    else match EmbedCall(env, page, chunks)
      case Succeeded(v, _, _) => Ok(v)
      case GaveUp(e, _) => Err(RetryError(e))
  }

  // ---------------------------------------------------------------------
  // Link filtering
  // ---------------------------------------------------------------------

  /** The targets of the links, in order (`links.values()`). */
  function Targets(links: seq<Link>): (r: seq<string>)
    ensures |r| == |links|
    ensures forall i :: 0 <= i < |links| ==> r[i] == links[i].target
  {
    seq(|links|, i requires 0 <= i < |links| => links[i].target)
  }

  /** `[url for url in targets if check(url)]` where `check` may raise:
      the accepted targets in their order, or the error of the first target
      `check` raises on. */
  function Filter(targets: seq<string>, check: string -> Result<bool, Urls.UrlError>): (r: Result<seq<string>, Urls.UrlError>)
    ensures r.Err? <==> exists j :: 0 <= j < |targets| && check(targets[j]).Err?
    ensures r.Ok? ==> |r.value| <= |targets|
    ensures r.Ok? ==> forall i :: 0 <= i < |r.value| ==> r.value[i] in targets && check(r.value[i]) == Ok(true)
    ensures r.Ok? ==> forall j :: 0 <= j < |targets| && check(targets[j]) == Ok(true) ==> targets[j] in r.value
  {
    if targets == [] then Ok([])
    else
      var rest := Filter(targets[1..], check);
      assert forall j :: 1 <= j < |targets| ==> targets[j] == targets[1..][j - 1];
      match check(targets[0])
      case Err(e) => Err(e)
      case Ok(keep) =>
        match rest
        case Err(e) => Err(e)
        case Ok(kept) =>
          assert forall j :: 0 <= j < |targets| ==> check(targets[j]).Ok?;
          Ok(if keep then [targets[0]] + kept else kept)
  }

  /** A single target is kept when `check` accepts it, dropped when `check`
      rejects it, and its error is the result when `check` raises. */
  lemma FilterOne(t: string, check: string -> Result<bool, Urls.UrlError>)
    ensures check(t).Err? ==> Filter([t], check) == Err(check(t).error)
    ensures check(t) == Ok(true) ==> Filter([t], check) == Ok([t])
    ensures check(t) == Ok(false) ==> Filter([t], check) == Ok([])
  {
    FilterCons(t, [], check);
    assert [t] + [] == [t];
  }

  /** One step of the comprehension: the verdict `c` on a target `t` in
      front of the result `rest` for the targets after it. */
  function FilterStep(c: Result<bool, Urls.UrlError>, t: string, rest: Result<seq<string>, Urls.UrlError>): Result<seq<string>, Urls.UrlError> {
    if c.Err? then Err(c.error)
    else if rest.Err? then rest
    else if c.value then Ok([t] + rest.value)
    else rest
  }

  /** `whole` is the result for a concatenation whose parts give `left`
      and `right`. */
  predicate Concatenated(left: Result<seq<string>, Urls.UrlError>, right: Result<seq<string>, Urls.UrlError>, whole: Result<seq<string>, Urls.UrlError>) {
    && (left.Err? ==> whole == left)
    && (left.Ok? && right.Err? ==> whole == right)
    && (left.Ok? && right.Ok? ==> whole == Ok(left.value + right.value))
  }

  /** Filtering `[t] + rest` looks at `t` first. */
  lemma FilterCons(t: string, rest: seq<string>, check: string -> Result<bool, Urls.UrlError>)
    ensures Filter([t] + rest, check) == FilterStep(check(t), t, Filter(rest, check))
  {
    assert ([t] + rest)[0] == t && ([t] + rest)[1..] == rest;
  }

  lemma ConcatenatedStep(c: Result<bool, Urls.UrlError>, t: string, left: Result<seq<string>, Urls.UrlError>, right: Result<seq<string>, Urls.UrlError>, whole: Result<seq<string>, Urls.UrlError>)
    requires Concatenated(left, right, whole)
    ensures Concatenated(FilterStep(c, t, left), right, FilterStep(c, t, whole))
  {
    if c == Ok(true) && left.Ok? && right.Ok? {
      assert [t] + (left.value + right.value) == ([t] + left.value) + right.value;
    }
  }

  /** Filtering a concatenation filters the two parts in order: the first
      part's error wins, and otherwise the kept targets of the first part
      come before those of the second, each as often as it was given. */
  lemma {:induction false} FilterAppend(a: seq<string>, b: seq<string>, check: string -> Result<bool, Urls.UrlError>)
    ensures Concatenated(Filter(a, check), Filter(b, check), Filter(a + b, check))
    decreases |a|
  {
    if a == [] {
      assert a + b == b;
      if Filter(b, check).Ok? {
        assert Filter(a, check).value + Filter(b, check).value == Filter(b, check).value;
      }
    } else {
      var t, a' := a[0], a[1..];
      assert a == [t] + a';
      assert a + b == [t] + (a' + b);
      FilterAppend(a', b, check);
      FilterCons(t, a', check);
      FilterCons(t, a' + b, check);
      ConcatenatedStep(check(t), t, Filter(a', check), Filter(b, check), Filter(a' + b, check));
    }
  }

  /** `self.is_valid_url` (scraper.py:291-304) for a scraper of `baseUrl`. */
  function SameDomain(baseUrl: string): string -> Result<bool, Urls.UrlError> {
    (u: string) => Urls.IsValidUrl(baseUrl, u)
  }

  /** `[url for url in links.values() if self.is_valid_url(url)]`
      (scraper.py:284, with `is_valid_url` at scraper.py:291-304): the
      same-domain targets in their order, or the `ValueError` of the first
      target `urlparse` rejects. */
  function ValidTargets(baseUrl: string, targets: seq<string>): (r: Result<seq<string>, Urls.UrlError>)
    ensures r.Err? <==> exists j :: 0 <= j < |targets| && Urls.IsValidUrl(baseUrl, targets[j]).Err?
    ensures r.Ok? ==> forall i :: 0 <= i < |r.value| ==>
              r.value[i] in targets && Urls.IsValidUrl(baseUrl, r.value[i]) == Ok(true)
    ensures r.Ok? ==> forall j :: 0 <= j < |targets| && Urls.IsValidUrl(baseUrl, targets[j]) == Ok(true) ==>
              targets[j] in r.value
  {
    Filter(targets, SameDomain(baseUrl))
  }

  /** The same-domain filter of a concatenation is the filters of the two
      parts in order, with the first part's `ValueError` winning. */
  lemma ValidTargetsAppend(baseUrl: string, a: seq<string>, b: seq<string>)
    ensures Concatenated(ValidTargets(baseUrl, a), ValidTargets(baseUrl, b), ValidTargets(baseUrl, a + b))
  {
    FilterAppend(a, b, SameDomain(baseUrl));
  }

  // ---------------------------------------------------------------------
  // One page
  // ---------------------------------------------------------------------

  /** A record the scraper can have built: cleaned text, cleaned samples,
      and no embeddings without chunks. */
  predicate WellFormed(rec: PageRecord) {
    && Stripped(rec.content)
    && (forall i :: 0 <= i < |rec.codeSamples| ==> Stripped(rec.codeSamples[i]))
    && (rec.chunks == [] ==> rec.embeddings == [])
  }

  /** `reader_response['data']['content']` (scraper.py:247-248) when the
      Reader answered with both keys present. */
  function Delivered(env: Services, url: string): Option<string> {
    var call := ReaderCall(env, url);
    if call.Succeeded? && call.value.data.Some? then call.value.data.value.content else None
  }

  /** The body of the `try` up to the record (scraper.py:247-279): the
      record for `url` built from the API replies, or the exception that
      interrupts it. `n` is the position of the page in scrape order, which
      picks its timestamp. */
  function FetchPage(env: Services, url: string, n: nat): (r: Result<PageRecord, Exception>)
    ensures ReaderCall(env, url).GaveUp? ==> r == Err(RetryError(ReaderCall(env, url).lastError))
    ensures r.Err? && r.error.KeyError? <==>
              ReaderCall(env, url).Succeeded? &&
              (ReaderCall(env, url).value.data.None? || ReaderCall(env, url).value.data.value.content.None?)
    ensures r.Err? ==> !r.error.ValueError?
    ensures r.Ok? ==>
              && ReaderCall(env, url).Succeeded?
              && var data := ReaderCall(env, url).value.data;
              && data.Some?
              && data.value.content == Some(r.value.rawContent)
              && r.value.links == data.value.links.GetOr([])
              && r.value.title == data.value.title.GetOr("")
              && r.value.description == data.value.description.GetOr("")
    ensures r.Ok? ==>
              && r.value.url == url
              && r.value.scrapedAt == env.clock(n)
              && r.value.content == Extract.CleanHtml(env.parse(r.value.rawContent).textNodes)
              && r.value.codeSamples == Extract.ExtractCodeSamples(r.value.rawContent, env.parse(r.value.rawContent).codeElementTexts)
              && SegmentCall(env, n, r.value.content).Succeeded?
              && r.value.chunks == SegmentCall(env, n, r.value.content).value.GetOr([])
    ensures Delivered(env, url).Some? ==>
              var cleaned := Extract.CleanHtml(env.parse(Delivered(env, url).value).textNodes);
              && (SegmentCall(env, n, cleaned).GaveUp? ==> r == Err(RetryError(SegmentCall(env, n, cleaned).lastError)))
              && (SegmentCall(env, n, cleaned).Succeeded? ==>
                    var chunks := SegmentCall(env, n, cleaned).value.GetOr([]);
                    && (r.Ok? <==> Embeddings(env, n, chunks).Ok?)
                    && (Embeddings(env, n, chunks).Err? ==> r == Err(Embeddings(env, n, chunks).error)))
    ensures r.Ok? ==> Embeddings(env, n, r.value.chunks) == Ok(r.value.embeddings)
    ensures r.Ok? ==> WellFormed(r.value)
  {
    match ReaderCall(env, url)
    case GaveUp(e, _) => Err(RetryError(e))
    case Succeeded(reply, _, _) =>
      match reply.data
      case None => Err(KeyError("data"))
      case Some(data) =>
        match data.content
        case None => Err(KeyError("content"))
        case Some(content) =>
          var parsed := env.parse(content);
          var cleaned := Extract.CleanHtml(parsed.textNodes);
          var samples := Extract.ExtractCodeSamples(content, parsed.codeElementTexts);
          match SegmentCall(env, n, cleaned)
          case GaveUp(e, _) => Err(RetryError(e))
          case Succeeded(chunks, _, _) =>
            var chunkList := chunks.GetOr([]);
            match Embeddings(env, n, chunkList)
            case Err(e) => Err(e)
            case Ok(vectors) =>
              Ok(PageRecord(
                title := data.title.GetOr(""),
                description := data.description.GetOr(""),
                content := cleaned,
                rawContent := content,
                chunks := chunkList,
                embeddings := vectors,
                codeSamples := samples,
                links := data.links.GetOr([]),
                url := url,
                scrapedAt := env.clock(n)))
  }

  /** What `scrape_page` does with a URL it has not visited, once the body
      of its `try` has produced `fetched` (scraper.py:241-289): mark the URL
      visited, store the record under it, and return the same-domain link
      targets; an exception the handler does not catch escapes, after the
      record is stored when it is `urlparse`'s. */
  function Visit(s: ScraperState, keep: string -> Result<bool, Urls.UrlError>, handling: Handling, url: string, fetched: Result<PageRecord, Exception>): (r: (ScraperState, Outcome))
    ensures r.0.baseUrl == s.baseUrl
    ensures r.0.visited == s.visited + {url} && r.0.visitLog == s.visitLog + [url]
    ensures fetched.Ok? ==> r.0.docs == s.docs.Put(url, fetched.value)
    ensures fetched.Err? ==> r.0.docs == s.docs
    ensures fetched.Err? ==> r.1 == if fetched.error.RetryError? && handling == SkipExhausted then Discovered([]) else Raised(fetched.error)
    ensures fetched.Ok? ==> r.1 == match Filter(Targets(fetched.value.links), keep)
                                   case Ok(urls) => Discovered(urls)
                                   case Err(e) => Raised(ValueError(e))
  {
    var s1 := s.(visited := s.visited + {url}, visitLog := s.visitLog + [url]);
    match fetched
    case Err(e) =>
      if e.RetryError? && handling == SkipExhausted then (s1, Discovered([]))
      else (s1, Raised(e))
    case Ok(rec) =>
      var s2 := s1.(docs := s1.docs.Put(url, rec));
      match Filter(Targets(rec.links), keep)
      case Ok(urls) => (s2, Discovered(urls))
      case Err(e) => (s2, Raised(ValueError(e)))
  }

  /** What a crawl needs of the scraper besides its state: `page` is how
      the body of `scrape_page`'s `try` turns a URL and its position in
      scrape order into a record or an exception, and `keep` is
      `is_valid_url`, the test a link target must pass to be crawled. */
  datatype Web = Web(
    page: (string, nat) -> Result<PageRecord, Exception>,
    keep: string -> Result<bool, Urls.UrlError>)

  /** The scraper's own: pages fetched through the services, links kept
      when they belong to the base URL's domain. */
  function ScraperWeb(env: Services, baseUrl: string): Web {
    Web((u: string, n: nat) => FetchPage(env, u, n), SameDomain(baseUrl))
  }

  /** Fetching only ever returns well-formed records of the URL asked
      for. */
  ghost predicate SoundFetch(web: Web) {
    forall u: string, n: nat :: web.page(u, n).Ok? ==> web.page(u, n).value.url == u && WellFormed(web.page(u, n).value)
  }

  /** The scraper's fetch is sound. */
  lemma ScraperWebIsSound(env: Services, baseUrl: string)
    ensures SoundFetch(ScraperWeb(env, baseUrl))
  {
    var web := ScraperWeb(env, baseUrl);
    forall u: string, n: nat | web.page(u, n).Ok?
      ensures web.page(u, n).value.url == u && WellFormed(web.page(u, n).value)
    {
      assert web.page(u, n) == FetchPage(env, u, n);
    }
  }

  /** The scraper's link test is `is_valid_url` for its base URL, and
      keeping the links of a page gives the same-domain targets. */
  lemma ScraperWebKeepsSameDomain(env: Services, baseUrl: string, targets: seq<string>)
    ensures Filter(targets, ScraperWeb(env, baseUrl).keep) == ValidTargets(baseUrl, targets)
  {
  }

  /** `scrape_page(url)` (scraper.py:226-289), with `web` the scraper's
      fetch and link test (`ScraperWeb(env, s.baseUrl)` for the scraper
      itself): a visited URL is skipped before anything is fetched; any
      other URL is fetched, as the next page in scrape order, and visited. */
  function ScrapePage(s: ScraperState, web: Web, handling: Handling, url: string): (r: (ScraperState, Outcome))
    ensures url in s.visited ==> r == (s, Discovered([]))
    ensures url !in s.visited ==> r.0.visited == s.visited + {url} && r.0.visitLog == s.visitLog + [url]
    ensures r.1.Raised? && handling == SkipExhausted ==> !r.1.error.RetryError?
  {
    if url in s.visited then (s, Discovered([]))
    else Visit(s, web.keep, handling, url, web.page(url, |s.visitLog| + 1))
  }

  /** What holds of the scraper between pages: the corpus is a well-formed
      ordered map whose every key is a visited URL holding a well-formed
      record of that URL, and the visit log lists each visited URL once. */
  ghost predicate Consistent(s: ScraperState) {
    && s.docs.Valid()
    && (forall i, j :: 0 <= i < j < |s.visitLog| ==> s.visitLog[i] != s.visitLog[j])
    && (forall u :: u in s.visited <==> u in s.visitLog)
    && (forall k :: k in s.docs.entries ==>
          k in s.visited && s.docs.entries[k].url == k && WellFormed(s.docs.entries[k]))
  }

  /** A visit keeps the scraper consistent when the record it stores is a
      well-formed record of the visited URL: a URL is stored only under
      itself and only once it is visited, and the visit log gains the URL
      exactly when the visited set does. */
  lemma VisitKeepsConsistent(s: ScraperState, keep: string -> Result<bool, Urls.UrlError>, handling: Handling, url: string, fetched: Result<PageRecord, Exception>)
    requires Consistent(s) && url !in s.visited
    requires fetched.Ok? ==> fetched.value.url == url && WellFormed(fetched.value)
    ensures Consistent(Visit(s, keep, handling, url, fetched).0)
  {
    var t := Visit(s, keep, handling, url, fetched).0;
    forall u ensures u in t.visited <==> u in t.visitLog {
      assert u in t.visitLog <==> u in s.visitLog || u == url;
    }
    forall i, j | 0 <= i < j < |t.visitLog| ensures t.visitLog[i] != t.visitLog[j] {
      if j == |s.visitLog| {
        assert t.visitLog[i] == s.visitLog[i];
      }
    }
    if fetched.Ok? {
      PutSpec(s.docs, url, fetched.value);
    }
  }

  /** `scrape_page` keeps the scraper consistent, whatever it ends with. */
  lemma ScrapePageKeepsConsistent(s: ScraperState, web: Web, handling: Handling, url: string)
    requires Consistent(s) && SoundFetch(web)
    ensures Consistent(ScrapePage(s, web, handling, url).0)
  {
    if url !in s.visited {
      VisitKeepsConsistent(s, web.keep, handling, url, web.page(url, |s.visitLog| + 1));
    }
  }

  /** A reader that fails all three attempts fails the page with
      tenacity's `RetryError`, carrying the third attempt's error. */
  lemma ExhaustedReaderFailsPage(env: Services, url: string, n: nat)
    requires forall k :: 1 <= k <= MaxAttempts ==> env.reader(url, k).Raise?
    ensures FetchPage(env, url, n) == Err(RetryError(env.reader(url, MaxAttempts).error))
  {
    var call := (k: nat) => env.reader(url, k);
    assert forall k :: 1 <= k <= MaxAttempts ==> call(k).Raise?;
  }

  /** A page whose text is all blank is still sent to the segmenter, as
      an empty string, and fails when the segmenter keeps failing. */
  lemma BlankPageIsStillSegmented(env: Services, url: string, n: nat)
    requires var r := ReaderCall(env, url);
      && r.Succeeded? && r.value.data.Some? && r.value.data.value.content.Some?
      && var nodes := env.parse(r.value.data.value.content.value).textNodes;
         forall i :: 0 <= i < |nodes| ==> IsBlank(nodes[i])
    requires forall k :: 1 <= k <= MaxAttempts ==> env.segmenter(n, "", k).Raise?
    ensures FetchPage(env, url, n) == Err(RetryError(env.segmenter(n, "", MaxAttempts).error))
  {
    var call := (k: nat) => env.segmenter(n, "", k);
    assert forall k :: 1 <= k <= MaxAttempts ==> call(k).Raise?;
    assert SegmentCall(env, n, "").GaveUp?;
  }
}
