# api-doc-generator, modelled in Dafny

This project models the core of api-doc-generator, a tool that crawls an API
documentation site and turns it into a Markdown guide. Two parts are modelled:

- **The scraper** (`APIScraper` in `api_doc_generator/scraper.py`). It
  cleans code blocks and extracts them from a page. It reduces HTML to its
  text. It calls the Jina Reader, Segmenter and Embeddings APIs with
  tenacity's retry policy, and stores one record per page in an
  insertion-ordered dictionary. It follows same-domain links breadth-first
  until its queue is empty.
- **The generator's pure part** (`api_doc_generator/generator.py`). This is
  the Gemini model table with `get_model_config`, and the Markdown renderer
  `_generate_markdown`.

The three HTTP APIs, the HTML parser and the clock are oracles. They are
passed in as functions (`Scraper.Services`), so every property below holds
whatever those services answer.

The modules, in dependency order:

- `Results`: the `Option` and `Result` wrappers.
- `Text`: Python's whitespace predicates, `strip`, `join`, `find`/`in` on
  strings, `splitlines` and `str(n)`.
- `LineNumbers`: the three regular-expression passes of `_clean_code_block`.
- `CodeBlocks` and `CodeBlocksExample`: `_clean_code_block`.
- `Extract`: `_extract_code_samples` and `_clean_html`.
- `Urls` and `UrlsExamples`: the `urlparse(...).netloc` computation and
  `is_valid_url`.
- `OrderedMaps`: `dict` with its insertion order.
- `Retry`: the `@retry` decorator on the three API calls.
- `Scraper`: `scrape_page`, one page at a time.
- `Crawler` and `CrawlScenario`: `crawl`, as a loop and as a reference
  function.
- `Models`: `ModelConfig`.
- `Markdown`: `_generate_markdown`.

Where the repository's prose description and its code disagree, the model
follows the code:

- `is_valid_url` is a substring test on network locations, not an equality
  or suffix test. `docs.example.com.evil.io` is accepted for a base of
  `docs.example.com` (`UrlsExamples.LookalikeHostAccepted`).
- `_extract_code_samples` drops blank candidates before it cleans them, so
  an extracted sample can still be `""`
  (`Extract.NumberOnlyFenceGivesEmptySample`).
- The Segmenter is called on the cleaned content even when that content is
  empty (`Scraper.BlankPageIsStillSegmented`).
- The code never checks that there are as many embeddings as chunks. The
  model promises only what the code does: no embeddings call, and no
  embeddings, when there are no chunks.
- Several exceptions escape `scrape_page` and abort the whole crawl:
  - a missing `data` or `content` key in the Reader's reply (`KeyError`);
  - a link `urlparse` rejects (`ValueError`), raised after the page is
    stored;
  - an API call that fails three times (tenacity's `RetryError`, see
    Findings).
- `_generate_markdown` reads the title with a default of
  `'Untitled Page'`. The scraper stores a title for every page (`''` when
  the Reader sends none), so that default never applies to a scraped page.

## Model

| member | source | states |
|---|---|---|
| `CodeBlocks.CleanCodeBlock` | api_doc_generator/scraper.py:178-207 | An empty block cleans to `""`, and every result has no leading or trailing whitespace |
| `CodeBlocks.CleanCodeBlockEmptyIff` | api_doc_generator/scraper.py:180-197 | The result is `""` exactly when the input is empty or every line left after the line-number passes is blank |
| `CodeBlocks.NumberOnlyBlockCleansToEmpty` | api_doc_generator/scraper.py:184-186 | A non-blank block made only of digits cleans to `""`, because the trailing-number pass removes all of it |
| `CodeBlocks.TrimBlankEdgesSpec` | api_doc_generator/scraper.py:189-197 | The lines kept are one contiguous slice with only blank lines dropped on either side; when non-empty, the first and last are non-blank; it is empty exactly when every line is blank |
| `CodeBlocks.MinIndent` | api_doc_generator/scraper.py:200-201 | The indentation removed is at most that of every non-blank line and equals that of some non-blank line |
| `CodeBlocks.Dedent` | api_doc_generator/scraper.py:204-205 | Every non-blank line loses exactly that many leading whitespace characters, and every blank line becomes `""` |
| `CodeBlocks.DedentByMinIsMaximal` | api_doc_generator/scraper.py:200-205 | After dedenting by the minimum, some line starts with a non-space, so no further common indentation is left |
| `CodeBlocksExample.DedentExample` | api_doc_generator/scraper.py:178-207 | `"    foo()\n    bar()"` cleans to `"foo()\nbar()"` |
| `CodeBlocksExample.CleanTwoIndentedLines` | api_doc_generator/scraper.py:178-207 | Two digit-free lines under a common indentation clean to the two lines without it, joined by a newline |
| `LineNumbers.TrailingNumberStartIsLeftmost` | api_doc_generator/scraper.py:184 | The trailing-number pass cuts at the leftmost position where `\s*_?\d+\s*` reaches the end of the text, and cuts nothing when there is none |
| `LineNumbers.TrailingNumberStartMatches` | api_doc_generator/scraper.py:184 | Where the pass cuts, `\s*_?\d+\s*` matches through to the end of the text |
| `LineNumbers.NoMatchBeforeStart` | api_doc_generator/scraper.py:184 | Wherever `\s*_?\d+\s*` matches through to the end, the pass cuts there or earlier |
| `LineNumbers.StripLeadingNumbersKeepsUnnumbered` | api_doc_generator/scraper.py:185 | The leading-number pass leaves text unchanged when no line starts with an optional underscore and digits after its indentation |
| `LineNumbers.CollapseKeepsTextWithoutBlankLines` | api_doc_generator/scraper.py:186 | The blank-line pass leaves text unchanged when it has no newline followed by a blank line |
| `LineNumbers.StripLineNumbersKeepsPlainText` | api_doc_generator/scraper.py:184-186 | The three passes together leave text with no digits and no blank lines unchanged |
| `Extract.FencedAttemptFinds` | api_doc_generator/scraper.py:167 | Every match of `` ```[\w]*\n(.*?)``` `` (a fence, a word-character tag, a newline, a body up to the next fence) is exactly what the attempt at its start returns, so a match is fixed by where it starts |
| `Extract.PreAttemptFinds` | api_doc_generator/scraper.py:168 | Every match of `<pre><code>(.*?)</code></pre>` is exactly what the attempt at its start returns |
| `Extract.FencedSpans` | api_doc_generator/scraper.py:167 | The fenced-block matches found lie in order and do not overlap; each is a match of the pattern (opening fence, word tag, newline, body up to the next fence); and no match starts before the first, between two, or after the last |
| `Extract.PreCodeSpans` | api_doc_generator/scraper.py:168 | The `<pre><code>` matches found lie in order and do not overlap; each is a match of the pattern (opening tags, body up to the first closing tags); and no match starts before the first, between two, or after the last |
| `Extract.GapsLocate` | api_doc_generator/scraper.py:167-168 | A successful attempt at a position in a scanned range lies inside one of the matches the scan reports |
| `Extract.FencedSpansMissNothing` | api_doc_generator/scraper.py:167 | Every match of the fenced-block pattern anywhere in the text starts inside a match the scan reports: `re.findall` skips only matches that overlap an earlier one |
| `Extract.PreCodeSpansMissNothing` | api_doc_generator/scraper.py:168 | Every match of the `<pre><code>` pattern anywhere in the text starts inside a match the scan reports |
| `Extract.FencedRoundTrip` | api_doc_generator/scraper.py:167 | A body without backticks, fenced with any word tag, is captured back exactly |
| `Extract.PreCodeRoundTrip` | api_doc_generator/scraper.py:168 | A body without `<`, wrapped in `<pre><code>` and `</code></pre>`, is captured back exactly |
| `Extract.NoTagNoPreBlocks` | api_doc_generator/scraper.py:168 | Text without `<` yields no `<pre><code>` block |
| `Extract.ExtractCodeSamples` | api_doc_generator/scraper.py:164-176 | Samples come in discovery order: the non-blank fenced blocks, then the `<pre><code>` blocks, then the stripped non-blank element texts, each cleaned; every sample is stripped |
| `Extract.ExtractCodeSamplesSpec` | api_doc_generator/scraper.py:167-176 | Every sample is the cleaning of a non-blank candidate, and every non-blank candidate's cleaning is among the samples |
| `Extract.OneFencedSample` | api_doc_generator/scraper.py:164-176 | A page that is one fenced block yields nothing when the body is blank, and otherwise exactly the cleaned body |
| `Extract.NumberOnlyFenceGivesEmptySample` | api_doc_generator/scraper.py:164-176 | A fenced block holding only digits passes the blank filter and yields the empty sample `""` |
| `Extract.CleanHtml` | api_doc_generator/scraper.py:209-224 | The cleaned text has no leading or trailing whitespace, and is empty exactly when every visible string is blank |
| `Extract.CleanHtmlKeepsText` | api_doc_generator/scraper.py:218-224 | Every non-blank visible string appears, stripped, in the cleaned text |
| `Extract.StripAllEmptyIff` | api_doc_generator/scraper.py:218-222 | No line is kept exactly when every visible string is blank |
| `Extract.StripAllIdempotent` | api_doc_generator/scraper.py:218-222 | Stripping and filtering the kept lines again changes nothing |
| `Urls.Netloc` | api_doc_generator/scraper.py:302-303 | A parsed network location has no `/`, `?` or `#` and no tab or newline, and its brackets are balanced (an unbalanced one is `urlparse`'s `ValueError`) |
| `Urls.IsValidUrl` | api_doc_generator/scraper.py:291-304 | The answer is defined exactly when both network locations parse; it is true exactly when the base's network location occurs at some position of the link's, which is then no shorter |
| `Urls.NetlocOfAbsoluteUrl` | api_doc_generator/scraper.py:302-303 | For `scheme://host/...` the network location is exactly the host |
| `Urls.IsValidUrlOfAbsoluteUrls` | api_doc_generator/scraper.py:302-304 | For two absolute URLs the answer is whether the link's host contains the base's host as a substring |
| `Urls.BaseUrlIsValid` | api_doc_generator/scraper.py:302-304 | The base URL is always valid for itself |
| `Urls.RelativeLinkIsRejected` | api_doc_generator/scraper.py:302-304 | A path-only link has an empty network location and is rejected whenever the base has a host |
| `UrlsExamples.SameHostAccepted` | api_doc_generator/scraper.py:291-304 | A page on the base's host is followed |
| `UrlsExamples.SiblingHostRejected` | api_doc_generator/scraper.py:291-304 | A page on a sibling subdomain is not followed |
| `UrlsExamples.UpperCaseHostRejected` | api_doc_generator/scraper.py:291-304 | A host differing only in letter case is not followed, because the test is case-sensitive |
| `UrlsExamples.LookalikeHostAccepted` | api_doc_generator/scraper.py:291-304 | A host that merely starts with the base's host is followed |
| `OrderedMaps.PutSpec` | api_doc_generator/scraper.py:281 | Storing a record keeps the dictionary well formed and puts the value under its key; every other key keeps its value and position, and only a new key grows the size |
| `Retry.CallWithRetry` | api_doc_generator/scraper.py:52-56 | A success comes from the first attempt that answers, after at most three attempts; the call gives up exactly when all three attempts raise, carrying the third's error; the sleeps follow the backoff schedule |
| `Retry.RetryFromSpec` | api_doc_generator/scraper.py:89-93 | From attempt `n` on, the same holds for the remaining attempts |
| `Retry.WaitAfter` | api_doc_generator/scraper.py:54 | Every sleep is between 4 and 10 seconds |
| `Retry.WaitGrows` | api_doc_generator/scraper.py:130 | The backoff never shrinks from one attempt to a later one, and reaches its 10-second cap from the fifth attempt on |
| `Retry.RetryExtremes` | api_doc_generator/scraper.py:52-56 | A call that answers at once sleeps zero times; a call that always fails sleeps 4 seconds twice and gives up with the third error |
| `Scraper.Initial` | api_doc_generator/scraper.py:25-34 | A new scraper has visited nothing and stored nothing, and is in a consistent state |
| `Scraper.Embeddings` | api_doc_generator/scraper.py:265 | With no chunks there is no call and no embeddings; otherwise the result is the call's value, or `RetryError` when it gives up |
| `Scraper.Filter` | api_doc_generator/scraper.py:284 | It fails exactly when some link fails to parse; otherwise it keeps exactly the accepted links, and only links it was given |
| `Scraper.FilterOne` | api_doc_generator/scraper.py:284 | One target is kept when accepted, dropped when rejected, and its error is the result when the check raises |
| `Scraper.FilterAppend` | api_doc_generator/scraper.py:284 | Filtering a concatenation gives the first part's error if it has one, else the second part's, else the first part's kept targets followed by the second's; with `FilterOne` this fixes the order and the multiplicity of what is kept |
| `Scraper.ValidTargets` | api_doc_generator/scraper.py:284-304 | The same membership property, stated for `is_valid_url` |
| `Scraper.ValidTargetsAppend` | api_doc_generator/scraper.py:284-304 | The concatenation property, stated for `is_valid_url` |
| `Scraper.FetchPage` | api_doc_generator/scraper.py:246-279 | Exhausted Reader retries give `RetryError`; a missing `data` or `content` gives `KeyError`, and only then. Once the content is there, exhausted Segmenter retries give `RetryError`, and after the Segmenter answers the page succeeds exactly when the embeddings step does, failing with its error otherwise. A stored record carries the Reader's title, description and links with their defaults, its own URL, the cleaned content and extracted samples, the Segmenter's chunks and the embeddings of those chunks; it is well formed |
| `Scraper.Visit` | api_doc_generator/scraper.py:241-289 | The URL is marked visited before anything else. A fetched page is stored under its URL; a failed fetch stores nothing. The answer is the followed links in order, the `ValueError` of a bad link, or the page's exception (which the corrected handling swallows only for `RetryError`) |
| `Scraper.ScrapePage` | api_doc_generator/scraper.py:239-289 | An already-visited URL changes nothing and yields no links; any other URL is added to the visited set and the visit log. When exhausted retries are swallowed too (the corrected handling), no `RetryError` leaves the call |
| `Scraper.VisitKeepsConsistent` | api_doc_generator/scraper.py:241-284 | Visiting a new URL keeps the state consistent: every stored page was visited, is stored under its own URL and is well formed, and no URL was visited twice |
| `Scraper.ScrapePageKeepsConsistent` | api_doc_generator/scraper.py:239-289 | The same holds for `scrape_page` on any URL, whenever the fetch returns records of the URL asked for |
| `Scraper.ScraperWebIsSound` | api_doc_generator/scraper.py:246-279 | The scraper's fetch only returns well-formed records of the URL asked for |
| `Scraper.ExhaustedReaderFailsPage` | api_doc_generator/scraper.py:246-248 | When all three Reader attempts raise, the page fails with `RetryError` carrying the third error |
| `Scraper.BlankPageIsStillSegmented` | api_doc_generator/scraper.py:251-262 | A page whose text is all blank is still sent to the Segmenter, so a failing Segmenter fails that page |
| `Crawler.Drain` | api_doc_generator/scraper.py:318-328 | The queue is processed first in, first out, with discovered links appended; an escaping exception stops the crawl with the state reached so far |
| `Crawler.Crawl` | api_doc_generator/scraper.py:306-331 | The loop computes `Drain`. The final state is consistent, with pages stored in visit order starting at the base URL. When it finishes, every link of every stored page that passed the filter was visited. As written, every visited URL was then stored; with the corrected handling an exhausted retry never aborts |
| `Crawler.CrawlStep` | api_doc_generator/scraper.py:321-327 | One dequeue-scrape-extend step keeps the crawl invariant, agrees with `Drain`, and shrinks the unvisited part of the site or the queue |
| `Crawler.DrainStep` | api_doc_generator/scraper.py:325-327 | One step of `Drain` unfolds to a scrape followed by `Drain` of the extended queue |
| `Crawler.ScrapeFollowsLinks` | api_doc_generator/scraper.py:284-327 | After a scrape, every accepted link of every stored page is visited or waiting in the queue |
| `Crawler.ScrapeKeepsOrder` | api_doc_generator/scraper.py:281-326 | Pages are stored in the order they were visited |
| `Crawler.DiscoveredWithinSite` | api_doc_generator/scraper.py:284 | When every link the Reader can return is in `site`, every discovered URL is in `site` |
| `CrawlScenario.FirstTwoPages` | api_doc_generator/scraper.py:318-327 | A crawl of the three-page site reaches the third page with both others stored |
| `CrawlScenario.ExhaustedRetryAbortsCrawl` | api_doc_generator/scraper.py:286-289 | As written, one page whose Reader fails three times aborts the whole crawl with `RetryError` |
| `CrawlScenario.ExhaustedRetrySkipsPage` | api_doc_generator/scraper.py:286-289 | With the corrected handling, that page is skipped and the crawl finishes with the other pages stored |
| `Models.Find` | api_doc_generator/generator.py:48-53 | A lookup finds an entry with that name, and finds none exactly when no entry has it |
| `Models.ConfigFrom` | api_doc_generator/generator.py:45-82 | A name is accepted exactly when it is in the table. An unknown name gets the error listing the known names in order; a known one gets its own name, its table entry's experimental flag and the given temperature |
| `Models.GetModelConfig` | api_doc_generator/generator.py:45-82 | The same on `MODELS`, with `max_output_tokens` 2048 and four safety settings |
| `Models.KnownModelsAreAccepted` | api_doc_generator/generator.py:48-49 | A configuration exists exactly for the names in `MODELS` |
| `Models.DefaultModelIsStable` | api_doc_generator/generator.py:85-86 | The default model `gemini-1.5-pro` is accepted and is not experimental |
| `Models.ExperimentalModels` | api_doc_generator/generator.py:12-53 | Exactly `gemini-2.0-flash`, `gemini-2.0-flash-thinking-exp` and `gemini-exp-1206` are experimental, and every listed model's configuration carries its flag |
| `Models.CatalogNamesDistinct` | api_doc_generator/generator.py:12-43 | The table has six distinct names |
| `Models.ConfigsDifferOnlyByModel` | api_doc_generator/generator.py:51-81 | Any two models get the same generation and safety settings for the same temperature |
| `Models.SafetyCoversEachCategoryOnce` | api_doc_generator/generator.py:64-81 | The four harm categories each appear once, all blocked from medium probability up |
| `Markdown.GenerateMarkdown` | api_doc_generator/generator.py:102-141 | The guide begins with the header, a blank line and the `Generated on:` line, and is exactly that when no page is stored |
| `Markdown.ExampleSections` | api_doc_generator/generator.py:131-133 | Each sample contributes exactly two sections, a label and a fenced block |
| `Markdown.ExampleSectionsAt` | api_doc_generator/generator.py:131-133 | Sample `j` gets the label `Example first+j:` followed by its own sample in a fenced block |
| `Markdown.PageLayout` | api_doc_generator/generator.py:113-139 | A page's sections are, position by position: the title; the description if non-empty; the source line; the content under its heading if non-empty; the examples numbered from 1 under their heading if any; and one bullet per link under their heading if any |
| `Markdown.HeadAt` | api_doc_generator/generator.py:113-126 | The title, description, source and content sections open a page, before any code example |
| `Markdown.ExampleAt` | api_doc_generator/generator.py:129-133 | Under the `Code Examples` heading, the `j`-th sample is labelled `Example j+1:` and followed by its fenced block |
| `Markdown.LinkAt` | api_doc_generator/generator.py:136-139 | The links heading and one bullet per link, in the links' order, close the page |
| `Markdown.SectionAt` | api_doc_generator/generator.py:111-141 | Section `k` of page `i` appears in the guide's section list at the page's offset plus `k` |
| `Markdown.PageIndexGrows` | api_doc_generator/generator.py:111-114 | Each page's sections begin at least two sections after the previous page's |
| `Markdown.PageSectionInGuide` | api_doc_generator/generator.py:111-141 | Every section of every stored page appears in the guide text |
| `Markdown.EveryPageIsListed` | api_doc_generator/generator.py:111-121 | Every stored page's title heading and `Source:` line appear in the guide |
| `Markdown.ExamplesAreNumberedFromOne` | api_doc_generator/generator.py:129-133 | The `n`-th sample of a page appears labelled `Example n:` and fenced |
| `Markdown.ExampleInGuide` | api_doc_generator/generator.py:129-133 | Both the label and the fenced sample of every code example reach the guide text |
| `Markdown.PagesInStoredOrder` | api_doc_generator/generator.py:111-114 | Pages appear in the order they were stored |

## Left out

- HTTP, headers and the API key check (scraper.py:13-18, 44-50, 57-162): the Reader, Segmenter and Embeddings responses are oracles. The Reader's is keyed by URL and attempt number; the other two are keyed by the page's position in scrape order, their input and the attempt number. Only their outcome shapes are modelled: a reply, a `RequestError`, or a `JinaAPIError`.
- `time.sleep`, `tqdm` and logging: the retry sleeps are recorded, not taken. The 0.3-second pause and the progress bar in `crawl` have no observable effect on the result.
- The clock: `scraped_at` is an oracle indexed by scrape order. `_generate_markdown`'s timestamp is a parameter.
- BeautifulSoup: `html.parser`, `decompose`, `stripped_strings` and `find_all(['code', 'pre'])` are one parser oracle. It returns the visible strings and the code element texts in document order.
- Regular expressions and `str.isspace` are modelled with their character classes. `\d` and `\w` are modelled as ASCII, which `re` treats more widely for non-ASCII digits and letters.
- `Urls.Netloc`: does not model two `ValueError`s of `urlsplit`, because they need Unicode normalisation and IP address parsing. One is the check inside brackets (IPv6 literals). The other is the NFKC check on a non-ASCII netloc: `https://a\u2100b.com/` raises, since `\u2100` normalises to `a/c`, while the model returns the netloc. Apart from these two errors the network location is computed as `urlsplit` does.
- JSON `null` values in a reply: a present-but-null field is treated like a missing one, which differs from the source in these ways:
  - a null `links` makes `links.values()` raise `AttributeError` after the page is stored (scraper.py:284), which aborts the crawl; the model discovers no links and the crawl goes on;
  - a null `title` is stored as `None` and rendered as `## None`; the model stores `""`;
  - a null `data` or `content` raises a `TypeError` in the source (subscripting or parsing `None`), where the model raises `KeyError`. Both escape `scrape_page` and stop the crawl;
  - a null `description` behaves as the model says, because the guide skips a falsy description.
- Floats: temperatures and penalties are reals; embeddings are sequences of reals.
- The termination of `crawl` needs every link the Reader can return to lie in a finite set `site`. That set is a ghost parameter of `Crawler.Crawl` and `Crawler.Drain`. The source has no bound, so a site that links to an endless set of same-domain URLs never finishes.
- The Gemini calls and everything after `_generate_markdown` in generator.py (lines 143-359): the HTML conversion and styling, the LLM enhancement, file writes and `generate`.
- main.py and test_generator.py: command-line handling and printing.
- `Scraper.FetchPage`: does not promise as many embeddings as chunks, because the code never checks the Embeddings reply against the chunks.

## Findings

| source | as written | input that shows it | evidently intended | confidence | as-written member | corrected member |
|---|---|---|---|---|---|---|
| api_doc_generator/scraper.py:286 | The `@retry` decorators (scraper.py:52-56, 89-93, 128-132) have no `reraise=True`, so they raise tenacity's `RetryError` after the third failed attempt. `scrape_page` catches only `JinaAPIError` and `httpx.RequestError`, so the exception escapes and `crawl` stops. | A site whose third page's Reader call fails three times: the crawl aborts with `RetryError`, and later pages are never visited | An API failure is logged and that page skipped, as the `except` clause and its docstring describe, and the crawl goes on | not executed | `CrawlScenario.ExhaustedRetryAbortsCrawl` | `CrawlScenario.ExhaustedRetrySkipsPage` |
