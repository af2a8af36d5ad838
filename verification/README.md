# rufus in Dafny

A model of the deterministic core of **rufus**, a Python library that crawls a web
site, cuts the text of every page into chunks, asks a language model to turn
each chunk into a structured JSON document and returns the documents for
retrieval-augmented generation. The network, the HTML parser and the language
model are parameters of the model. What remains is modelled and proved:

- the sentence chunker `chunk_text` (`chunker.dfy`, module `Chunker`). The
  regular-expression split `(?<=[.!?])\s+` is modelled exactly, with the
  whitespace class of a Python `str` pattern. The greedy packing loop is a left
  fold over the sentences.
- the URL filter `WebScraper.should_crawl` and the batched breadth-first loop of
  `crawl_async` (`scraper.dfy`, module `Scraper`). These rest on the part of
  `urllib.parse.urlparse` they use (`urls.dfy`, module `Urls`).
  - A page fetch is an abstract function from a URL to an optional page.
  - A batch is any at most `max_concurrent` distinct members of the frontier,
    because a Python set has no specified order.
  - The gathered fetches of a batch are handled in task order.
- the aggregation loop `ContentProcessor.process` (`processor.dfy`, module
  `Processor`).
  - `process_chunk`, the model call followed by `json.loads`, is an abstract
    enricher returning an optional JSON value.
  - Python truthiness is modelled, and so is the `'metadata' in processed` test
    with its `TypeError`s.
  - An exception ends only the current page.
- the client `RufusClient` (`client.dfy`, module `Client`): the API-key check of
  its constructor, and `scrape`, which checks the URL scheme and then processes
  what the crawl returns.

`common.dfy` (module `Common`) holds `Option`, `Result`, the client's errors and
Python's `startswith`/`endswith`.

Some behaviours of the code are worth knowing:

- **Chunking**
  - `chunk_text("")` is `[""]`, not `[]`.
  - The spaces that join the sentences of a chunk are not counted against
    `max_length`.
- **The URL filter**
  - Hosts must match exactly, so a sub-domain is out of scope.
  - The suffix test is applied to the whole lower-cased URL, so
    `http://a.com/doc.pdf?x=1` is crawled.
  - Tabs and line breaks anywhere in a URL are deleted before its host is read,
    so `http://a.com` followed by a line feed and `/1` is in scope for `a.com`.
- **The crawl**
  - `visited_urls` lives on the scraper, so a second `scrape` of the same start
    URL on the same client returns no documents once the first fetched it
    (`Scraper.RecrawlYieldsNothing`).
  - Nothing reads `max_depth`.
  - Nothing keeps `to_visit` and `visited_urls` disjoint; duplicates are
    dropped when a batch is filtered.
- **Documents**
  - There is no relevance threshold, and documents get no ids or timestamps.
  - No delay is made between requests.

## Model

| member | source | states |
|---|---|---|
| Chunker.FirstBoundary | rufus/utils.py:5 | the left-most place after `from` where a terminator is followed by whitespace, or none: no earlier place qualifies |
| Chunker.SpaceRunEnd | rufus/utils.py:5 | `\s+` is greedy: the run it consumes is all whitespace and is followed by a non-space or the end |
| Chunker.Segment | rufus/utils.py:5 | the split of the text: sentences and consumed separators reassemble the text exactly; every piece but the last ends in `.`, `!` or `?` followed by a whole whitespace run; no sentence contains another split point; the empty text is one empty piece |
| Chunker.SegmentCons | rufus/utils.py:5 | the first split point, its whitespace run and the split of the remainder together form the split of the text |
| Chunker.SplitSentences | rufus/utils.py:5 | the split yields at least one sentence, one per piece of the split, in order |
| Chunker.SentencesTerminated | rufus/utils.py:5 | in any split, every sentence but the last is non-empty and ends in `.`, `!` or `?` |
| Chunker.PackStep | rufus/utils.py:13-20 | one iteration of the packing loop loses and reorders no sentence, leaves the new sentence at the end of the open chunk, and closes a chunk exactly when the sentence would push a non-empty open chunk past `max_length` |
| Chunker.SplitTerminated | rufus/utils.py:5 | every sentence `re.split` returns, except the last, is non-empty and ends in `.`, `!` or `?` |
| Chunker.PackStepPreserves | rufus/utils.py:11-20 | one iteration of the packing loop keeps the loop invariant: the chunks so far plus the open chunk are the sentences so far, and the groups are non-empty, within budget or single, and greedy |
| Chunker.PackAll | rufus/utils.py:6-20 | after the loop the open chunk is empty exactly when there were no sentences, and the invariant holds over all sentences |
| Chunker.Flush | rufus/utils.py:22-23 | closing the open chunk turns the loop state into groups that partition the sentences and keep every packing property |
| Chunker.Group | rufus/utils.py:6-23 | the sentence groups concatenate back to exactly the sentences. No group is empty, and there is none only if there were no sentences. There are never more groups than sentences. Each group's summed length is within `max_length` unless it is a single sentence, and an oversized sentence stands alone. The packing is greedy: no group had room for the next group's first sentence |
| Chunker.OversizedAlone | rufus/utils.py:13-17 | a sentence longer than `max_length` forms a chunk by itself |
| Chunker.JoinWithSpaces | rufus/utils.py:15 | a group joined with single spaces is as long as its sentences plus one space between each two |
| Chunker.JoinedLength | rufus/utils.py:11-20 | a joined group exceeds `max_length` by at most its joining spaces, unless it is a single sentence, which may be arbitrarily long |
| Chunker.ChunkText | rufus/utils.py:4-25 | there is always at least one chunk, and never more chunks than sentences |
| Chunker.ChunkLength | rufus/utils.py:11-23 | each returned chunk exceeds `max_length` by at most its joining spaces, unless it is a single sentence |
| Chunker.JoinAppend | rufus/utils.py:15 | joining two non-empty runs of sentences puts exactly one space between the two joins |
| Chunker.JoinGroups | rufus/utils.py:10-23 | joining the joined groups equals joining all their sentences: the grouping moves no text |
| Chunker.ChunksJoinSentences | rufus/utils.py:5-25 | the chunks joined with single spaces equal the sentences joined with single spaces |
| Chunker.RejoinSingleSpaces | rufus/utils.py:5 | when every consumed separator is one space, the sentences joined with spaces reassemble the pieces |
| Chunker.SingleSpacedText | rufus/utils.py:5 | a text whose split points are all single spaces is its sentences joined with single spaces |
| Chunker.ChunksRejoin | rufus/utils.py:4-25 | round trip: for a text whose sentences are separated by single spaces, the chunks joined with single spaces give back the text |
| Chunker.GroupSingle | rufus/utils.py:10-23 | a single sentence is a single group, whatever `max_length` is |
| Chunker.SegmentWithoutBoundary | rufus/utils.py:5 | a text without a terminator followed by whitespace is one piece |
| Chunker.SplitWithoutBoundary | rufus/utils.py:5 | a text without a terminator followed by whitespace is split into the one sentence `[text]` |
| Chunker.OneJoined | rufus/utils.py:23 | a chunk of one sentence is that sentence, with no space added |
| Chunker.ChunkSingleSentence | rufus/utils.py:4-25 | a text without a split point is returned as the one chunk `[text]`, even when longer than `max_length` |
| Chunker.ChunkEmptyText | rufus/utils.py:5-23 | the empty text gives one empty chunk, for every `max_length` |
| Urls.Find | rufus/scraper.py:25 | the first occurrence of a character at or after a position: no earlier one exists |
| Urls.AfterScheme | rufus/scraper.py:25 | the scheme is split off at a `:` exactly when the text before it is a letter followed by letters, digits, `+`, `-` or `.`; any such colon is the one removed, and without one the URL is kept whole |
| Urls.AuthorityEnd | rufus/scraper.py:25 | the network location ends at the first `/`, `?` or `#`, or at the end of the URL |
| Urls.RemoveUnsafe | rufus/scraper.py:25 | `urlsplit` first deletes tabs, carriage returns and line feeds: none is left, and a URL without them is unchanged |
| Urls.RemoveUnsafeCounts | rufus/scraper.py:25 | exactly the tabs, carriage returns and line feeds are deleted: every other character occurs as often as before |
| Urls.RemoveUnsafeAppend | rufus/scraper.py:25 | the deletion works character by character, so it distributes over concatenation |
| Urls.ParseNetloc | rufus/scraper.py:25-26 | on a URL without tabs or line breaks, a parsed network location never contains `/`, `?` or `#`, and always has both or neither square brackets |
| Urls.Netloc | rufus/scraper.py:25-26 | `urlparse(url).netloc`, read after tabs and line breaks are deleted: it never contains `/`, `?` or `#`, and always has both or neither square brackets |
| Urls.NetlocOfComposedUrl | rufus/scraper.py:25-26 | round trip: the URL composed from a scheme, a host and a path, query or fragment parses back to that host, also when tabs or line breaks stand between the host and the rest |
| Urls.ParsedComposedUrl | rufus/scraper.py:25-26 | the same round trip for a URL that has no tabs or line breaks |
| Urls.NetlocAfterScheme | rufus/scraper.py:62 | for a URL starting with `scheme://`, the network location is the text up to the next `/`, `?` or `#` once tabs and line breaks are deleted; the URL is rejected only for an unbalanced bracket |
| Urls.CleanNetlocAfterScheme | rufus/scraper.py:62 | the same for a URL that has no tabs or line breaks |
| Scraper.ShouldCrawl | rufus/scraper.py:20-35 | a URL is accepted exactly when it is not visited, parses, has exactly the base domain as host and does not end in a refused suffix when lower-cased |
| Scraper.ShouldCrawlAntitone | rufus/scraper.py:20-35 | growing the visited set only turns acceptances into refusals, and a visited URL is always refused |
| Scraper.DigitEndingNotSkipped | rufus/scraper.py:29-31 | every refused suffix ends in a letter, so a URL ending in a digit passes the suffix test |
| Scraper.QueryDefeatsSuffixFilter | rufus/scraper.py:29-31 | `http://a.com/doc.pdf?x=1` is crawled: the suffix test looks at the whole URL, query included |
| Scraper.UpperCaseSuffixRefused | rufus/scraper.py:29-31 | the suffix test ignores case: `http://a.com/DOC.PDF` is refused |
| Scraper.SubdomainRefused | rufus/scraper.py:25-27 | `http://www.a.com/` is refused when the base domain is `a.com`: hosts must match exactly |
| Scraper.LineBreakIgnored | rufus/scraper.py:25-33 | `http://a.com\n/1` is crawled for the base domain `a.com`: a line break does not end the host |
| Scraper.FetchPage | rufus/scraper.py:37-59 | a fetch succeeds exactly when the fetcher gives a page; the page carries the URL that was requested and the links found |
| Scraper.Survivors | rufus/scraper.py:74-78 | exactly the batch URLs that pass the filter are fetched; the rest are dropped unfetched. No URL is fetched twice in a batch |
| Scraper.TakeBatch | rufus/scraper.py:71-72 | the batch holds `max_concurrent` distinct URLs of the frontier, or all of them when fewer remain, and the frontier keeps exactly the others |
| Scraper.AbsorbPage | rufus/scraper.py:82-88 | a fetched page is added to `visited` and to the results, nothing else is removed, and the frontier gains exactly the page's links that are in scope and unvisited, judged after the page's own URL is marked, so a page never queues itself again |
| Scraper.Absorb | rufus/scraper.py:80-88 | handling a batch keeps the earlier results, adds exactly the pages fetched for the batch's URLs (every successful fetch, and nothing else), grows `visited` by exactly their URLs, and never shrinks the frontier |
| Scraper.AbsorbStep | rufus/scraper.py:80-88 | handling the first fetch of a batch and then the rest handles the whole batch |
| Scraper.AbsorbFetched | rufus/scraper.py:82-88 | the same when the first fetch succeeded |
| Scraper.SoundSnoc | rufus/scraper.py:82-85 | appending a fresh, fetched, in-scope page reached from an earlier page keeps the results free of repeats and traceable to the start URL |
| Scraper.AbsorbPageKeeps | rufus/scraper.py:82-88 | handling one fetched page keeps the loop invariant: `visited` is the initial set plus the result URLs, and every waiting URL was discovered |
| Scraper.ClosedAfterPage | rufus/scraper.py:84-88 | after a page is handled, every in-scope link it discovered is visited, waiting or failed |
| Scraper.AbsorbCloses | rufus/scraper.py:80-88 | after a batch is handled, none of its fetched URLs is left pending: each was visited or failed to fetch |
| Scraper.AbsorbKeeps | rufus/scraper.py:80-88 | handling a batch keeps the invariant and never shrinks the frontier. Results grow by at most the number of fetched URLs, and a batch that adds no page changes nothing |
| Scraper.StepKeeps | rufus/scraper.py:71-88 | one loop iteration keeps the invariant and the closure of the discovered URLs. Results grow by at most one batch, and an iteration that adds no page only shrinks the frontier |
| Scraper.CrawlRound | rufus/scraper.py:70-88 | one round of the loop keeps the invariant and the closure of the discovered URLs. It adds at most `max_concurrent` pages, and a round that adds none leaves `visited` alone and shortens the queue |
| Scraper.StartPageFirst | rufus/scraper.py:62-78 | the first page of a crawl is its start URL, so a start URL that is filtered out or already visited gives no pages at all |
| Scraper.StartPageFetched | rufus/scraper.py:62-88 | a crawl that stops below the cap fetched its start URL first whenever that URL was unvisited, in scope and fetchable |
| Scraper.RecrawlYieldsNothing | rufus/scraper.py:11-22 | once a crawl has fetched its start URL, a second crawl from that URL on the same scraper returns no pages |
| Scraper.Crawl | rufus/scraper.py:61-90 | `crawl_async`. A start URL `urlparse` rejects is an error. Otherwise: the pages have distinct URLs, are the fetcher's pages, were unvisited, pass the filter and were reached from the start URL by links. `visited` grows by exactly their URLs. A crawl starting at or above the cap fetches nothing; otherwise the cap is overshot by less than one batch. A crawl that stops below the cap has visited every discovered in-scope URL or found it unfetchable |
| Processor.Accept | rufus/processor.py:73-79 | a missing or falsy result is dropped. A truthy result whose stamping raises ends the page. Every other truthy result is kept: unchanged without a `metadata` key, otherwise with `source_url` set to the page URL in its `metadata` and nothing else changed |
| Processor.ChunkContent | rufus/processor.py:70 | page content always gives at least one chunk |
| Processor.Truthy | rufus/processor.py:74 | `if processed:` fails exactly for `None`, `False`, zero, and the empty string, list and dictionary |
| Processor.StampRaises | rufus/processor.py:75-76 | stamping raises exactly when `'metadata' in processed` raises (on a number, a boolean or `None`), or succeeds and then reading `processed['metadata']` fails (on a string or a list) or the item assignment fails because the value is not a dictionary |
| Processor.UntilAbort | rufus/processor.py:69-83 | the chunks a page's loop reaches are a prefix free of exceptions, ended only by an exception or by the last chunk |
| Processor.Kept | rufus/processor.py:74-77 | a run of outcomes contributes no more documents than it has outcomes |
| Processor.UntilAbortAt | rufus/processor.py:72-83 | the loop reaches exactly the chunks before the first exception |
| Processor.ProcessChunks | rufus/processor.py:72-79 | the loop over a page's chunks returns the kept results of the chunks before the first exception, in chunk order |
| Processor.ProcessPage | rufus/processor.py:69-83 | a page's documents are those of its chunks; a page without content has none |
| Processor.ProcessPages | rufus/processor.py:66-85 | the documents of all pages, page after page |
| Processor.Process | rufus/processor.py:65-85 | `process` returns the documents of the pages in page order, each page chunked with `max_length` 4000 |
| Processor.AllDocsAppend | rufus/processor.py:68-85 | pages are independent: the documents of two runs of pages are each run's documents, in order |
| Processor.CollectAppend | rufus/processor.py:68-85 | collecting over two runs of pages is collecting over each, in order |
| Processor.MissingContentSkipped | rufus/processor.py:69-83 | a page without `content` adds no documents, and the pages before and after it keep theirs |
| Processor.AllDocsBound | rufus/processor.py:70-77 | there are never more documents than chunks across all pages |
| Processor.KeptFromOutcome | rufus/processor.py:74-77 | every document is the kept outcome of some chunk |
| Processor.ChunkDocsFromChunks | rufus/processor.py:72-77 | every document of a page comes from one of its chunks through the enricher and is truthy |
| Processor.NoAbortReachesAll | rufus/processor.py:72-79 | when no chunk raises, every chunk of the page is processed |
| Processor.KeptCount | rufus/processor.py:74-77 | there is one document per kept outcome: every truthy result that does not raise is kept, with no other threshold |
| Client.NewClient | rufus/client.py:8-14 | a client is created exactly when the argument or the environment gives a non-empty key, preferring the argument; otherwise `ValueError`. A new client has a fresh scraper |
| Client.ApiKeyPrecedence | rufus/client.py:10-12 | an empty key argument counts as none, and a non-empty argument wins whatever the environment holds |
| Client.Scrape | rufus/client.py:16-20 | a URL without an `http://` or `https://` prefix is refused before any crawl. An accepted URL fails only if `urlparse` rejects it. Otherwise the documents are `process(crawl(url))`, and the client's visited set grows by the crawled URLs. The crawled pages are sound. A client at or above the page cap crawls nothing; otherwise it overshoots the cap by less than one batch. A crawl that stops below the cap leaves no discovered in-scope URL unvisited unless it was unfetchable |
| Client.HttpSchemeShape | rufus/client.py:17 | a URL is accepted exactly when it begins with the lower-case `http://` or `https://` |
| Client.HasHttpScheme | rufus/client.py:17 | the scheme check accepts exactly the URLs of at least seven characters that begin with `http`, followed by `://` or by `s://` |
| Client.SchemeCheckExamples | rufus/client.py:17-18 | `invalid-url` and `HTTP://example.com` are refused, `https://example.com` is accepted |
| Client.AcceptedUrlHost | rufus/scraper.py:62 | for an accepted URL, the crawl's base domain is the text after `//` up to the first `/`, `?` or `#`, once tabs and line breaks are deleted |

## Left out

- Fetching a page is an abstract fetcher: the HTTP request, the status check, BeautifulSoup's text extraction and `urljoin` link resolution (`rufus/scraper.py` lines 37-59). They are I/O and foreign libraries.
- Concurrency is not modelled: `asyncio.gather`, the connector limit and the client timeout (lines 66-69, 80, 92-93). A batch is handled sequentially in task order, which is the order `gather` returns results. An exception returned by `gather` counts as a failed fetch.
- The `timeout` field is carried but not modelled: it bounds wall-clock time, which the model does not have.
- `max_depth` is carried but never used, as in the code.
- The language-model call and the prompt of `generate_extraction_prompt` (`rufus/processor.py` lines 17-63) are an abstract enricher that returns a JSON value or nothing. It never raises, because `process_chunk` catches every exception.
- `load_dotenv`, logging and the creation of the OpenAI client are I/O. The environment variable is a parameter of `Client.NewClient`.
- Urls.Netloc: models only what the crawler uses. It deletes tabs, carriage returns and line feeds, splits off a scheme of letters, digits, `+`, `-` and `.`, takes the text between `//` and the next `/`, `?` or `#`, and raises for an unbalanced square bracket. It does not model `urlsplit`'s stripping of leading whitespace and C0 control characters, the NFKC check of the host, the validation of bracketed IPv6 hosts, or differences between Python versions (the deletion of tabs and line breaks is that of Python 3.9.5 and later).
- Scraper.Lower: lower-cases ASCII letters only and leaves every other character unchanged; Python's full Unicode lower-casing, which can change a string's length, is not modelled.
- Scraper.Crawl: requires `max_concurrent >= 1`. With 0 the code takes empty batches and loops forever, which a terminating model cannot express.
- Client.Scrape: requires `max_concurrent >= 1` for the same reason. The fixed constructor value is 5.
- Processor.Process: every page has a `url`. A page without one may raise `KeyError` on a path that reads `page['url']`: the metadata stamp (line 76), the warning for a dropped chunk (line 79), or the exception handler (line 82), where the error escapes `process`. A page whose every chunk is kept without a `metadata` key is processed normally. Crawled pages always carry a `url`.
- Processor.Process: `content` that is not a string is not modelled, only present or missing. Crawled pages always carry a string.
- Processor.Truthy: numbers are reals, so a NaN from `json.loads` (which Python treats as truthy) is not represented.
- Processor.ChunkDocsFromChunks is stated for a page's chunks; the link to the whole of `process` goes through `Processor.AllDocsAppend`.
- JSON objects are maps, so the order of keys in a returned dictionary is not modelled.
- The processing loop is written over any splitting function, and `Processor.Process` instantiates it with `chunk_text(content, 4000)`. The chunker's properties are proved in `Chunker`.
