/**
 * The entry point of `rufus/client.py`: a client needs a non-empty API key,
 * and `scrape` checks the URL's scheme, crawls from it and turns the pages
 * into documents.
 */
module Client {
  import opened Common
  import opened Urls
  import opened Scraper
  import opened Processor

  /** A `RufusClient`: its key and its scraper, whose `visited` set outlives a call to `scrape`. */
  datatype Client = Client(apiKey: string, scraper: WebScraper)

  /** Python truthiness of an optional string: present and non-empty. */
  predicate Given(key: Option<string>) {
    key.Some? && key.value != ""
  }

  /**
   * `RufusClient(api_key)` (lines 8-14): the argument when it is truthy,
   * otherwise the `RUFUS_API_KEY` environment variable, which `load_dotenv`
   * may have set; `ValueError` when neither gives a non-empty key.
   */
  function NewClient(apiKey: Option<string>, envKey: Option<string>): (r: Result<Client>)
    ensures r.Ok? <==> Given(apiKey) || Given(envKey)
    ensures r.Err? ==> r.error == MissingApiKey
    ensures r.Ok? ==> r.value.apiKey != "" && r.value.scraper == NewScraper()
    ensures r.Ok? && Given(apiKey) ==> r.value.apiKey == apiKey.value
    ensures r.Ok? && !Given(apiKey) ==> r.value.apiKey == envKey.value
  {
    var key := if Given(apiKey) then apiKey else envKey;
    if !Given(key) then Err(MissingApiKey)
    else Ok(Client(key.value, NewScraper()))
  }

  /**
   * `api_key or os.getenv(...)`: a missing and an empty argument are alike,
   * and a non-empty argument makes the environment irrelevant.
   */
  lemma ApiKeyPrecedence(key: string, envKey: Option<string>, envKey': Option<string>)
    ensures NewClient(None, envKey) == NewClient(Some(""), envKey)
    ensures key != "" ==> NewClient(Some(key), envKey) == NewClient(Some(key), envKey') == Ok(Client(key, NewScraper()))
  {
  }

  /**
   * `url.startswith(('http://', 'https://'))` on the URL as given: the four
   * lower-case letters `http`, then `://` or `s://`.
   */
  function HasHttpScheme(url: string): (b: bool)
    ensures b <==>
      && |url| >= 7 && url[..4] == "http"
      && (url[4..7] == "://" || (|url| >= 8 && url[4..8] == "s://"))
  {
    HttpSchemeShape(url);
    StartsWith(url, "http://") || StartsWith(url, "https://")
  }

  /** The crawled pages as `process` reads them. */
  function Inputs(pages: seq<Page>): (inputs: seq<Input>)
    ensures |inputs| == |pages|
    ensures forall i :: 0 <= i < |pages| ==> inputs[i] == Input(pages[i].url, Some(pages[i].content))
  {
    seq(|pages|, i requires 0 <= i < |pages| => Input(pages[i].url, Some(pages[i].content)))
  }

  /** What `scrape` returns, and the client afterwards. */
  datatype ScrapeOutput = ScrapeOutput(documents: seq<Json>, client: Client)

  /**
   * `scrape(url, instructions)` (lines 16-20): a URL without an `http://` or
   * `https://` prefix is refused before anything is crawled; a URL that
   * `urlparse` rejects is refused by the crawl; otherwise the documents are
   * those of the crawled pages, in crawl order. `pages` names the pages the
   * crawl returned.
   */
  method Scrape(c: Client, url: string, instructions: Option<string>, fetch: Fetcher, enrich: Enricher)
    returns (r: Result<ScrapeOutput>, ghost pages: seq<Page>)
    requires c.scraper.maxConcurrent >= 1
    ensures !HasHttpScheme(url) ==> r == Err(InvalidScheme)
    ensures HasHttpScheme(url) ==> (r.Err? <==> Netloc(url).None?)
    ensures HasHttpScheme(url) && r.Err? ==> r.error == InvalidUrl
    ensures r.Ok? ==> Sound(fetch, url, Netloc(url).value, c.scraper.visited, pages)
    ensures r.Ok? ==> r.value.documents == AllDocs(enrich, ChunkContent, instructions, Inputs(pages))
    ensures r.Ok? ==> r.value.client == c.(scraper := c.scraper.(visited := c.scraper.visited + UrlsOf(pages)))
    ensures r.Ok? && |c.scraper.visited| >= c.scraper.maxPages ==> pages == []
    ensures r.Ok? && |c.scraper.visited| < c.scraper.maxPages ==>
      |r.value.client.scraper.visited| < c.scraper.maxPages + c.scraper.maxConcurrent
    ensures r.Ok? && |r.value.client.scraper.visited| < c.scraper.maxPages ==>
      Complete(fetch, url, Netloc(url).value, r.value.client.scraper.visited, pages)
  {
    pages := [];
    if !HasHttpScheme(url) {
      return Err(InvalidScheme), pages;
    }
    var crawled := Crawl(c.scraper, fetch, url);
    if crawled.Err? {
      return Err(crawled.error), pages;
    }
    var crawledPages := crawled.value.pages;
    pages := crawledPages;
    var documents := Process(enrich, Inputs(crawledPages), instructions);
    r := Ok(ScrapeOutput(documents, c.(scraper := crawled.value.scraper)));
  }

  /** A URL starting with `http://` or `https://` begins with `http`, then `://` or `s://`. */
  lemma HttpSchemeShape(url: string)
    ensures StartsWith(url, "http://") || StartsWith(url, "https://") <==>
      && |url| >= 7 && url[..4] == "http"
      && (url[4..7] == "://" || (|url| >= 8 && url[4..8] == "s://"))
  {
    if |url| >= 7 {
      assert url[..7] == url[..4] + url[4..7];
      if |url| >= 8 {
        assert url[..8] == url[..4] + url[4..8];
      }
    }
  }

  /**
   * The scheme check is a literal, case-sensitive prefix test: a bare word
   * and an upper-case scheme are refused, a lower-case one is accepted.
   */
  lemma SchemeCheckExamples()
    ensures !HasHttpScheme("invalid-url")
    ensures !HasHttpScheme("HTTP://example.com")
    ensures HasHttpScheme("https://example.com")
  {
    HttpSchemeShape("invalid-url");
    assert "invalid-url"[..4][0] == 'i';
    HttpSchemeShape("HTTP://example.com");
    assert "HTTP://example.com"[..4][0] == 'H';
    assert "https://example.com"[..8] == "https://";
  }

  /**
   * For an accepted URL, the crawl's base domain is the text after `//` up
   * to the first `/`, `?` or `#`, once tabs and line breaks are deleted; the
   * URL is refused only when that text has an unbalanced square bracket.
   */
  lemma AcceptedUrlHost(url: string)
    requires HasHttpScheme(url)
    ensures var start := if StartsWith(url, "https://") then 8 else 7;
      StartsWith(RemoveUnsafe(url), url[..start])
    ensures var start := if StartsWith(url, "https://") then 8 else 7;
      var clean := RemoveUnsafe(url);
      var host := clean[start..AuthorityEnd(clean, start)];
      Netloc(url) == if ('[' in host) != (']' in host) then None else Some(host)
  {
    if StartsWith(url, "https://") {
      assert "https" + "://" == "https://";
      NetlocAfterScheme(url, "https");
    } else {
      assert "http" + "://" == "http://";
      NetlocAfterScheme(url, "http");
    }
  }
}
