/**
 * The crawler of `rufus/scraper.py`: the `should_crawl` URL filter and the
 * batched breadth-first loop of `crawl_async` over the `visited` set, the
 * `to_visit` frontier and the list of fetched pages. Fetching a page (HTTP,
 * HTML stripping, link resolution) is an abstract function from a URL to an
 * optional page body; each batch is handled sequentially in task order.
 */
module Scraper {
  import opened Common
  import opened Urls

  type Url = string

  /**
   * A `WebScraper` (lines 9-18). `visited` is an instance attribute, so it
   * persists from one crawl to the next on the same scraper.
   */
  datatype WebScraper = WebScraper(visited: set<Url>, maxDepth: int, maxPages: int, timeout: int, maxConcurrent: int)

  /** A freshly constructed scraper with the source's fixed limits. */
  function NewScraper(): WebScraper {
    WebScraper({}, 3, 100, 30, 5)
  }

  /* ---------------------------------------------------------------------- */
  /* should_crawl (lines 20-35)                                             */
  /* ---------------------------------------------------------------------- */

  /** The suffixes `should_crawl` refuses (line 29). */
  const SkipExtensions: seq<string> := [".pdf", ".jpg", ".png", ".gif", ".css", ".js"]

  function LowerChar(c: char): char {
    if 'A' <= c <= 'Z' then (c as int + 32) as char else c
  }

  /** `s.lower()` restricted to ASCII letters. */
  function Lower(s: string): (r: string)
    ensures |r| == |s|
  {
    seq(|s|, i requires 0 <= i < |s| => LowerChar(s[i]))
  }

  /** The whole URL, lower-cased, ends with one of the refused suffixes (line 30). */
  predicate HasSkippedExtension(url: Url) {
    exists e :: e in SkipExtensions && EndsWith(Lower(url), e)
  }

  /** The part of the filter that does not depend on `visited`: exact host match, no refused suffix. */
  predicate InScope(base: string, url: Url) {
    Netloc(url) == Some(base) && !HasSkippedExtension(url)
  }

  /**
   * `should_crawl(url, base_domain)`: a URL is crawled only if it was not
   * visited, parses, has exactly the base host (no sub-domain matching) and
   * does not end in a refused suffix. A parse failure is answered with false.
   */
  function ShouldCrawl(visited: set<Url>, url: Url, base: string): (b: bool)
    ensures b <==> url !in visited && InScope(base, url)
  {
    if url in visited then false
    else match Netloc(url)
      case None => false
      case Some(host) =>
        if host != base then false
        else if HasSkippedExtension(url) then false
        else true
  }

  /** Growing `visited` can only turn an acceptance into a refusal. */
  lemma ShouldCrawlAntitone(visited: set<Url>, more: set<Url>, url: Url, base: string)
    requires visited <= more
    ensures ShouldCrawl(more, url, base) ==> ShouldCrawl(visited, url, base)
    ensures url in more ==> !ShouldCrawl(more, url, base)
  {
  }

  /** Every refused suffix ends in a letter, so a URL whose last character is a digit passes the suffix test. */
  lemma DigitEndingNotSkipped(url: Url)
    requires |url| > 0 && '0' <= url[|url| - 1] <= '9'
    ensures !HasSkippedExtension(url)
  {
    var l := Lower(url);
    assert l[|l| - 1] == url[|url| - 1];
    forall e | e in SkipExtensions ensures !EndsWith(l, e) {
      assert |e| >= 1 && !('0' <= e[|e| - 1] <= '9');
      assert |e| <= |l| ==> l[|l| - |e|..][|e| - 1] == l[|l| - 1];
    }
  }

  /** The suffix test is on the whole URL, so a query string after `.pdf` defeats it. */
  lemma QueryDefeatsSuffixFilter()
    ensures ShouldCrawl({}, "http://a.com/doc.pdf?x=1", "a.com")
  {
    var url := "http://a.com/doc.pdf?x=1";
    assert Netloc(url) == Some("a.com") by {
      NetlocOfComposedUrl(url, "http", "a.com", "/doc.pdf?x=1");
    }
    assert !HasSkippedExtension(url) by {
      DigitEndingNotSkipped(url);
    }
  }

  /** Tabs and line breaks are deleted before the host is read, so `http://a.com\n/1` is in scope for `a.com`. */
  lemma LineBreakIgnored()
    ensures ShouldCrawl({}, "http://a.com\n/1", "a.com")
  {
    var url := "http://a.com\n/1";
    assert Netloc(url) == Some("a.com") by {
      NetlocOfComposedUrl(url, "http", "a.com", "\n/1");
    }
    assert !HasSkippedExtension(url) by {
      DigitEndingNotSkipped(url);
    }
  }

  /** The suffix test ignores case. */
  lemma UpperCaseSuffixRefused()
    ensures !ShouldCrawl({}, "http://a.com/DOC.PDF", "a.com")
  {
    var url := "http://a.com/DOC.PDF";
    var l := Lower(url);
    assert l[|l| - 4..] == ".pdf";
    assert ".pdf" in SkipExtensions;
  }

  /** A sub-domain of the base domain is out of scope. */
  lemma SubdomainRefused()
    ensures !ShouldCrawl({}, "http://www.a.com/", "a.com")
  {
    NetlocOfComposedUrl("http://www.a.com/", "http", "www.a.com", "/");
  }

  /* ---------------------------------------------------------------------- */
  /* Pages and the abstract fetcher (lines 37-59)                           */
  /* ---------------------------------------------------------------------- */

  /** What a successful fetch yields: title, visible text and resolved links. */
  datatype PageBody = PageBody(title: string, content: string, links: seq<Url>)

  /** The page dictionary `fetch_page` returns. */
  datatype Page = Page(url: Url, title: string, content: string, links: seq<Url>)

  /** HTTP GET, HTML stripping and link resolution; `None` for any failure or non-200 status. */
  type Fetcher = Url -> Option<PageBody>

  /** `fetch_page(url)`: the page is stamped with the URL that was requested. */
  function FetchPage(fetch: Fetcher, url: Url): (r: Option<Page>)
    ensures r.Some? <==> fetch(url).Some?
    ensures r.Some? ==> r.value.url == url && r.value.links == fetch(url).value.links
  {
    match fetch(url)
    case None => None
    case Some(b) => Some(Page(url, b.title, b.content, b.links))
  }

  /* ---------------------------------------------------------------------- */
  /* The crawl loop (lines 61-90)                                           */
  /* ---------------------------------------------------------------------- */

  predicate Distinct(s: seq<Url>) {
    forall i, j :: 0 <= i < j < |s| ==> s[i] != s[j]
  }

  function UrlsOf(pages: seq<Page>): set<Url> {
    set p | p in pages :: p.url
  }

  /** No two pages carry the same URL. */
  ghost predicate DistinctUrls(pages: seq<Page>) {
    forall i, j :: 0 <= i < j < |pages| ==> pages[i].url != pages[j].url
  }

  /** `u` is the start URL or a link of one of `pages`. */
  ghost predicate Discovered(start: Url, pages: seq<Page>, u: Url) {
    u == start || exists j :: 0 <= j < |pages| && u in pages[j].links
  }

  /**
   * What holds of the pages a crawl returns: distinct URLs, each page is what
   * the fetcher gave for its URL, was not visited before the crawl, passed
   * the filter, and was the start URL or a link of an earlier page.
   */
  ghost predicate Sound(fetch: Fetcher, start: Url, base: string, visited0: set<Url>, pages: seq<Page>) {
    && DistinctUrls(pages)
    && forall i :: 0 <= i < |pages| ==>
      && FetchPage(fetch, pages[i].url) == Some(pages[i])
      && pages[i].url !in visited0
      && InScope(base, pages[i].url)
      && Discovered(start, pages[..i], pages[i].url)
  }

  /**
   * Every in-scope URL discovered so far was visited or failed to fetch:
   * once the frontier is empty, nothing reachable was missed.
   */
  ghost predicate Complete(fetch: Fetcher, start: Url, base: string, visited: set<Url>, pages: seq<Page>) {
    forall l :: Discovered(start, pages, l) && InScope(base, l) ==> l in visited || FetchPage(fetch, l).None?
  }

  /** The loop state: `visited_urls`, `to_visit` and `results`. */
  datatype Frontier = Frontier(visited: set<Url>, toVisit: set<Url>, results: seq<Page>)

  /** Every discovered in-scope URL is visited, waiting, pending in the current batch, or failed. */
  ghost predicate Closed(fetch: Fetcher, start: Url, base: string, f: Frontier, pending: set<Url>) {
    forall l :: Discovered(start, f.results, l) && InScope(base, l) ==>
      l in f.visited || l in f.toVisit || l in pending || FetchPage(fetch, l).None?
  }

  /** What the crawl loop keeps true. */
  ghost predicate Invariant(fetch: Fetcher, start: Url, base: string, visited0: set<Url>, f: Frontier) {
    && Sound(fetch, start, base, visited0, f.results)
    && f.visited == visited0 + UrlsOf(f.results)
    && |f.visited| == |visited0| + |f.results|
    && (forall u :: u in f.toVisit ==> Discovered(start, f.results, u))
  }

  /** The links of a fetched page that pass `should_crawl` (lines 86-88): unvisited and in scope. */
  function Discover(visited: set<Url>, base: string, links: seq<Url>): (found: set<Url>)
    ensures forall l :: l in found <==> l in links && l !in visited && InScope(base, l)
  {
    set l | l in links && ShouldCrawl(visited, l, base)
  }

  /**
   * A fetched page (lines 84-88): its URL is marked visited and it joins the
   * results; the frontier gains exactly its links that are in scope and
   * unvisited, judged after its own URL is marked, so a page never queues
   * itself again.
   */
  function AbsorbPage(f: Frontier, base: string, p: Page): (g: Frontier)
    ensures g.visited == f.visited + {p.url} && g.results == f.results + [p]
    ensures f.toVisit <= g.toVisit
    ensures forall u :: u in g.toVisit && u !in f.toVisit ==> u in p.links && InScope(base, u) && u !in g.visited
    ensures forall l :: l in p.links && InScope(base, l) && l !in g.visited ==> l in g.toVisit
    ensures p.url in g.toVisit ==> p.url in f.toVisit
  {
    var visited := f.visited + {p.url};
    Frontier(visited, f.toVisit + Discover(visited, base, p.links), f.results + [p])
  }

  /**
   * `g` is `f` after the fetches of `urls` were handled: the old results are
   * kept, the new ones are exactly the pages fetched for `urls`, `visited`
   * gains exactly their URLs, and the frontier only grows.
   */
  ghost predicate Extends(fetch: Fetcher, f: Frontier, g: Frontier, urls: seq<Url>) {
    && |f.results| <= |g.results| && g.results[..|f.results|] == f.results
    && g.visited == f.visited + UrlsOf(g.results[|f.results|..])
    && f.toVisit <= g.toVisit
    && (forall p :: p in g.results[|f.results|..] ==> p.url in urls && FetchPage(fetch, p.url) == Some(p))
    && (forall u :: u in urls && FetchPage(fetch, u).Some? ==> FetchPage(fetch, u).value in g.results[|f.results|..])
  }

  /** The gathered fetches of one batch, handled in task order (lines 80-88); failures change nothing. */
  function Absorb(fetch: Fetcher, base: string, f: Frontier, urls: seq<Url>): (g: Frontier)
    ensures Extends(fetch, f, g, urls)
    decreases |urls|
  {
    if |urls| == 0 then
      assert UrlsOf(f.results[|f.results|..]) == {};
      f
    else
      var h := match FetchPage(fetch, urls[0])
        case None => f
        case Some(p) => AbsorbPage(f, base, p);
      var g := Absorb(fetch, base, h, urls[1..]);
      AbsorbStep(fetch, base, f, h, g, urls);
      g
  }

  /** Handling the first fetch of a batch, then the rest, handles the batch. */
  lemma AbsorbStep(fetch: Fetcher, base: string, f: Frontier, h: Frontier, g: Frontier, urls: seq<Url>)
    requires |urls| > 0
    requires h == match FetchPage(fetch, urls[0]) case None => f case Some(p) => AbsorbPage(f, base, p)
    requires Extends(fetch, h, g, urls[1..])
    ensures Extends(fetch, f, g, urls)
  {
    TailMembers(urls);
    match FetchPage(fetch, urls[0])
    case None =>
    case Some(p) => AbsorbFetched(fetch, base, f, g, urls, p);
  }

  /** Every element of a non-empty sequence but its head's value lies in its tail. */
  lemma TailMembers<T>(xs: seq<T>)
    requires |xs| > 0
    ensures forall x :: x in xs[1..] ==> x in xs
    ensures forall x :: x in xs && x != xs[0] ==> x in xs[1..]
  {
    forall x | x in xs && x != xs[0] ensures x in xs[1..] {
      var k :| 0 <= k < |xs| && xs[k] == x;
      assert xs[1..][k - 1] == x;
    }
  }

  /** `AbsorbStep` when the batch's first fetch succeeded with page `p`. */
  lemma AbsorbFetched(fetch: Fetcher, base: string, f: Frontier, g: Frontier, urls: seq<Url>, p: Page)
    requires |urls| > 0 && FetchPage(fetch, urls[0]) == Some(p)
    requires forall x :: x in urls[1..] ==> x in urls
    requires forall x :: x in urls && x != urls[0] ==> x in urls[1..]
    requires Extends(fetch, AbsorbPage(f, base, p), g, urls[1..])
    ensures Extends(fetch, f, g, urls)
  {
    var n := |f.results|;
    var added := g.results[n..];
    var rest := g.results[n + 1..];
    assert g.results[..n + 1] == f.results + [p];
    assert g.results[..n] == f.results by {
      assert g.results[..n] == g.results[..n + 1][..n];
    }
    assert added == [p] + rest;
    assert g.visited == f.visited + UrlsOf(added) by {
      assert forall q :: q in added <==> q == p || q in rest;
    }
    forall q | q in added ensures q.url in urls && FetchPage(fetch, q.url) == Some(q) {
      if q != p {
        assert q in rest;
      }
    }
    forall u | u in urls && FetchPage(fetch, u).Some? ensures FetchPage(fetch, u).value in added {
      if u != urls[0] {
        assert FetchPage(fetch, u).value in rest;
      }
    }
  }

  /** The batch URLs that pass `should_crawl` and are fetched, in batch order (lines 74-78). */
  function Survivors(visited: set<Url>, base: string, batch: seq<Url>): (urls: seq<Url>)
    ensures forall u :: u in urls <==> u in batch && ShouldCrawl(visited, u, base)
    ensures |urls| <= |batch|
    ensures Distinct(batch) ==> Distinct(urls)
  {
    if |batch| == 0 then []
    else
      var tail := Survivors(visited, base, batch[1..]);
      assert Distinct(batch) ==> batch[0] !in batch[1..];
      if ShouldCrawl(visited, batch[0], base) then [batch[0]] + tail else tail
  }

  /**
   * `list(to_visit)[:n]` and the set of the rest (lines 71-72): the
   * enumeration order of a Python set is unspecified, so the batch is any
   * `min(n, |to_visit|)` distinct members.
   */
  method TakeBatch(toVisit: set<Url>, n: int) returns (batch: seq<Url>, rest: set<Url>)
    requires n >= 1
    ensures |batch| == if |toVisit| < n then |toVisit| else n
    ensures Distinct(batch)
    ensures forall u :: u in batch ==> u in toVisit
    ensures forall u :: u in rest <==> u in toVisit && u !in batch
    ensures |rest| == |toVisit| - |batch|
  {
    batch := [];
    rest := toVisit;
    while |batch| < n && rest != {}
      invariant |batch| <= n
      invariant Distinct(batch)
      invariant forall u :: u in batch ==> u in toVisit
      invariant forall u :: u in rest <==> u in toVisit && u !in batch
      invariant |rest| == |toVisit| - |batch|
      decreases |rest|
    {
      var u :| u in rest;
      batch := batch + [u];
      rest := rest - {u};
    }
  }

  lemma UrlsOfSnoc(pages: seq<Page>, p: Page)
    ensures UrlsOf(pages + [p]) == UrlsOf(pages) + {p.url}
  {
    assert forall q :: q in pages + [p] <==> q in pages || q == p;
  }

  lemma DiscoveredGrows(start: Url, pages: seq<Page>, more: seq<Page>, u: Url)
    requires Discovered(start, pages, u)
    ensures Discovered(start, pages + more, u)
  {
    if u != start {
      var j :| 0 <= j < |pages| && u in pages[j].links;
      assert (pages + more)[j] == pages[j];
    }
  }

  /** Appending a fresh, fetched, in-scope, discovered page keeps the results sound. */
  lemma SoundSnoc(fetch: Fetcher, start: Url, base: string, visited0: set<Url>, rs: seq<Page>, p: Page)
    requires Sound(fetch, start, base, visited0, rs)
    requires p.url !in visited0 + UrlsOf(rs)
    requires InScope(base, p.url) && Discovered(start, rs, p.url)
    requires FetchPage(fetch, p.url) == Some(p)
    ensures Sound(fetch, start, base, visited0, rs + [p])
  {
    var g := rs + [p];
    forall i, j | 0 <= i < j < |g| ensures g[i].url != g[j].url {
      if j == |rs| {
        assert g[i] == rs[i];
        assert rs[i] in rs;
      } else {
        assert g[i] == rs[i] && g[j] == rs[j];
      }
    }
    forall i | 0 <= i < |g|
      ensures FetchPage(fetch, g[i].url) == Some(g[i])
      ensures g[i].url !in visited0
      ensures InScope(base, g[i].url)
      ensures Discovered(start, g[..i], g[i].url)
    {
      if i < |rs| {
        assert g[i] == rs[i];
        assert g[..i] == rs[..i];
      } else {
        assert g[..i] == rs;
      }
    }
  }

  /** After a page is absorbed, every waiting URL is still a discovered one. */
  lemma FrontierDiscovered(start: Url, base: string, f: Frontier, p: Page)
    requires forall u :: u in f.toVisit ==> Discovered(start, f.results, u)
    ensures forall u :: u in AbsorbPage(f, base, p).toVisit ==> Discovered(start, AbsorbPage(f, base, p).results, u)
  {
    var g := AbsorbPage(f, base, p);
    forall u | u in g.toVisit ensures Discovered(start, g.results, u) {
      if u in f.toVisit {
        DiscoveredGrows(start, f.results, [p], u);
      } else {
        assert u in p.links;
        assert g.results[|f.results|] == p;
      }
    }
  }

  /** After a page is absorbed, the page's own URL is no longer pending and its accepted links are waiting. */
  lemma ClosedAfterPage(fetch: Fetcher, start: Url, base: string, f: Frontier, p: Page, pending: set<Url>)
    requires Closed(fetch, start, base, f, pending + {p.url})
    ensures Closed(fetch, start, base, AbsorbPage(f, base, p), pending)
  {
    var g := AbsorbPage(f, base, p);
    var rs := f.results;
    forall l | Discovered(start, g.results, l) && InScope(base, l)
      ensures l in g.visited || l in g.toVisit || l in pending || FetchPage(fetch, l).None?
    {
      if l != start {
        var j :| 0 <= j < |g.results| && l in g.results[j].links;
        if j < |rs| {
          assert g.results[j] == rs[j];
          assert Discovered(start, rs, l);
        } else {
          assert g.results[j] == p;
          assert l in p.links;
        }
      }
    }
  }

  /** Marking a fresh page's URL visited keeps `visited` equal to the old set plus the result URLs. */
  lemma VisitedSnoc(visited0: set<Url>, f: Frontier, p: Page)
    requires f.visited == visited0 + UrlsOf(f.results)
    requires |f.visited| == |visited0| + |f.results|
    requires p.url !in f.visited
    ensures f.visited + {p.url} == visited0 + UrlsOf(f.results + [p])
    ensures |f.visited + {p.url}| == |visited0| + |f.results + [p]|
  {
    UrlsOfSnoc(f.results, p);
  }

  /** Absorbing one fetched page keeps the loop invariant. */
  lemma AbsorbPageKeeps(fetch: Fetcher, start: Url, base: string, visited0: set<Url>, f: Frontier, p: Page)
    requires Invariant(fetch, start, base, visited0, f)
    requires p.url !in f.visited && InScope(base, p.url) && Discovered(start, f.results, p.url)
    requires FetchPage(fetch, p.url) == Some(p)
    ensures Invariant(fetch, start, base, visited0, AbsorbPage(f, base, p))
  {
    var g := AbsorbPage(f, base, p);
    assert g.results == f.results + [p] && g.visited == f.visited + {p.url};
    SoundSnoc(fetch, start, base, visited0, f.results, p);
    VisitedSnoc(visited0, f, p);
    FrontierDiscovered(start, base, f, p);
  }

  /** A URL whose fetch failed need not stay pending. */
  lemma ClosedDropFailed(fetch: Fetcher, start: Url, base: string, f: Frontier, pending: set<Url>, u: Url)
    requires Closed(fetch, start, base, f, pending + {u})
    requires FetchPage(fetch, u).None?
    ensures Closed(fetch, start, base, f, pending)
  {
  }

  /** Absorbing a batch's surviving URLs, in order, settles every one of them. */
  lemma {:induction false} AbsorbCloses(fetch: Fetcher, start: Url, base: string, f: Frontier, urls: seq<Url>, pending: set<Url>)
    requires Closed(fetch, start, base, f, pending + set u | u in urls)
    ensures Closed(fetch, start, base, Absorb(fetch, base, f, urls), pending)
    decreases |urls|
  {
    if |urls| > 0 {
      var u := urls[0];
      var tail := urls[1..];
      var rest := pending + set v | v in tail;
      assert pending + (set v | v in urls) == rest + {u};
      match FetchPage(fetch, u)
      case None =>
        ClosedDropFailed(fetch, start, base, f, rest, u);
        AbsorbCloses(fetch, start, base, f, tail, pending);
      case Some(p) =>
        ClosedAfterPage(fetch, start, base, f, p, rest);
        AbsorbCloses(fetch, start, base, AbsorbPage(f, base, p), tail, pending);
    }
  }

  /** The rest of a list without repeats has no repeats and does not contain the head. */
  lemma DistinctTail(urls: seq<Url>)
    requires |urls| > 0 && Distinct(urls)
    ensures Distinct(urls[1..])
    ensures forall v :: v in urls[1..] ==> v in urls && v != urls[0]
  {
    var tail := urls[1..];
    forall v | v in tail ensures v in urls && v != urls[0] {
      var i :| 0 <= i < |tail| && tail[i] == v;
      assert urls[i + 1] == v;
    }
    forall i, j | 0 <= i < j < |tail| ensures tail[i] != tail[j] {
      assert tail[i] == urls[i + 1] && tail[j] == urls[j + 1];
    }
  }

  /** Absorbing a batch's surviving URLs, in order, keeps the loop invariant. */
  lemma {:induction false} AbsorbKeeps(fetch: Fetcher, start: Url, base: string, visited0: set<Url>, f: Frontier, urls: seq<Url>)
    requires Invariant(fetch, start, base, visited0, f)
    requires Distinct(urls)
    requires forall u :: u in urls ==> u !in f.visited && InScope(base, u) && Discovered(start, f.results, u)
    ensures Invariant(fetch, start, base, visited0, Absorb(fetch, base, f, urls))
    ensures f.toVisit <= Absorb(fetch, base, f, urls).toVisit
    ensures |f.results| <= |Absorb(fetch, base, f, urls).results| <= |f.results| + |urls|
    ensures |Absorb(fetch, base, f, urls).results| == |f.results| ==> Absorb(fetch, base, f, urls) == f
    decreases |urls|
  {
    if |urls| > 0 {
      var u := urls[0];
      var tail := urls[1..];
      DistinctTail(urls);
      match FetchPage(fetch, u)
      case None =>
        AbsorbKeeps(fetch, start, base, visited0, f, tail);
      case Some(p) =>
        var g := AbsorbPage(f, base, p);
        AbsorbPageKeeps(fetch, start, base, visited0, f, p);
        forall v | v in tail ensures v !in g.visited && InScope(base, v) && Discovered(start, g.results, v) {
          DiscoveredGrows(start, f.results, [p], v);
        }
        AbsorbKeeps(fetch, start, base, visited0, g, tail);
    }
  }

  /** One iteration of the crawl loop (lines 71-88) keeps the invariant and makes progress. */
  lemma StepKeeps(fetch: Fetcher, start: Url, base: string, visited0: set<Url>, f: Frontier, batch: seq<Url>, rest: set<Url>)
    requires Invariant(fetch, start, base, visited0, f)
    requires Closed(fetch, start, base, f, {})
    requires Distinct(batch)
    requires forall u :: u in batch ==> u in f.toVisit
    requires forall u :: u in rest <==> u in f.toVisit && u !in batch
    ensures var g := Absorb(fetch, base, Frontier(f.visited, rest, f.results), Survivors(f.visited, base, batch));
      && Invariant(fetch, start, base, visited0, g)
      && Closed(fetch, start, base, g, {})
      && |f.results| <= |g.results| <= |f.results| + |batch|
      && (|g.results| == |f.results| ==> g == Frontier(f.visited, rest, f.results))
  {
    var h := Frontier(f.visited, rest, f.results);
    var survivors := Survivors(f.visited, base, batch);
    assert Invariant(fetch, start, base, visited0, h);
    assert Closed(fetch, start, base, h, {} + set u | u in survivors) by {
      forall l | Discovered(start, h.results, l) && InScope(base, l)
        ensures l in h.visited || l in h.toVisit || l in (set u | u in survivors) || FetchPage(fetch, l).None?
      {
        if l in f.toVisit && l !in rest {
          assert l in batch;
        }
      }
    }
    AbsorbKeeps(fetch, start, base, visited0, h, survivors);
    AbsorbCloses(fetch, start, base, h, survivors, {});
  }

  /**
   * A crawl's first page is its start URL: no page is discovered before it.
   * So the crawl yields nothing when the start URL is filtered out or was
   * already visited.
   */
  lemma StartPageFirst(fetch: Fetcher, start: Url, base: string, visited0: set<Url>, pages: seq<Page>)
    requires Sound(fetch, start, base, visited0, pages)
    ensures |pages| > 0 ==> pages[0].url == start && start !in visited0 && InScope(base, start)
    ensures start in visited0 || !InScope(base, start) ==> pages == []
  {
    if |pages| > 0 {
      assert Discovered(start, pages[..0], pages[0].url);
    }
  }

  /**
   * `visited` lives on the scraper, so crawling again from a start URL that
   * an earlier crawl on the same scraper fetched yields no pages.
   */
  lemma RecrawlYieldsNothing(fetch: Fetcher, fetch': Fetcher, start: Url, base: string, visited0: set<Url>,
                             pages: seq<Page>, pages': seq<Page>)
    requires Sound(fetch, start, base, visited0, pages) && |pages| > 0
    requires Sound(fetch', start, base, visited0 + UrlsOf(pages), pages')
    ensures pages' == []
  {
    StartPageFirst(fetch, start, base, visited0, pages);
    assert pages[0] in pages;
    StartPageFirst(fetch', start, base, visited0 + UrlsOf(pages), pages');
  }

  /**
   * Completeness in the other direction from `StartPageFirst`: a crawl that
   * stopped below the cap fetched its start URL whenever it could, that is
   * when it was unvisited, in scope and fetchable.
   */
  lemma StartPageFetched(fetch: Fetcher, start: Url, base: string, visited0: set<Url>, pages: seq<Page>)
    requires Sound(fetch, start, base, visited0, pages)
    requires Complete(fetch, start, base, visited0 + UrlsOf(pages), pages)
    requires start !in visited0 && InScope(base, start) && FetchPage(fetch, start).Some?
    ensures |pages| > 0 && pages[0] == FetchPage(fetch, start).value
  {
    assert Discovered(start, pages, start);
    assert start in UrlsOf(pages);
    StartPageFirst(fetch, start, base, visited0, pages);
  }

  /**
   * One round of the crawl loop (lines 70-88): up to `n` queued URLs are
   * taken, those still passing `should_crawl` are fetched, and the fetched
   * pages are absorbed. The crawl invariants are kept, at most `n` pages are
   * added, and a round that fetches nothing leaves `visited` alone and
   * shortens the queue.
   */
  method CrawlRound(fetch: Fetcher, start: Url, base: string, visited0: set<Url>, f: Frontier, n: int)
    returns (g: Frontier)
    requires n >= 1 && f.toVisit != {}
    requires Invariant(fetch, start, base, visited0, f) && Closed(fetch, start, base, f, {})
    ensures Invariant(fetch, start, base, visited0, g) && Closed(fetch, start, base, g, {})
    ensures |f.results| <= |g.results| <= |f.results| + n
    ensures |g.results| == |f.results| ==> g.visited == f.visited && |g.toVisit| < |f.toVisit|
  {
    var batch, rest := TakeBatch(f.toVisit, n);
    var survivors := Survivors(f.visited, base, batch);
    StepKeeps(fetch, start, base, visited0, f, batch, rest);
    g := Absorb(fetch, base, Frontier(f.visited, rest, f.results), survivors);
  }

  /** What `crawl` returns, and the scraper afterwards (its `visited` has grown). */
  datatype CrawlOutput = CrawlOutput(pages: seq<Page>, scraper: WebScraper)

  /**
   * `crawl_async(start_url)`. The start URL's host is the crawl's base
   * domain; a start URL `urlparse` rejects raises before anything is
   * fetched. The returned pages are sound; `visited` grows by exactly their
   * URLs; the page cap is only checked between batches, so `visited` can
   * overshoot it by less than one batch; and when the loop stops below the
   * cap, every discovered in-scope URL was visited or failed to fetch.
   */
  method Crawl(s: WebScraper, fetch: Fetcher, startUrl: Url) returns (r: Result<CrawlOutput>)
    requires s.maxConcurrent >= 1
    ensures r.Err? <==> Netloc(startUrl).None?
    ensures r.Err? ==> r.error == InvalidUrl
    ensures r.Ok? ==> r.value.scraper == s.(visited := s.visited + UrlsOf(r.value.pages))
    ensures r.Ok? ==> Sound(fetch, startUrl, Netloc(startUrl).value, s.visited, r.value.pages)
    ensures r.Ok? && |s.visited| >= s.maxPages ==> r.value.pages == []
    ensures r.Ok? && |s.visited| < s.maxPages ==> |r.value.scraper.visited| < s.maxPages + s.maxConcurrent
    ensures r.Ok? && |r.value.scraper.visited| < s.maxPages ==>
      Complete(fetch, startUrl, Netloc(startUrl).value, r.value.scraper.visited, r.value.pages)
  {
    var host := Netloc(startUrl);
    if host.None? {
      return Err(InvalidUrl);
    }
    var base := host.value;
    var f := Frontier(s.visited, {startUrl}, []);
    assert UrlsOf([]) == {};
    while f.toVisit != {} && |f.visited| < s.maxPages
      invariant Invariant(fetch, startUrl, base, s.visited, f)
      invariant Closed(fetch, startUrl, base, f, {})
      invariant f.results == [] || |f.visited| < s.maxPages + s.maxConcurrent
      invariant |s.visited| >= s.maxPages ==> f.results == []
      decreases if |f.visited| < s.maxPages then s.maxPages - |f.visited| else 0, |f.toVisit|
    {
      ghost var before := f;
      f := CrawlRound(fetch, startUrl, base, s.visited, f, s.maxConcurrent);
      if |f.results| > |before.results| {
        assert |f.visited| > |before.visited|;
      }
    }
    assert f.visited == s.visited + UrlsOf(f.results);
    assert |f.visited| < s.maxPages ==> f.toVisit == {};
    return Ok(CrawlOutput(f.results, s.(visited := f.visited)));
  }
}
