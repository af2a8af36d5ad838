/**
 * The aggregation loop of `rufus/processor.py`: every page is chunked, every
 * chunk is handed to the enricher (`process_chunk`: the model call followed
 * by `json.loads`), truthy results are kept, a `metadata` object is stamped
 * with the page's URL, and an exception ends the current page only.
 */
module Processor {
  import opened Common
  import opened Chunker

  /** A value `json.loads` can return. */
  datatype Json =
    | Null
    | Bool(b: bool)
    | Number(n: real)
    | Str(s: string)
    | Array(items: seq<Json>)
    | Object(fields: map<string, Json>)

  /**
   * Python truthiness of a decoded value: `if processed:` (line 74). The
   * falsy values are exactly `None`, `False`, zero, and the empty string,
   * list and dictionary.
   */
  function Truthy(v: Json): (b: bool)
    ensures !b <==> v == Null || v == Bool(false) || v == Number(0.0) || v == Str("")
                    || v == Array([]) || v == Object(map[])
  {
    match v
    case Null => false
    case Bool(b) => b
    case Number(n) => n != 0.0
    case Str(s) => |s| > 0
    case Array(items) => |items| > 0
    case Object(fields) => |fields| > 0
  }

  /**
   * `process_chunk(chunk, instructions)` (lines 39-63): the chat completion
   * and the JSON decoding, with `None` for a decode failure or any other
   * exception. The model and its prompt are not part of this model.
   */
  type Enricher = (string, Option<string>) -> Option<Json>

  const MetadataKey: string := "metadata"
  const SourceUrlKey: string := "source_url"

  /** `t` occurs in `s` starting at index `i`. */
  predicate OccursAt(s: string, t: string, i: int) {
    0 <= i <= |s| - |t| && s[i..i + |t|] == t
  }

  /** Python's `t in s` on two strings. */
  predicate HasSubstring(s: string, t: string) {
    exists i | 0 <= i <= |s| - |t| :: OccursAt(s, t, i)
  }

  /** Python's `key in v` on a decoded value, with `None` where it raises `TypeError`. */
  function Contains(v: Json, key: string): Option<bool> {
    match v
    case Str(s) => Some(HasSubstring(s, key))
    case Array(items) => Some(Str(key) in items)
    case Object(fields) => Some(key in fields)
    case _ => None
  }

  /**
   * Python's `v[key]` with a string key, with `None` where it raises: only a
   * dictionary holding `key` can be read this way.
   */
  function Item(v: Json, key: string): Option<Json> {
    if v.Object? && key in v.fields then Some(v.fields[key]) else None
  }

  /**
   * Where the loop body raises `TypeError` on a truthy result: `'metadata' in`
   * a number or a boolean; indexing a string or a list by `'metadata'` once
   * the membership test succeeded; item assignment on a `metadata` value that
   * is not a dictionary (lines 75-76). It raises exactly when the membership
   * test raises, or succeeds and then the read or the item assignment (which
   * only a dictionary accepts) fails.
   */
  function StampRaises(v: Json): (b: bool)
    ensures b <==> match Contains(v, MetadataKey)
                   case None => true
                   case Some(found) =>
                     found && (Item(v, MetadataKey).None? || !Item(v, MetadataKey).value.Object?)
  {
    match v
    case Null => true
    case Bool(_) => true
    case Number(_) => true
    case Str(s) => HasSubstring(s, MetadataKey)
    case Array(items) => Str(MetadataKey) in items
    case Object(fields) => MetadataKey in fields && !fields[MetadataKey].Object?
  }

  /** `processed['metadata']['source_url'] = url` on a dictionary result. */
  function Stamp(fields: map<string, Json>, url: string): map<string, Json>
    requires MetadataKey in fields && fields[MetadataKey].Object?
  {
    fields[MetadataKey := Object(fields[MetadataKey].fields[SourceUrlKey := Str(url)])]
  }

  /** The `source_url` a result carries in its `metadata` object, if any. */
  function SourceUrl(v: Json): Option<Json> {
    if v.Object? && MetadataKey in v.fields && v.fields[MetadataKey].Object?
       && SourceUrlKey in v.fields[MetadataKey].fields
    then Some(v.fields[MetadataKey].fields[SourceUrlKey])
    else None
  }

  /**
   * `doc` is `v` with `source_url` set inside its `metadata` object and
   * nothing else changed.
   */
  ghost predicate StampedFrom(doc: Json, v: Json, url: string) {
    && v.Object? && doc.Object?
    && MetadataKey in v.fields && v.fields[MetadataKey].Object?
    && doc.fields.Keys == v.fields.Keys
    && (forall k :: k in v.fields && k != MetadataKey ==> doc.fields[k] == v.fields[k])
    && doc.fields[MetadataKey].Object?
    && var m := v.fields[MetadataKey].fields;
       var m' := doc.fields[MetadataKey].fields;
       && m'.Keys == m.Keys + {SourceUrlKey}
       && m'[SourceUrlKey] == Str(url)
       && forall k :: k in m && k != SourceUrlKey ==> m'[k] == m[k]
  }

  /** What the loop body does with one enricher result. */
  datatype Outcome =
    | Keep(doc: Json)  // appended to `processed_documents`
    | Drop             // `None` or falsy: a warning is logged
    | Abort            // an exception: the rest of the page is skipped

  /**
   * Lines 73-79 for one chunk. A falsy or missing result is dropped; a
   * result whose stamping raises ends the page; every other truthy result is
   * kept, unchanged unless it has a `metadata` dictionary, which receives
   * the page URL as `source_url`.
   */
  function Accept(result: Option<Json>, url: string): (o: Outcome)
    ensures o.Drop? <==> result.None? || !Truthy(result.value)
    ensures o.Abort? <==> result.Some? && Truthy(result.value) && StampRaises(result.value)
    ensures o.Keep? ==> Truthy(o.doc)
    ensures o.Keep? ==> o.doc == result.value || StampedFrom(o.doc, result.value, url)
    ensures o.Keep? && o.doc.Object? && MetadataKey in o.doc.fields ==> SourceUrl(o.doc) == Some(Str(url))
    ensures o.Keep? && (!result.value.Object? || MetadataKey !in result.value.fields) ==> o.doc == result.value
  {
    match result
    case None => Drop
    case Some(v) =>
      if !Truthy(v) then Drop
      else match v
        case Object(fields) =>
          if MetadataKey !in fields then Keep(v)
          else if fields[MetadataKey].Object? then Keep(Object(Stamp(fields, url)))
          else Abort
        case Str(s) => if HasSubstring(s, MetadataKey) then Abort else Keep(v)
        case Array(items) => if Str(MetadataKey) in items then Abort else Keep(v)
        case _ => Abort
  }

  /** A page as `process` reads it: its `url`, and its `content` when present. */
  datatype Input = Input(url: string, content: Option<string>)

  /** How page content is cut into chunks. */
  type Splitter = string -> seq<string>

  /** `chunk_text(content, max_length=4000)`, the splitter `process` uses (line 70). */
  function ChunkContent(text: string): (chunks: seq<string>)
    ensures |chunks| >= 1
  {
    ChunkText(text, MaxChunkLength)
  }

  /** The chunks of a page; none when `content` is missing, where `chunk_text` raises. */
  function PageChunks(split: Splitter, page: Input): seq<string> {
    match page.content
    case None => []
    case Some(text) => split(text)
  }

  /** The outcome of every chunk, in chunk order. */
  function Outcomes(enrich: Enricher, instructions: Option<string>, url: string, chunks: seq<string>): (os: seq<Outcome>)
    ensures |os| == |chunks|
    ensures forall k :: 0 <= k < |chunks| ==> os[k] == Accept(enrich(chunks[k], instructions), url)
  {
    seq(|chunks|, k requires 0 <= k < |chunks| => Accept(enrich(chunks[k], instructions), url))
  }

  /** The outcomes a page's loop reaches: everything before the first `Abort`. */
  function UntilAbort(os: seq<Outcome>): (r: seq<Outcome>)
    ensures |r| <= |os| && r == os[..|r|]
    ensures forall k :: 0 <= k < |r| ==> !r[k].Abort?
    ensures |r| < |os| ==> os[|r|].Abort?
  {
    if |os| == 0 || os[0].Abort? then []
    else [os[0]] + UntilAbort(os[1..])
  }

  /** The documents of the `Keep` outcomes, in order. */
  function Kept(os: seq<Outcome>): (docs: seq<Json>)
    ensures |docs| <= |os|
  {
    if |os| == 0 then []
    else Kept(os[..|os| - 1]) + (if os[|os| - 1].Keep? then [os[|os| - 1].doc] else [])
  }

  /** The documents a run of chunks contributes: the kept results before the first exception. */
  function ChunkDocs(enrich: Enricher, instructions: Option<string>, url: string, chunks: seq<string>): seq<Json> {
    Kept(UntilAbort(Outcomes(enrich, instructions, url, chunks)))
  }

  /** The documents one page contributes. */
  function PageDocs(enrich: Enricher, split: Splitter, instructions: Option<string>, page: Input): seq<Json> {
    ChunkDocs(enrich, instructions, page.url, PageChunks(split, page))
  }

  /** The documents `docsOf` gives each page, page after page. */
  function Collect(docsOf: Input -> seq<Json>, pages: seq<Input>): seq<Json> {
    if |pages| == 0 then []
    else Collect(docsOf, pages[..|pages| - 1]) + docsOf(pages[|pages| - 1])
  }

  /** The documents of all pages, page after page. */
  function AllDocs(enrich: Enricher, split: Splitter, instructions: Option<string>, pages: seq<Input>): seq<Json> {
    Collect(page => PageDocs(enrich, split, instructions, page), pages)
  }

  /** The number of chunks across all pages. */
  function TotalChunks(split: Splitter, pages: seq<Input>): nat {
    if |pages| == 0 then 0
    else TotalChunks(split, pages[..|pages| - 1]) + |PageChunks(split, pages[|pages| - 1])|
  }

  /** A prefix free of `Abort` followed by an `Abort` is exactly what a page's loop reaches. */
  lemma UntilAbortAt(os: seq<Outcome>, i: nat)
    requires i <= |os|
    requires forall k :: 0 <= k < i ==> !os[k].Abort?
    requires i == |os| || os[i].Abort?
    ensures UntilAbort(os) == os[..i]
  {
  }

  /** One more outcome adds at most its own document. */
  lemma KeptSnoc(os: seq<Outcome>, o: Outcome)
    ensures Kept(os + [o]) == Kept(os) + (if o.Keep? then [o.doc] else [])
  {
    assert (os + [o])[..|os|] == os;
  }

  /** The loop over one page's chunks (lines 72-79); an `Abort` leaves it early. */
  method ProcessChunks(enrich: Enricher, instructions: Option<string>, url: string, chunks: seq<string>) returns (docs: seq<Json>)
    ensures docs == ChunkDocs(enrich, instructions, url, chunks)
  {
    ghost var os := Outcomes(enrich, instructions, url, chunks);
    docs := [];
    var i := 0;
    while i < |chunks|
      invariant 0 <= i <= |chunks|
      invariant forall k :: 0 <= k < i ==> !os[k].Abort?
      invariant docs == Kept(os[..i])
    {
      var o := Accept(enrich(chunks[i], instructions), url);
      if o.Abort? {
        UntilAbortAt(os, i);
        return;
      }
      KeptSnoc(os[..i], o);
      assert os[..i + 1] == os[..i] + [o];
      if o.Keep? {
        docs := docs + [o.doc];
      }
      i := i + 1;
    }
    UntilAbortAt(os, i);
    assert os[..i] == os;
  }

  /** The body of the page loop (lines 69-83): chunk the content, then enrich the chunks. */
  method ProcessPage(enrich: Enricher, split: Splitter, instructions: Option<string>, page: Input) returns (docs: seq<Json>)
    ensures docs == PageDocs(enrich, split, instructions, page)
  {
    var chunks := PageChunks(split, page);
    docs := ProcessChunks(enrich, instructions, page.url, chunks);
  }

  /** The page loop (lines 66-85) with the content cut by `split`: the pages' documents in page order. */
  method ProcessPages(enrich: Enricher, split: Splitter, pages: seq<Input>, instructions: Option<string>) returns (docs: seq<Json>)
    ensures docs == AllDocs(enrich, split, instructions, pages)
  {
    docs := [];
    var i := 0;
    while i < |pages|
      invariant 0 <= i <= |pages|
      invariant docs == AllDocs(enrich, split, instructions, pages[..i])
    {
      var pageDocs := ProcessPage(enrich, split, instructions, pages[i]);
      AllDocsSnoc(enrich, split, instructions, pages, i);
      docs := docs + pageDocs;
      i := i + 1;
    }
    assert pages[..i] == pages;
  }

  /** `process(pages, instructions)` (lines 65-85), chunking with `max_length=4000`. */
  method Process(enrich: Enricher, pages: seq<Input>, instructions: Option<string>) returns (docs: seq<Json>)
    ensures docs == AllDocs(enrich, ChunkContent, instructions, pages)
  {
    docs := ProcessPages(enrich, ChunkContent, pages, instructions);
  }

  /** One more page adds exactly its own documents. */
  lemma AllDocsSnoc(enrich: Enricher, split: Splitter, instructions: Option<string>, pages: seq<Input>, i: nat)
    requires i < |pages|
    ensures AllDocs(enrich, split, instructions, pages[..i + 1])
      == AllDocs(enrich, split, instructions, pages[..i]) + PageDocs(enrich, split, instructions, pages[i])
  {
    CollectSnoc(page => PageDocs(enrich, split, instructions, page), pages, i);
  }

  /** One more page adds exactly its own documents. */
  lemma CollectSnoc(docsOf: Input -> seq<Json>, pages: seq<Input>, i: nat)
    requires i < |pages|
    ensures Collect(docsOf, pages[..i + 1]) == Collect(docsOf, pages[..i]) + docsOf(pages[i])
  {
    assert pages[..i + 1][..i] == pages[..i];
  }

  /** Collecting over two runs of pages collects over each, one after the other. */
  lemma {:induction false} CollectAppend(docsOf: Input -> seq<Json>, a: seq<Input>, b: seq<Input>)
    ensures Collect(docsOf, a + b) == Collect(docsOf, a) + Collect(docsOf, b)
    decreases |b|
  {
    if |b| == 0 {
      assert a + b == a;
    } else {
      var b' := b[..|b| - 1];
      assert (a + b)[..|a + b| - 1] == a + b';
      assert (a + b)[|a + b| - 1] == b[|b| - 1];
      CollectAppend(docsOf, a, b');
    }
  }

  /**
   * Pages are independent: the documents of two runs of pages are the two
   * runs' documents, one after the other. A page that raises costs only its
   * own remaining chunks.
   */
  lemma AllDocsAppend(enrich: Enricher, split: Splitter, instructions: Option<string>, a: seq<Input>, b: seq<Input>)
    ensures AllDocs(enrich, split, instructions, a + b)
      == AllDocs(enrich, split, instructions, a) + AllDocs(enrich, split, instructions, b)
  {
    CollectAppend(page => PageDocs(enrich, split, instructions, page), a, b);
  }

  /**
   * A page whose content cannot be chunked (it has no `content`) contributes
   * nothing, and the pages around it keep all their documents.
   */
  lemma MissingContentSkipped(enrich: Enricher, split: Splitter, instructions: Option<string>, pages: seq<Input>, i: nat)
    requires i < |pages| && pages[i].content.None?
    ensures AllDocs(enrich, split, instructions, pages)
      == AllDocs(enrich, split, instructions, pages[..i]) + AllDocs(enrich, split, instructions, pages[i + 1..])
  {
    var docsOf := page => PageDocs(enrich, split, instructions, page);
    assert Outcomes(enrich, instructions, pages[i].url, PageChunks(split, pages[i])) == [];
    assert docsOf(pages[i]) == [];
    CollectSkip(docsOf, pages, i);
  }

  /** A page with no documents leaves the collection of the others unchanged. */
  lemma CollectSkip(docsOf: Input -> seq<Json>, pages: seq<Input>, i: nat)
    requires i < |pages| && docsOf(pages[i]) == []
    ensures Collect(docsOf, pages) == Collect(docsOf, pages[..i]) + Collect(docsOf, pages[i + 1..])
  {
    var before, after := pages[..i], pages[i + 1..];
    assert pages == before + ([pages[i]] + after);
    CollectCons(docsOf, pages[i], after);
    assert Collect(docsOf, [pages[i]] + after) == Collect(docsOf, after);
    CollectAppend(docsOf, before, [pages[i]] + after);
  }

  /** The first page's documents come first. */
  lemma CollectCons(docsOf: Input -> seq<Json>, p: Input, rest: seq<Input>)
    ensures Collect(docsOf, [p] + rest) == docsOf(p) + Collect(docsOf, rest)
  {
    CollectAppend(docsOf, [p], rest);
    assert [p][..0] == [];
  }

  /** There are never more documents than chunks. */
  lemma {:induction false} AllDocsBound(enrich: Enricher, split: Splitter, instructions: Option<string>, pages: seq<Input>)
    ensures |AllDocs(enrich, split, instructions, pages)| <= TotalChunks(split, pages)
    decreases |pages|
  {
    if |pages| > 0 {
      var init := pages[..|pages| - 1];
      AllDocsBound(enrich, split, instructions, init);
    }
  }

  /** Every document is the kept outcome of some chunk of its page. */
  lemma {:induction false} KeptFromOutcome(os: seq<Outcome>, i: nat)
    requires i < |Kept(os)|
    ensures exists k :: 0 <= k < |os| && os[k] == Keep(Kept(os)[i])
    decreases |os|
  {
    var init := os[..|os| - 1];
    if i < |Kept(init)| {
      KeptFromOutcome(init, i);
      var k :| 0 <= k < |init| && init[k] == Keep(Kept(init)[i]);
      assert os[k] == init[k];
    } else {
      assert os[|os| - 1] == Keep(Kept(os)[i]);
    }
  }

  /**
   * The documents of a run of chunks come from those chunks: each is the
   * accepted enricher result of one chunk, so it is truthy and, when it has
   * `metadata`, carries the page's URL as `source_url`.
   */
  lemma ChunkDocsFromChunks(enrich: Enricher, instructions: Option<string>, url: string, chunks: seq<string>, i: nat)
    requires i < |ChunkDocs(enrich, instructions, url, chunks)|
    ensures exists k :: (0 <= k < |chunks|
      && Accept(enrich(chunks[k], instructions), url) == Keep(ChunkDocs(enrich, instructions, url, chunks)[i]))
    ensures Truthy(ChunkDocs(enrich, instructions, url, chunks)[i])
  {
    var os := Outcomes(enrich, instructions, url, chunks);
    var r := UntilAbort(os);
    KeptFromOutcome(r, i);
    var k :| 0 <= k < |r| && r[k] == Keep(Kept(r)[i]);
    assert os[k] == r[k];
  }

  /** When no chunk raises, the page's loop reaches every chunk. */
  lemma NoAbortReachesAll(os: seq<Outcome>)
    requires forall k :: 0 <= k < |os| ==> !os[k].Abort?
    ensures UntilAbort(os) == os
  {
    UntilAbortAt(os, |os|);
    assert os[..|os|] == os;
  }

  /** One document per `Keep` outcome: every truthy result that does not raise is kept. */
  lemma {:induction false} KeptCount(os: seq<Outcome>)
    ensures |Kept(os)| == |set k | 0 <= k < |os| && os[k].Keep?|
    decreases |os|
  {
    if |os| > 0 {
      var init := os[..|os| - 1];
      KeptCount(init);
      var s := set k | 0 <= k < |os| && os[k].Keep?;
      var s' := set k | 0 <= k < |init| && init[k].Keep?;
      assert forall k :: 0 <= k < |init| ==> init[k] == os[k];
      if os[|os| - 1].Keep? {
        assert s == s' + {|os| - 1};
      } else {
        assert s == s';
      }
    }
  }
}
