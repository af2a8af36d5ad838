/**
 * The sentence chunker of `rufus/utils.py`: the text is cut into sentences
 * wherever a run of whitespace follows `.`, `!` or `?`, and the sentences are
 * then packed greedily into chunks whose summed sentence length stays within
 * `maxLength` (a sentence that alone exceeds it forms a chunk of its own).
 */
module Chunker {
  import opened Common

  /* ---------------------------------------------------------------------- */
  /* Splitting: `re.split(r'(?<=[.!?])\s+', text)`                          */
  /* ---------------------------------------------------------------------- */

  /** The characters the look-behind `[.!?]` accepts. */
  predicate IsTerminator(c: char) {
    c == '.' || c == '!' || c == '?'
  }

  /** The characters `\s` matches in a Python `str` pattern (those for which `str.isspace` holds). */
  predicate IsSpace(c: char) {
    || c == ' '
    || '\t' <= c <= '\r'
    || '\U{1C}' <= c <= '\U{1F}'
    || c == '\U{85}'
    || c == '\U{A0}'
    || c == '\U{1680}'
    || '\U{2000}' <= c <= '\U{200A}'
    || c == '\U{2028}'
    || c == '\U{2029}'
    || c == '\U{202F}'
    || c == '\U{205F}'
    || c == '\U{3000}'
  }

  /** The split pattern can match starting at index `i` of `s`. */
  predicate BoundaryAt(s: string, i: int)
    requires 0 < i < |s|
  {
    IsTerminator(s[i - 1]) && IsSpace(s[i])
  }

  /** `s` contains no place where the split pattern could match. */
  predicate NoBoundary(s: string) {
    forall m :: 0 < m < |s| ==> !BoundaryAt(s, m)
  }

  predicate AllSpace(s: string) {
    forall m :: 0 <= m < |s| ==> IsSpace(s[m])
  }

  /** The left-most index at or after `from` where the split pattern matches. */
  function FirstBoundary(s: string, from: nat): (r: Option<nat>)
    requires 1 <= from
    ensures r.Some? ==> from <= r.value < |s| && BoundaryAt(s, r.value)
    ensures forall m :: from <= m < |s| && (r.None? || m < r.value) ==> !BoundaryAt(s, m)
    decreases |s| - from
  {
    if from >= |s| then None
    else if BoundaryAt(s, from) then Some(from)
    else FirstBoundary(s, from + 1)
  }

  /** Where the greedy `\s+` that starts at `i` stops. */
  function SpaceRunEnd(s: string, i: nat): (j: nat)
    requires i <= |s|
    ensures i <= j <= |s|
    ensures forall m :: i <= m < j ==> IsSpace(s[m])
    ensures j == |s| || !IsSpace(s[j])
    decreases |s| - i
  {
    if i < |s| && IsSpace(s[i]) then SpaceRunEnd(s, i + 1) else i
  }

  /** One piece of the split together with the separator the split consumed after it. */
  datatype Piece = Piece(sentence: string, gap: string)

  /** Puts the pieces and their separators back together. */
  function Rejoin(ps: seq<Piece>): string {
    if |ps| == 0 then "" else ps[0].sentence + ps[0].gap + Rejoin(ps[1..])
  }

  /** A piece the split ended at a match: a sentence ending in a terminator, then a non-empty whitespace run. */
  predicate Separated(p: Piece) {
    && |p.gap| > 0 && AllSpace(p.gap)
    && |p.sentence| > 0 && IsTerminator(p.sentence[|p.sentence| - 1])
  }

  /**
   * `ps` is the split of `text`: the pieces and gaps reassemble `text`; every
   * piece but the last was ended by a match of the pattern, whose `\s+` took
   * the whole whitespace run; the last piece has no gap; no sentence contains
   * a further match.
   */
  ghost predicate IsSegmentation(text: string, ps: seq<Piece>) {
    && |ps| >= 1
    && Rejoin(ps) == text
    && ps[|ps| - 1].gap == ""
    && (forall k :: 0 <= k < |ps| - 1 ==> Separated(ps[k]))
    && (forall k :: 0 <= k < |ps| ==> NoBoundary(ps[k].sentence))
    && (forall k :: 1 <= k < |ps| ==> ps[k].sentence == "" || !IsSpace(ps[k].sentence[0]))
    && (|text| > 0 ==> |ps[0].sentence| > 0 && ps[0].sentence[0] == text[0])
  }

  /** The split of `text`, with the separator consumed after each sentence. */
  function Segment(text: string): (ps: seq<Piece>)
    ensures IsSegmentation(text, ps)
    ensures text == "" ==> ps == [Piece("", "")]
    decreases |text|
  {
    match FirstBoundary(text, 1)
    case None => [Piece(text, "")]
    case Some(i) =>
      var j := SpaceRunEnd(text, i);
      var rest := Segment(text[j..]);
      SegmentCons(text, i, j, rest);
      [Piece(text[..i], text[i..j])] + rest
  }

  /** The first match at `i`, its whitespace run up to `j`, and the split of the remainder split `text`. */
  lemma SegmentCons(text: string, i: nat, j: nat, rest: seq<Piece>)
    requires 1 <= i < j <= |text| && BoundaryAt(text, i)
    requires forall m :: 1 <= m < i ==> !BoundaryAt(text, m)
    requires (forall m :: i <= m < j ==> IsSpace(text[m])) && (j == |text| || !IsSpace(text[j]))
    requires IsSegmentation(text[j..], rest)
    requires text[j..] == "" ==> rest == [Piece("", "")]
    ensures IsSegmentation(text, [Piece(text[..i], text[i..j])] + rest)
  {
    var first := Piece(text[..i], text[i..j]);
    var ps := [first] + rest;
    assert ps[1..] == rest;
    assert text[..j] == text[..i] + text[i..j];
    assert text == text[..j] + text[j..];
    assert Rejoin(ps) == text;
    assert ps[|ps| - 1] == rest[|rest| - 1];
    assert Separated(first) by {
      forall m | 0 <= m < |first.gap| ensures IsSpace(first.gap[m]) {
        assert first.gap[m] == text[i + m];
      }
      assert first.sentence[i - 1] == text[i - 1];
    }
    assert NoBoundary(first.sentence) by {
      forall m | 0 < m < i ensures !BoundaryAt(first.sentence, m) {
        assert !BoundaryAt(text, m);
      }
    }
    forall k | 0 <= k < |ps| - 1 ensures Separated(ps[k]) {
      if k > 0 { assert ps[k] == rest[k - 1]; }
    }
    forall k | 0 <= k < |ps| ensures NoBoundary(ps[k].sentence) {
      if k > 0 { assert ps[k] == rest[k - 1]; }
    }
    forall k | 1 <= k < |ps| ensures ps[k].sentence == "" || !IsSpace(ps[k].sentence[0]) {
      assert ps[k] == rest[k - 1];
      if k == 1 && j < |text| {
        assert text[j..][0] == text[j];
      }
    }
  }

  /** The sentence list `re.split` returns (line 5). */
  function SplitSentences(text: string): (ss: seq<string>)
    ensures |ss| == |Segment(text)| >= 1
    ensures forall k :: 0 <= k < |ss| ==> ss[k] == Segment(text)[k].sentence
  {
    Sentences(Segment(text))
  }

  /** Every sentence of the split but the last is non-empty and ends in `.`, `!` or `?`. */
  lemma SplitTerminated(text: string)
    ensures var ss := SplitSentences(text);
      forall k :: 0 <= k < |ss| - 1 ==> |ss[k]| > 0 && IsTerminator(ss[k][|ss[k]| - 1])
  {
    SentencesTerminated(text, Segment(text), SplitSentences(text));
  }

  /** The sentences of the pieces, in order. */
  function Sentences(ps: seq<Piece>): (ss: seq<string>)
    ensures |ss| == |ps|
    ensures forall k :: 0 <= k < |ps| ==> ss[k] == ps[k].sentence
  {
    seq(|ps|, k requires 0 <= k < |ps| => ps[k].sentence)
  }

  /** In a split, every sentence but the last ends in a terminator. */
  lemma SentencesTerminated(text: string, ps: seq<Piece>, ss: seq<string>)
    requires IsSegmentation(text, ps)
    requires |ss| == |ps| && forall k :: 0 <= k < |ps| ==> ss[k] == ps[k].sentence
    ensures forall k :: 0 <= k < |ss| - 1 ==> |ss[k]| > 0 && IsTerminator(ss[k][|ss[k]| - 1])
  {
    forall k | 0 <= k < |ss| - 1 ensures |ss[k]| > 0 && IsTerminator(ss[k][|ss[k]| - 1]) {
      assert Separated(ps[k]);
    }
  }

  /* ---------------------------------------------------------------------- */
  /* Greedy packing: the `for sentence in sentences` loop (lines 6-23)      */
  /* ---------------------------------------------------------------------- */

  /** Total length of a list of sentences; the joining spaces are not counted. */
  function Sum(ss: seq<string>): nat {
    if |ss| == 0 then 0 else Sum(ss[..|ss| - 1]) + |ss[|ss| - 1]|
  }

  /** The sentences of a list of groups, in order. */
  function Flatten(gs: seq<seq<string>>): seq<string> {
    if |gs| == 0 then [] else Flatten(gs[..|gs| - 1]) + gs[|gs| - 1]
  }

  /** The loop state: closed chunks, the open chunk and its running length. */
  datatype Packing = Packing(closed: seq<seq<string>>, current: seq<string>, currentLength: int)

  /**
   * One iteration of the packing loop (lines 11-20): no sentence is lost or
   * reordered, the open chunk ends with the new sentence, and a chunk is
   * closed exactly when the sentence would push a non-empty open chunk past
   * the budget.
   */
  function PackStep(p: Packing, s: string, maxLength: int): (r: Packing)
    ensures Flatten(r.closed) + r.current == Flatten(p.closed) + p.current + [s]
    ensures |r.current| > 0 && r.current[|r.current| - 1] == s
    ensures |r.closed| > |p.closed| <==> |p.current| > 0 && p.currentLength + |s| > maxLength
  {
    if p.currentLength + |s| > maxLength then
      if |p.current| > 0 then
        FlattenSnoc(p.closed, p.current);
        Packing(p.closed + [p.current], [s], |s|)
      else
        Packing(p.closed, [s], |s|)
    else
      Packing(p.closed, p.current + [s], p.currentLength + |s|)
  }

  /** A group respects the budget, or is a single (possibly oversized) sentence. */
  ghost predicate Fits(g: seq<string>, maxLength: int) {
    Sum(g) <= maxLength || |g| == 1
  }

  /**
   * Groups as the packing loop closes them: none is empty, each fits, and no
   * group had room for the next group's first sentence.
   */
  ghost predicate WellPacked(gs: seq<seq<string>>, maxLength: int) {
    && (forall k :: 0 <= k < |gs| ==> |gs[k]| > 0 && Fits(gs[k], maxLength))
    && (forall k :: 0 <= k < |gs| - 1 ==> Sum(gs[k]) + |gs[k + 1][0]| > maxLength)
  }

  /** What the packing loop keeps true after consuming the sentences `ss`. */
  ghost predicate PackingInvariant(ss: seq<string>, p: Packing, maxLength: int) {
    && Flatten(p.closed) + p.current == ss
    && p.currentLength == Sum(p.current)
    && (|p.current| == 0 ==> |p.closed| == 0)
    && WellPacked(p.closed, maxLength)
    && (|p.current| > 0 ==> Fits(p.current, maxLength))
    && (|p.closed| > 0 ==> Sum(p.closed[|p.closed| - 1]) + |p.current[0]| > maxLength)
  }

  lemma SumSnoc(ss: seq<string>, s: string)
    ensures Sum(ss + [s]) == Sum(ss) + |s|
  {
    assert (ss + [s])[..|ss|] == ss;
  }

  lemma FlattenSnoc(gs: seq<seq<string>>, g: seq<string>)
    ensures Flatten(gs + [g]) == Flatten(gs) + g
  {
    assert (gs + [g])[..|gs|] == gs;
  }

  /** Closing one more group that fits and had no room left keeps the groups well packed. */
  lemma WellPackedSnoc(gs: seq<seq<string>>, g: seq<string>, maxLength: int)
    requires WellPacked(gs, maxLength)
    requires |g| > 0 && Fits(g, maxLength)
    requires |gs| > 0 ==> Sum(gs[|gs| - 1]) + |g[0]| > maxLength
    ensures WellPacked(gs + [g], maxLength)
  {
    var hs := gs + [g];
    forall k | 0 <= k < |hs| ensures |hs[k]| > 0 && Fits(hs[k], maxLength) {
      if k < |gs| { assert hs[k] == gs[k]; }
    }
    forall k | 0 <= k < |hs| - 1 ensures Sum(hs[k]) + |hs[k + 1][0]| > maxLength {
      assert hs[k] == gs[k];
      if k + 1 < |gs| { assert hs[k + 1] == gs[k + 1]; }
    }
  }

  /** Lines 13-17 with an open chunk: it is closed, and the sentence opens the next one. */
  lemma CloseStepKeeps(ss: seq<string>, p: Packing, s: string, maxLength: int)
    requires PackingInvariant(ss, p, maxLength)
    requires p.currentLength + |s| > maxLength && |p.current| > 0
    ensures PackingInvariant(ss + [s], Packing(p.closed + [p.current], [s], |s|), maxLength)
  {
    FlattenSnoc(p.closed, p.current);
    WellPackedSnoc(p.closed, p.current, maxLength);
    assert Sum([s]) == |s| by { assert [s][..0] == []; }
  }

  /** Lines 13-17 with no open chunk: the sentence opens the first one. */
  lemma OpenStepKeeps(ss: seq<string>, p: Packing, s: string, maxLength: int)
    requires PackingInvariant(ss, p, maxLength)
    requires |p.current| == 0
    ensures PackingInvariant(ss + [s], Packing(p.closed, [s], |s|), maxLength)
  {
    assert p.closed == [] && ss == [];
    assert Sum([s]) == |s| by { assert [s][..0] == []; }
  }

  /** Lines 18-20: the sentence joins the open chunk. */
  lemma AppendStepKeeps(ss: seq<string>, p: Packing, s: string, maxLength: int)
    requires PackingInvariant(ss, p, maxLength)
    requires p.currentLength + |s| <= maxLength
    ensures PackingInvariant(ss + [s], Packing(p.closed, p.current + [s], p.currentLength + |s|), maxLength)
  {
    SumSnoc(p.current, s);
    assert Flatten(p.closed) + (p.current + [s]) == ss + [s];
    assert |p.current| > 0 ==> (p.current + [s])[0] == p.current[0];
  }

  /** One loop iteration keeps the invariant, now over one more sentence. */
  lemma PackStepPreserves(ss: seq<string>, p: Packing, s: string, maxLength: int)
    requires PackingInvariant(ss, p, maxLength)
    ensures PackingInvariant(ss + [s], PackStep(p, s, maxLength), maxLength)
    ensures |PackStep(p, s, maxLength).current| > 0
  {
    if p.currentLength + |s| > maxLength {
      if |p.current| > 0 {
        CloseStepKeeps(ss, p, s, maxLength);
      } else {
        OpenStepKeeps(ss, p, s, maxLength);
      }
    } else {
      AppendStepKeeps(ss, p, s, maxLength);
    }
  }

  /** The packing loop run over `ss` from the initial state of lines 6-8. */
  function PackAll(ss: seq<string>, maxLength: int): (p: Packing)
    ensures PackingInvariant(ss, p, maxLength)
    ensures |p.current| == 0 <==> |ss| == 0
  {
    if |ss| == 0 then Packing([], [], 0)
    else
      var prev := PackAll(ss[..|ss| - 1], maxLength);
      var s := ss[|ss| - 1];
      assert ss == ss[..|ss| - 1] + [s];
      PackStepPreserves(ss[..|ss| - 1], prev, s, maxLength);
      PackStep(prev, s, maxLength)
  }

  lemma {:induction false} SumOfMember(g: seq<string>, s: string)
    requires s in g
    ensures |s| <= Sum(g)
    decreases |g|
  {
    if g[|g| - 1] != s {
      assert s in g[..|g| - 1] by {
        var k :| 0 <= k < |g| && g[k] == s;
        assert g[..|g| - 1][k] == s;
      }
      SumOfMember(g[..|g| - 1], s);
    }
  }

  lemma {:induction false} FlattenLength(gs: seq<seq<string>>)
    requires forall k :: 0 <= k < |gs| ==> |gs[k]| > 0
    ensures |Flatten(gs)| >= |gs|
    decreases |gs|
  {
    if |gs| > 0 {
      FlattenLength(gs[..|gs| - 1]);
    }
  }

  /** In well-packed groups, a sentence longer than the budget is alone in its group. */
  lemma OversizedAlone(gs: seq<seq<string>>, maxLength: int)
    requires WellPacked(gs, maxLength)
    ensures forall k, s :: 0 <= k < |gs| && s in gs[k] && |s| > maxLength ==> gs[k] == [s]
  {
    forall k, s | 0 <= k < |gs| && s in gs[k] && |s| > maxLength
      ensures gs[k] == [s]
    {
      SumOfMember(gs[k], s);
    }
  }

  /**
   * The sentence groups `chunk_text` joins into chunks: they partition the
   * sentences in order, none is empty, each respects the budget unless it is
   * a single sentence, an oversized sentence stands alone, and no group could
   * have taken the next group's first sentence.
   */
  function Group(ss: seq<string>, maxLength: int): (gs: seq<seq<string>>)
    ensures Flatten(gs) == ss
    ensures |gs| == 0 <==> |ss| == 0
    ensures |gs| <= |ss|
    ensures forall k :: 0 <= k < |gs| ==> |gs[k]| > 0 && (Sum(gs[k]) <= maxLength || |gs[k]| == 1)
    ensures forall k, s :: 0 <= k < |gs| && s in gs[k] && |s| > maxLength ==> gs[k] == [s]
    ensures forall k :: 0 <= k < |gs| - 1 ==> Sum(gs[k]) + |gs[k + 1][0]| > maxLength
  {
    var p := PackAll(ss, maxLength);
    var gs := if |p.current| > 0 then p.closed + [p.current] else p.closed;
    Flush(ss, p, maxLength, gs);
    gs
  }

  /** The final flush (lines 22-23) turns the loop state into the groups of all the sentences. */
  lemma Flush(ss: seq<string>, p: Packing, maxLength: int, gs: seq<seq<string>>)
    requires PackingInvariant(ss, p, maxLength)
    requires |p.current| == 0 <==> |ss| == 0
    requires gs == if |p.current| > 0 then p.closed + [p.current] else p.closed
    ensures Flatten(gs) == ss
    ensures |gs| == 0 <==> |ss| == 0
    ensures |gs| <= |ss|
    ensures forall k :: 0 <= k < |gs| ==> |gs[k]| > 0 && (Sum(gs[k]) <= maxLength || |gs[k]| == 1)
    ensures forall k, s :: 0 <= k < |gs| && s in gs[k] && |s| > maxLength ==> gs[k] == [s]
    ensures forall k :: 0 <= k < |gs| - 1 ==> Sum(gs[k]) + |gs[k + 1][0]| > maxLength
  {
    FlushKeepsInvariant(ss, p, maxLength, gs);
    FlattenLength(gs);
    OversizedAlone(gs, maxLength);
  }

  /** Closing the open chunk, if any, leaves well-packed groups of all the sentences. */
  lemma FlushKeepsInvariant(ss: seq<string>, p: Packing, maxLength: int, gs: seq<seq<string>>)
    requires PackingInvariant(ss, p, maxLength)
    requires gs == if |p.current| > 0 then p.closed + [p.current] else p.closed
    ensures Flatten(gs) == ss
    ensures WellPacked(gs, maxLength)
  {
    if |p.current| > 0 {
      FlattenSnoc(p.closed, p.current);
      WellPackedSnoc(p.closed, p.current, maxLength);
    }
  }

  /** `' '.join(group)`. */
  function JoinWithSpaces(g: seq<string>): (r: string)
    ensures |g| > 0 ==> |r| == Sum(g) + |g| - 1
  {
    if |g| == 0 then ""
    else if |g| == 1 then g[0]
    else
      assert g[..|g| - 1][..|g| - 2] == g[..|g| - 2];
      JoinWithSpaces(g[..|g| - 1]) + " " + g[|g| - 1]
  }

  /** A joined group overshoots the budget by its joining spaces only, unless it is a single sentence. */
  lemma JoinedLength(g: seq<string>, maxLength: int)
    requires |g| > 0 && (Sum(g) <= maxLength || |g| == 1)
    ensures |JoinWithSpaces(g)| + 1 <= maxLength + |g| || (|g| == 1 && JoinWithSpaces(g) == g[0])
  {
  }

  /** The chunk size `ContentProcessor.process` asks for. */
  const MaxChunkLength: int := 4000

  /**
   * `chunk_text(text, max_length)`: one chunk per sentence group, the group's
   * sentences joined with single spaces. There is at least one chunk (the
   * split always yields a piece) and never more chunks than sentences.
   */
  function ChunkText(text: string, maxLength: int): (chunks: seq<string>)
    ensures 1 <= |chunks| <= |SplitSentences(text)|
  {
    var ss := SplitSentences(text);
    var gs := Group(ss, maxLength);
    assert 1 <= |gs| <= |ss|;
    JoinEach(gs)
  }

  /** Each group joined with spaces. */
  function JoinEach(gs: seq<seq<string>>): (r: seq<string>)
    ensures |r| == |gs|
    ensures forall k :: 0 <= k < |gs| ==> r[k] == JoinWithSpaces(gs[k])
  {
    seq(|gs|, k requires 0 <= k < |gs| => JoinWithSpaces(gs[k]))
  }

  /** Joining two non-empty runs of sentences puts one space between their joins. */
  lemma {:induction false} JoinAppend(a: seq<string>, b: seq<string>)
    requires |a| > 0 && |b| > 0
    ensures JoinWithSpaces(a + b) == JoinWithSpaces(a) + " " + JoinWithSpaces(b)
    decreases |b|
  {
    var ab := a + b;
    if |b| == 1 {
      assert ab[..|ab| - 1] == a;
    } else {
      var b' := b[..|b| - 1];
      assert ab[..|ab| - 1] == a + b';
      assert ab[|ab| - 1] == b[|b| - 1];
      JoinAppend(a, b');
    }
  }

  /** Joining the joined groups is joining all their sentences: grouping moves no text. */
  lemma {:induction false} JoinGroups(gs: seq<seq<string>>)
    requires |gs| > 0 && forall k :: 0 <= k < |gs| ==> |gs[k]| > 0
    ensures JoinWithSpaces(JoinEach(gs)) == JoinWithSpaces(Flatten(gs))
    decreases |gs|
  {
    var init := gs[..|gs| - 1];
    var g := gs[|gs| - 1];
    if |init| == 0 {
      assert gs == [g] && JoinEach(gs) == [JoinWithSpaces(g)];
      assert Flatten(gs) == Flatten(init) + g == g;
    } else {
      assert gs == init + [g];
      var joined := JoinEach(init);
      assert JoinEach(gs) == joined + [JoinWithSpaces(g)];
      assert JoinWithSpaces(joined) == JoinWithSpaces(Flatten(init)) by {
        JoinGroups(init);
      }
      assert JoinWithSpaces(JoinEach(gs)) == JoinWithSpaces(joined) + " " + JoinWithSpaces(g) by {
        JoinAppend(joined, [JoinWithSpaces(g)]);
      }
      assert JoinWithSpaces(Flatten(gs)) == JoinWithSpaces(Flatten(init)) + " " + JoinWithSpaces(g) by {
        FlattenLength(init);
        JoinAppend(Flatten(init), g);
      }
    }
  }

  /** When every consumed separator is a single space, the sentences joined with spaces are the text. */
  lemma {:induction false} RejoinSingleSpaces(ps: seq<Piece>, ss: seq<string>)
    requires |ps| >= 1 && ps[|ps| - 1].gap == ""
    requires forall k :: 0 <= k < |ps| - 1 ==> ps[k].gap == " "
    requires |ss| == |ps| && forall k :: 0 <= k < |ps| ==> ss[k] == ps[k].sentence
    ensures JoinWithSpaces(ss) == Rejoin(ps)
    decreases |ps|
  {
    if |ps| == 1 {
      assert Rejoin(ps[1..]) == "";
    } else {
      RejoinSingleSpaces(ps[1..], ss[1..]);
      assert ss == [ss[0]] + ss[1..];
      JoinAppend([ss[0]], ss[1..]);
    }
  }

  /** A text split at single spaces is its sentences joined with single spaces. */
  lemma SingleSpacedText(text: string, ps: seq<Piece>, ss: seq<string>)
    requires IsSegmentation(text, ps)
    requires forall k :: 0 <= k < |ps| - 1 ==> ps[k].gap == " "
    requires |ss| == |ps| && forall k :: 0 <= k < |ps| ==> ss[k] == ps[k].sentence
    ensures JoinWithSpaces(ss) == text
  {
    RejoinSingleSpaces(ps, ss);
  }

  /**
   * Chunking moves no text between sentences: the chunks joined with single
   * spaces are the sentences joined with single spaces.
   */
  lemma ChunksJoinSentences(text: string, maxLength: int)
    ensures JoinWithSpaces(ChunkText(text, maxLength)) == JoinWithSpaces(SplitSentences(text))
  {
    var gs := Group(SplitSentences(text), maxLength);
    JoinGroups(gs);
  }

  /**
   * When every sentence boundary of `text` is a single space, joining the
   * chunks with single spaces gives back `text`.
   */
  lemma ChunksRejoin(text: string, maxLength: int)
    requires forall k :: 0 <= k < |Segment(text)| - 1 ==> Segment(text)[k].gap == " "
    ensures JoinWithSpaces(ChunkText(text, maxLength)) == text
  {
    ChunksJoinSentences(text, maxLength);
    SingleSpacedText(text, Segment(text), SplitSentences(text));
  }

  /**
   * A chunk overshoots the budget by no more than its joining spaces (the
   * spaces are not counted against `max_length`), unless it is one sentence.
   */
  lemma ChunkLength(text: string, maxLength: int, k: int)
    requires 0 <= k < |ChunkText(text, maxLength)|
    ensures var g := Group(SplitSentences(text), maxLength)[k];
      || |ChunkText(text, maxLength)[k]| + 1 <= maxLength + |g|
      || (|g| == 1 && ChunkText(text, maxLength)[k] == g[0])
  {
    var gs := Group(SplitSentences(text), maxLength);
    JoinedLength(gs[k], maxLength);
  }

  /** A single sentence forms a single group, whatever the budget. */
  lemma GroupSingle(s: string, maxLength: int)
    ensures Group([s], maxLength) == [[s]]
  {
    var gs := Group([s], maxLength);
    FlattenLength(gs);
    assert |gs| == 1;
    assert Flatten(gs) == Flatten(gs[..0]) + gs[0];
  }

  /** A text without a sentence boundary is a single piece. */
  lemma SegmentWithoutBoundary(text: string)
    requires FirstBoundary(text, 1).None?
    ensures Segment(text) == [Piece(text, "")]
  {
  }

  /** A text without a sentence boundary is a single sentence: itself. */
  lemma SplitWithoutBoundary(text: string)
    requires FirstBoundary(text, 1).None?
    ensures SplitSentences(text) == [text]
  {
    SegmentWithoutBoundary(text);
    var ss := SplitSentences(text);
    assert |ss| == 1 && ss[0] == text;
  }

  /** A single string joined with spaces is itself. */
  lemma OneJoined(g: seq<string>, s: string)
    requires |g| == 1 && JoinWithSpaces(g) == s
    ensures g == [s]
  {
  }

  /** A text without a sentence boundary is a single chunk: itself. */
  lemma ChunkSingleSentence(text: string, maxLength: int)
    requires FirstBoundary(text, 1).None?
    ensures ChunkText(text, maxLength) == [text]
  {
    SegmentWithoutBoundary(text);
    ChunksRejoin(text, maxLength);
    OneJoined(ChunkText(text, maxLength), text);
  }

  /** The empty text is one empty chunk, not an empty list, whatever the budget. */
  lemma ChunkEmptyText(maxLength: int)
    ensures ChunkText("", maxLength) == [""]
  {
    ChunkSingleSentence("", maxLength);
  }
}
