/** When splitting keeps words whole: of attempted spans, exactly when no word is longer than a
    chunk; of delivered chunks, whenever that holds, and exactly then where the only whitespace is
    spaces and newlines. */
module ChunkWords {
  import opened Text
  import opened ChunkSpec
  import opened ChunkSplitter
  import opened ChunkChain
  import opened ChunkBudget

  /** The characters a word may end with. */
  predicate IsBreak(c: char) { c == ' ' || c == '\n' }

  predicate HasBreak(text: string, from: nat, len: nat)
    requires from + len <= |text|
  {
    exists k :: from <= k < from + len && IsBreak(text[k])
  }

  /** Every run that ends at a space, a newline or the end of the text fits in one chunk. */
  ghost predicate ShortWords(text: string, size: nat) {
    forall i: nat :: i + size < |text| ==> HasBreak(text, i, size)
  }

  /** `i` is an edge of the text or immediately follows a space or a newline. */
  predicate WordBoundary(text: string, i: nat) {
    i == 0 || i == |text| || (i < |text| && IsBreak(text[i - 1]))
  }

  /** Every span ends at a word boundary. */
  ghost predicate EndAtWords(text: string, spans: seq<Span>) {
    forall k :: 0 <= k < |spans| ==> WordBoundary(text, spans[k].end)
  }

  // ---- no separator of an exhausted level remains inside a segment ----

  ghost predicate ClearBelow(text: string, level: nat, start: nat, end: nat)
    requires level <= LEVELS
  {
    forall l: nat :: l < level ==> ClearOf(text, Separator(l), start, end)
  }

  /** A segment as a scan leaves it: ending at a word boundary, with no earlier separator. */
  ghost predicate EndsClean(text: string, sep: string, seg: Span) {
    seg.end <= |text| && WordBoundary(text, seg.end) && ClearOf(text, sep, seg.start, seg.end)
  }

  lemma {:induction false} ScanClears(text: string, sep: string, from: nat, i: nat, end: nat)
    requires sep != [] && from <= i && from <= end <= |text| && WordBoundary(text, end) && IsBreak(sep[|sep| - 1])
    requires forall j: nat :: from <= j < i ==> !MatchesAt(text, j, sep)
    ensures forall seg :: seg in Scan(text, sep, from, i, end) ==> EndsClean(text, sep, seg)
    decreases end - i
  {
    if i + |sep| > end {
      assert EndsClean(text, sep, Span(from, end));
    } else if MatchesAt(text, i, sep) {
      var cut := i + |sep|;
      assert text[cut - 1] == text[i..cut][|sep| - 1];
      assert EndsClean(text, sep, Span(from, cut));
      ScanClears(text, sep, cut, cut, end);
    } else {
      ScanClears(text, sep, from, i + 1, end);
    }
  }

  lemma SeparatorsEndWithBreak(level: nat)
    requires level < LEVELS
    ensures Separator(level) != [] && IsBreak(Separator(level)[|Separator(level)| - 1])
  {
  }

  /** Past the last level no word break is left, so a span of short words already fits. */
  lemma FallbackUnreachable(text: string, size: nat, start: nat, end: nat)
    requires ShortWords(text, size) && start <= end <= |text| && ClearBelow(text, LEVELS, start, end)
    ensures end - start <= size
  {
    if end - start > size {
      assert ClearOf(text, Separator(3), start, end) && ClearOf(text, Separator(9), start, end);
      assert HasBreak(text, start, size);
      forall k | start <= k < start + size ensures !IsBreak(text[k]) {
        assert text[k..k + 1] == [text[k]];
        assert !MatchesAt(text, k, Separator(3)) && !MatchesAt(text, k, Separator(9));
      }
    }
  }

  /** With short words every piece ends at a word boundary, whatever the overlap:
      the character fallback, the only user of the overlap, never runs. */
  lemma {:induction false} PiecesEndAtWords(text: string, size: nat, overlap: nat, start: nat, end: nat, level: nat)
    requires overlap < size && start <= end <= |text| && level <= LEVELS
    requires ShortWords(text, size) && WordBoundary(text, end) && ClearBelow(text, level, start, end)
    ensures var ps := Pieces(text, size, overlap, start, end, level);
            EndAtWords(text, ps) && ps == Pieces(text, size, 0, start, end, level)
    decreases LEVELS - level, 0
  {
    hide Pieces, ShortWords, ClearBelow, Separator, Scan, Ready;
    if end - start <= size {
      PiecesThatFit(text, size, overlap, start, end, level);
      PiecesThatFit(text, size, 0, start, end, level);
    } else if level == LEVELS {
      FallbackUnreachable(text, size, start, end);
    } else {
      PiecesAtLevel(text, size, overlap, start, end, level);
      PiecesAtLevel(text, size, 0, start, end, level);
      SegmentsClear(text, start, end, level);
      PiecesOfAllEndAtWords(text, size, overlap, Scan(text, Separator(level), start, start, end), level + 1);
    }
  }

  /** Segments as level `level` receives them. */
  ghost predicate Ready(text: string, segs: seq<Span>, level: nat)
    requires level <= LEVELS
  {
    forall k :: 0 <= k < |segs| ==>
      && segs[k].start <= segs[k].end <= |text|
      && WordBoundary(text, segs[k].end)
      && ClearBelow(text, level, segs[k].start, segs[k].end)
  }

  /** Splitting a level leaves segments clear of it and ending at word boundaries. */
  lemma SegmentsClear(text: string, start: nat, end: nat, level: nat)
    requires level < LEVELS && start <= end <= |text| && WordBoundary(text, end) && ClearBelow(text, level, start, end)
    ensures Ready(text, Scan(text, Separator(level), start, start, end), level + 1)
  {
    hide ClearBelow, Tiles, Scan, Separator;
    var sep := Separator(level);
    SeparatorsEndWithBreak(level);
    ScanTiles(text, sep, start, start, end);
    ScanClears(text, sep, start, start, end);
    var segs := Scan(text, sep, start, start, end);
    TilesInside(segs, start, end);
    forall k | 0 <= k < |segs|
      ensures segs[k].start <= segs[k].end <= |text| && WordBoundary(text, segs[k].end)
      ensures ClearBelow(text, level + 1, segs[k].start, segs[k].end)
    {
      assert EndsClean(text, sep, segs[k]);
      ClearsNext(text, level, start, end, segs[k]);
    }
  }

  lemma ClearsNext(text: string, level: nat, start: nat, end: nat, seg: Span)
    requires level < LEVELS && start <= seg.start && seg.end <= end
    requires ClearBelow(text, level, start, end) && ClearOf(text, Separator(level), seg.start, seg.end)
    ensures ClearBelow(text, level + 1, seg.start, seg.end)
  {
    forall l: nat | l < level + 1 ensures ClearOf(text, Separator(l), seg.start, seg.end) {
      if l < level { assert ClearOf(text, Separator(l), start, end); }
    }
  }

  lemma {:induction false} PiecesOfAllEndAtWords(text: string, size: nat, overlap: nat, segs: seq<Span>, level: nat)
    requires overlap < size && level <= LEVELS && ShortWords(text, size)
    requires Ready(text, segs, level)
    ensures var ps := PiecesOfAll(text, size, overlap, segs, level);
            EndAtWords(text, ps) && ps == PiecesOfAll(text, size, 0, segs, level)
    decreases LEVELS - level, |segs| + 1
  {
    hide ShortWords, ClearBelow, WordBoundary, Pieces;
    if segs != [] {
      PiecesEndAtWords(text, size, overlap, segs[0].start, segs[0].end, level);
      PiecesOfAllEndAtWords(text, size, overlap, segs[1..], level);
    }
  }

  /** A span ends where some piece ends. */
  lemma {:induction false} SpansEndWithPieces(size: nat, overlap: nat, ps: seq<Span>, n: nat, ends: set<nat>)
    requires ps != [] && Stream(ps, size, n) && forall k :: 0 <= k < |ps| ==> ps[k].end in ends
    ensures var spans := Attempted(size, overlap, ps);
            forall k :: 0 <= k < |spans| ==> spans[k].end in ends
  {
    hide Closed, Current;
    var init, p := ps[..|ps| - 1], ps[|ps| - 1];
    assert init + [p] == ps;
    MergeOneMore(size, overlap, init, p);
    if init != [] {
      SpansEndWithPieces(size, overlap, init, n, ends);
      var before := Attempted(size, overlap, init);
      assert before == Closed(size, overlap, init) + [Current(size, overlap, init)];
      assert forall k :: 0 <= k < |Closed(size, overlap, init)| ==> Closed(size, overlap, init)[k] == before[k];
      assert before[|before| - 1] == Current(size, overlap, init);
    }
  }

  /** Attempted spans end at word boundaries if and only if every word fits in a chunk. */
  lemma WordIntegrity(text: string, size: nat, overlap: nat)
    requires overlap < size
    ensures EndAtWords(text, Spans(text, size, overlap)) <==> ShortWords(text, size)
  {
    if ShortWords(text, size) {
      ShortWordsSuffice(text, size, overlap);
    }
    if EndAtWords(text, Spans(text, size, overlap)) {
      forall i: nat | i + size < |text| ensures HasBreak(text, i, size) {
        ShortWordsNeeded(text, size, overlap, i);
      }
    }
  }

  lemma ShortWordsSuffice(text: string, size: nat, overlap: nat)
    requires overlap < size && ShortWords(text, size)
    ensures EndAtWords(text, Spans(text, size, overlap))
  {
    var ps := Pieces(text, size, overlap, 0, |text|, 0);
    PiecesEndAtWords(text, size, overlap, 0, |text|, 0);
    PiecesTile(text, size, overlap, 0, |text|, 0);
    TilesInside(ps, 0, |text|);
    hide ShortWords, Pieces, Attempted;
    var ends := set i: nat | i <= |text| && WordBoundary(text, i);
    if ps != [] {
      SpansEndWithPieces(size, overlap, ps, |text|, ends);
    } else {
      NoSpans(size, overlap);
    }
  }

  lemma NoSpans(size: nat, overlap: nat)
    ensures Attempted(size, overlap, []) == []
  {
  }

  /** A window of `size` characters without a break would have to hold a chunk end. */
  lemma ShortWordsNeeded(text: string, size: nat, overlap: nat, i: nat)
    requires overlap < size && i + size < |text| && EndAtWords(text, Spans(text, size, overlap))
    ensures HasBreak(text, i, size)
  {
    hide Spans, Chain;
    var spans := Spans(text, size, overlap);
    SpansChain(text, size, overlap);
    var k := FirstEndAfter(size, overlap, spans, i);
    assert WordBoundary(text, spans[k].end);
    assert IsBreak(text[spans[k].end - 1]);
  }

  /** The first span to end past `i` ends within `size` of it. */
  lemma {:induction false} FirstEndAfter(size: nat, overlap: nat, spans: seq<Span>, i: nat) returns (k: nat)
    requires Chain(size, overlap, spans) && spans != []
    requires spans[0].start <= i < spans[|spans| - 1].end
    ensures k < |spans| && spans[k].start <= i < spans[k].end <= i + size
  {
    k := |spans| - 1;
    if k > 0 {
      assert Follows(size, overlap, spans[k - 1], spans[k]);
      if i < spans[k - 1].end {
        k := FirstEndAfter(size, overlap, spans[..k], i);
      }
    }
  }

  /** Without overlap, attempted spans of short words start at word boundaries too. */
  lemma StartsAtWords(text: string, size: nat)
    requires 1 <= size && ShortWords(text, size)
    ensures var spans := Spans(text, size, 0);
            forall k :: 0 <= k < |spans| ==> WordBoundary(text, spans[k].start)
  {
    hide Spans, ShortWords;
    var spans := Spans(text, size, 0);
    SpansChain(text, size, 0);
    ShortWordsSuffice(text, size, 0);
    forall k | 0 <= k < |spans| ensures WordBoundary(text, spans[k].start) {
      if k > 0 { assert Follows(size, 0, spans[k - 1], spans[k]); }
    }
  }

  // ---- delivered chunks ----

  ghost predicate ChunksEndAtWords(text: string, chunks: seq<Chunk>) {
    forall k :: 0 <= k < |chunks| ==> WordBoundary(text, chunks[k].end)
  }

  ghost predicate ChunksStartAtWords(text: string, chunks: seq<Chunk>) {
    forall k :: 0 <= k < |chunks| ==> WordBoundary(text, chunks[k].start)
  }

  /** A delivered chunk is a non-blank attempted span, and every one of those is delivered. */
  lemma ChunkIsSpan(text: string, size: int, overlap: int, chunks: seq<Chunk>, k: nat) returns (j: nat)
    requires 0 <= overlap < size && !AllWhitespace(text) && Splits(text, size, overlap, Ok(chunks)) && k < |chunks|
    ensures var spans := Spans(text, size, overlap);
            j < |spans| && chunks[k].start == spans[j].start && chunks[k].end == spans[j].end
  {
    hide Spans, NoViolation;
    var spans := Spans(text, size, overlap);
    var at := NonBlankAt(text, spans);
    j := at[k];
  }

  lemma SpanIsChunk(text: string, size: int, overlap: int, chunks: seq<Chunk>, j: nat) returns (k: nat)
    requires 0 <= overlap < size && !AllWhitespace(text) && Splits(text, size, overlap, Ok(chunks))
    requires j < |Spans(text, size, overlap)| && !Blank(text, Spans(text, size, overlap)[j])
    ensures k < |chunks| && chunks[k].end == Spans(text, size, overlap)[j].end
  {
    hide Spans, NoViolation, Blank;
    var spans := Spans(text, size, overlap);
    var at := NonBlankAt(text, spans);
    assert j in at;
    k :| 0 <= k < |at| && at[k] == j;
  }

  lemma BlankDelivers(text: string, size: int, overlap: int, chunks: seq<Chunk>)
    requires 0 <= overlap < size && AllWhitespace(text) && Splits(text, size, overlap, Ok(chunks))
    ensures chunks == []
  {
    hide Delivers, Spans;
  }

  /** If every word fits in a chunk, every chunk ends at a word boundary, and without overlap every
      chunk starts at one. */
  lemma ChunksKeepWords(text: string, size: int, overlap: int, chunks: seq<Chunk>)
    requires 0 <= overlap < size && ShortWords(text, size) && Splits(text, size, overlap, Ok(chunks))
    ensures ChunksEndAtWords(text, chunks) && (overlap == 0 ==> ChunksStartAtWords(text, chunks))
  {
    hide Spans, Splits, ShortWords, WordBoundary;
    if AllWhitespace(text) {
      BlankDelivers(text, size, overlap, chunks);
    } else {
      ShortWordsSuffice(text, size, overlap);
      if overlap == 0 { StartsAtWords(text, size); }
      forall k | 0 <= k < |chunks|
        ensures WordBoundary(text, chunks[k].end) && (overlap == 0 ==> WordBoundary(text, chunks[k].start))
      {
        var j := ChunkIsSpan(text, size, overlap, chunks, k);
      }
    }
  }

  /** Every window of a chunk's length that starts with a visible character holds a word break. */
  ghost predicate ShortInk(text: string, size: nat) {
    forall i: nat :: i + size < |text| && !IsWhitespace(text[i]) ==> HasBreak(text, i, size)
  }

  /** Chunks that all end at word boundaries need that much of every text. */
  lemma ChunksNeedBreaks(text: string, size: int, overlap: int, chunks: seq<Chunk>)
    requires 0 <= overlap < size && Splits(text, size, overlap, Ok(chunks)) && ChunksEndAtWords(text, chunks)
    ensures ShortInk(text, size)
  {
    hide Spans, Splits, HasBreak;
    forall i: nat | i + size < |text| && !IsWhitespace(text[i]) ensures HasBreak(text, i, size) {
      InkNeedsBreak(text, size, overlap, chunks, i);
    }
  }

  lemma InkNeedsBreak(text: string, size: int, overlap: int, chunks: seq<Chunk>, i: nat)
    requires 0 <= overlap < size && Splits(text, size, overlap, Ok(chunks)) && ChunksEndAtWords(text, chunks)
    requires i + size < |text| && !IsWhitespace(text[i])
    ensures HasBreak(text, i, size)
  {
    hide Spans, Splits, Chain, IsWhitespace;
    var spans := Spans(text, size, overlap);
    SpansChain(text, size, overlap);
    var j := FirstEndAfter(size, overlap, spans, i);
    var k := SpanIsChunk(text, size, overlap, chunks, j);
    assert WordBoundary(text, chunks[k].end);
    assert IsBreak(text[chunks[k].end - 1]);
  }

  /** Where the only whitespace is spaces and newlines, the chunks delivered end at word boundaries if
      and only if every word fits in a chunk. */
  lemma ChunkWordIntegrity(text: string, size: int, overlap: int, chunks: seq<Chunk>)
    requires 0 <= overlap < size && Splits(text, size, overlap, Ok(chunks))
    requires forall i :: 0 <= i < |text| && IsWhitespace(text[i]) ==> IsBreak(text[i])
    ensures ChunksEndAtWords(text, chunks) <==> ShortWords(text, size)
  {
    hide Splits, ChunksEndAtWords, IsWhitespace;
    if ShortWords(text, size) { ChunksKeepWords(text, size, overlap, chunks); }
    if ChunksEndAtWords(text, chunks) {
      ChunksNeedBreaks(text, size, overlap, chunks);
      forall i: nat | i + size < |text| ensures HasBreak(text, i, size) {
        if IsWhitespace(text[i]) { assert IsBreak(text[i]); }
      }
    }
  }

  // ---- other whitespace can hide a long word ----

  /** A word of tabs too long for a chunk. */
  const TABBED: string := "a \t\t\t b"

  lemma TabbedPieces()
    ensures Pieces(TABBED, 2, 0, 0, 7, 0) == [Span(0, 2), Span(2, 4), Span(4, 6), Span(6, 7)]
  {
    forall l: nat | l < 9 ensures NeverMatches(TABBED, Separator(l)) { TabbedNeverMatches(l); }
    hide Pieces, NeverMatches, Scan;
    LevelsFallThrough(TABBED, 2, 0, 9);
    PiecesAtLevel(TABBED, 2, 0, 0, 7, 9);
    TabbedScan();
    PiecesThatFit(TABBED, 2, 0, 0, 2, 10);
    PiecesAtFallback(TABBED, 2, 0, 2, 6);
    PiecesThatFit(TABBED, 2, 0, 6, 7, 10);
    TabbedStrides();
    TabbedJoin();
  }

  lemma TabbedNeverMatches(level: nat)
    requires level < 9
    ensures NeverMatches(TABBED, Separator(level))
  {
    var sep := Separator(level);
    forall i: nat ensures !MatchesAt(TABBED, i, sep) {
      if i + |sep| <= |TABBED| { assert TABBED[i..i + |sep|][0] == TABBED[i] && sep[0] != TABBED[i]; }
    }
  }

  lemma TabbedScan()
    ensures Scan(TABBED, " ", 0, 0, 7) == [Span(0, 2), Span(2, 6), Span(6, 7)]
  {
    hide Scan;
    assert |TABBED| == 7;
    ScanWord(TABBED, 0, 1);
    ScanWord(TABBED, 2, 5);
    ScanLast(TABBED, 6);
  }

  lemma TabbedStrides()
    ensures Strides(2, 6, 2) == [Span(2, 4), Span(4, 6)]
  {
    assert Strides(6, 6, 2) == [];
    assert Strides(4, 6, 2) == [Span(4, 6)];
  }

  lemma TabbedJoin()
    requires Pieces(TABBED, 2, 0, 0, 2, 10) == [Span(0, 2)] && Pieces(TABBED, 2, 0, 6, 7, 10) == [Span(6, 7)]
    requires Pieces(TABBED, 2, 0, 2, 6, 10) == [Span(2, 4), Span(4, 6)]
    ensures PiecesOfAll(TABBED, 2, 0, [Span(0, 2), Span(2, 6), Span(6, 7)], 10)
            == [Span(0, 2), Span(2, 4), Span(4, 6), Span(6, 7)]
  {
    hide Pieces;
    var all := [Span(0, 2), Span(2, 6), Span(6, 7)];
    assert all[1..] == [Span(2, 6), Span(6, 7)] && all[1..][1..] == [Span(6, 7)];
    assert PiecesOfAll(TABBED, 2, 0, [], 10) == [];
    assert [Span(6, 7)][1..] == [];
    assert PiecesOfAll(TABBED, 2, 0, [Span(6, 7)], 10) == [Span(6, 7)];
    assert [Span(2, 6), Span(6, 7)][1..] == [Span(6, 7)];
    assert PiecesOfAll(TABBED, 2, 0, [Span(2, 6), Span(6, 7)], 10) == [Span(2, 4), Span(4, 6), Span(6, 7)];
  }

  lemma TabbedSpans()
    ensures Spans(TABBED, 2, 0) == [Span(0, 2), Span(2, 4), Span(4, 6), Span(6, 7)]
  {
    hide Pieces, Closed, Current;
    TabbedPieces();
    NothingClosed(2, 0);
    var p, q, r, s := Span(0, 2), Span(2, 4), Span(4, 6), Span(6, 7);
    MergeOneMore(2, 0, [], p);
    assert [] + [p] == [p];
    MergeOneMore(2, 0, [p], q);
    MergeOneMore(2, 0, [p] + [q], r);
    MergeOneMore(2, 0, [p] + [q] + [r], s);
    assert [p] + [q] + [r] + [s] == [p, q, r, s];
  }

  /** So the equivalence cannot be stated of chunks in general: here the span that ends inside the
      word is blank and is dropped. */
  lemma TabsHideALongWord() returns (chunks: seq<Chunk>)
    ensures Splits(TABBED, 2, 0, Ok(chunks)) && ChunksEndAtWords(TABBED, chunks) && !ShortWords(TABBED, 2)
  {
    assert !ShortWords(TABBED, 2) by { assert !HasBreak(TABBED, 2, 2); }
    hide ShortWords, Splits;
    chunks := TabbedOutcome();
    TabbedSpans();
    TabbedChunks(chunks);
  }

  lemma TabbedOutcome() returns (chunks: seq<Chunk>)
    ensures Splits(TABBED, 2, 0, Ok(chunks))
  {
    hide Spans, NoViolation, Numbered, NonBlank, Charge;
    var spans := Spans(TABBED, 2, 0);
    TabbedSpans();
    ModerateOverlapInBudget(TABBED, 2, 0);
    FewSpansClear(TABBED, spans, Budget(TABBED, 2));
    chunks := Numbered(TABBED, NonBlank(TABBED, spans));
    TabbedBytes();
    assert !IsWhitespace(TABBED[0]);
  }

  lemma TabbedBytes()
    ensures Bytes(TABBED) <= 4 * |TABBED| <= MAX_DOCUMENT_BYTES
  {
  }

  lemma TabbedChunks(chunks: seq<Chunk>)
    requires Splits(TABBED, 2, 0, Ok(chunks)) && Spans(TABBED, 2, 0) == [Span(0, 2), Span(2, 4), Span(4, 6), Span(6, 7)]
    ensures ChunksEndAtWords(TABBED, chunks)
  {
    hide Spans, NoViolation;
    assert !IsWhitespace(TABBED[0]);
    var spans := Spans(TABBED, 2, 0);
    var at := NonBlankAt(TABBED, spans);
    TabsAreBlank();
    hide Blank, IsWhitespace, WordBoundary, NonBlank;
    forall k | 0 <= k < |chunks| ensures WordBoundary(TABBED, chunks[k].end) {
      assert !Blank(TABBED, spans[at[k]]) && chunks[k].end == spans[at[k]].end;
    }
  }

  lemma TabsAreBlank()
    ensures Blank(TABBED, Span(2, 4))
    ensures WordBoundary(TABBED, 2) && WordBoundary(TABBED, 6) && WordBoundary(TABBED, 7)
  {
  }
}
