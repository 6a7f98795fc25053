/** Text without whitespace: the character fallback makes every carried overlap exact, which decides
    exactly which geometries have such a document refused for its budget. */
module ChunkSolid {
  import opened Arithmetic
  import opened Text
  import opened ChunkSpec
  import opened ChunkSplitter
  import opened ChunkChain
  import opened ChunkBudget

  predicate Solid(text: string) {
    forall i :: 0 <= i < |text| ==> !IsWhitespace(text[i])
  }

  lemma SolidNeverMatches(text: string, level: nat)
    requires Solid(text) && level < LEVELS
    ensures NeverMatches(text, Separator(level))
  {
    var sep := Separator(level);
    var last := |sep| - 1;
    assert IsWhitespace(sep[last]);
    forall i: nat ensures !MatchesAt(text, i, sep) {
      if i + |sep| <= |text| {
        assert text[i..i + |sep|][last] == text[i + last];
      }
    }
  }

  lemma SolidPieces(text: string, size: nat, overlap: nat)
    requires Solid(text) && overlap < size < |text|
    ensures Pieces(text, size, overlap, 0, |text|, 0) == Strides(0, |text|, size - overlap)
  {
    hide Pieces, NeverMatches;
    forall l: nat | l < LEVELS ensures NeverMatches(text, Separator(l)) { SolidNeverMatches(text, l); }
    LevelsFallThrough(text, size, overlap, LEVELS);
    PiecesAtFallback(text, size, overlap, 0, |text|);
  }

  /** Each span starts exactly `overlap` characters before the end of the previous one. */
  predicate ExactOverlap(overlap: nat, spans: seq<Span>) {
    forall k :: 0 < k < |spans| ==> spans[k - 1].end == spans[k].start + overlap
  }

  /** A whole number of strides. */
  predicate Steps(a: nat, step: nat)
    requires step >= 1
  {
    a == 0 || (a >= step && Steps(a - step, step))
  }

  lemma {:induction false} StepsFill(a: nat, step: nat, size: nat)
    requires step >= 1 && Steps(a, step) && a <= size < a + step
    ensures a == Share(size, step) * step
  {
    var j := StepsCount(a, step);
    ShareIsMost(size, step, j);
    ShareIsMost(size, step, j + 1);
    OneMore(j, step);
  }

  lemma {:induction false} StepsCount(a: nat, step: nat) returns (j: nat)
    requires step >= 1 && Steps(a, step)
    ensures a == j * step
  {
    if a == 0 {
      j := 0;
    } else {
      j := StepsCount(a - step, step);
      OneMore(j, step);
      j := j + 1;
    }
  }

  /** After whole strides only: a first span of them from 0, every later one full. */
  predicate Whole(size: nat, overlap: nat, spans: seq<Span>) {
    && overlap < size
    && spans != [] && spans[0].start == 0 < spans[0].end <= size && Steps(spans[0].end, size - overlap)
    && ExactOverlap(overlap, spans)
    && (forall k :: 0 < k < |spans| ==> spans[k].end == spans[k].start + size)
  }

  /** The same, except that the last span may be short. */
  predicate WholeButLast(size: nat, overlap: nat, spans: seq<Span>) {
    && overlap < size
    && spans != [] && spans[0].start == 0 && (|spans| > 1 ==> Steps(spans[0].end, size - overlap))
    && ExactOverlap(overlap, spans)
    && (forall k :: 0 < k < |spans| - 1 ==> spans[k].end == spans[k].start + size)
  }

  lemma WholeHasShortTail(size: nat, overlap: nat, spans: seq<Span>)
    requires Whole(size, overlap, spans)
    ensures WholeButLast(size, overlap, spans)
  {
  }

  /** One more stride, whole or cut short by the end of the text. */
  lemma StrideStep(size: nat, overlap: nat, closed: seq<Span>, cur: Span, p: Span)
    requires overlap < size && Whole(size, overlap, closed + [cur])
    requires cur.end == p.start < p.end <= p.start + (size - overlap)
    ensures var full := p.end == p.start + (size - overlap);
            var after := if Fits(size, cur, p) then closed + [Span(cur.start, p.end)]
                         else (closed + [cur]) + [Span(NextStart(size, overlap, cur, p), p.end)];
            && WholeButLast(size, overlap, after)
            && (full ==> Whole(size, overlap, after))
            && (Fits(size, cur, p) ==> closed == [])
  {
    var before := closed + [cur];
    assert before[|closed|] == cur;
    assert forall k :: 0 <= k < |closed| ==> before[k] == closed[k];
    assert closed != [] ==> cur.end == cur.start + size;
    if !Fits(size, cur, p) {
      assert NextStart(size, overlap, cur, p) + overlap == cur.end;
      var after := before + [Span(cur.end - overlap, p.end)];
      forall k | 0 < k < |after| ensures after[k - 1].end == after[k].start + overlap {
        if k < |before| { assert after[k - 1] == before[k - 1] && after[k] == before[k]; }
      }
      forall k | 0 < k < |before| ensures after[k].end == after[k].start + size {
        assert after[k] == before[k];
      }
    }
  }

  lemma OneStride(size: nat, overlap: nat, ps: seq<Span>, p: Span)
    requires overlap < size && ps != [] && Whole(size, overlap, Attempted(size, overlap, ps))
    requires Current(size, overlap, ps).end == p.start < p.end <= p.start + (size - overlap)
    ensures WholeButLast(size, overlap, Attempted(size, overlap, ps + [p])) && Current(size, overlap, ps + [p]).end == p.end
    ensures p.end == p.start + (size - overlap) ==> Whole(size, overlap, Attempted(size, overlap, ps + [p]))
  {
    hide Closed, Current, Whole, WholeButLast;
    MergeOneMore(size, overlap, ps, p);
    StrideStep(size, overlap, Closed(size, overlap, ps), Current(size, overlap, ps), p);
  }

  /** Merging the strides of a solid text, from a state reached by whole strides. */
  lemma {:induction false} StridesMerge(size: nat, overlap: nat, ps: seq<Span>, a: nat, n: nat)
    requires overlap < size && ps != [] && a <= n
    requires Whole(size, overlap, Attempted(size, overlap, ps)) && Current(size, overlap, ps).end == a
    ensures WholeButLast(size, overlap, Attempted(size, overlap, ps + Strides(a, n, size - overlap)))
    decreases n - a
  {
    hide Attempted, Current, Whole, WholeButLast;
    var step := size - overlap;
    if a == n {
      assert ps + Strides(a, n, step) == ps;
      WholeHasShortTail(size, overlap, Attempted(size, overlap, ps));
    } else {
      var q := if a + step <= n then a + step else n;
      var p := Span(a, q);
      OneStride(size, overlap, ps, p);
      if q == a + step {
        StridesMerge(size, overlap, ps + [p], q, n);
        assert (ps + [p]) + Strides(q, n, step) == ps + Strides(a, n, step);
      } else {
        assert Strides(a, n, step) == [p] + Strides(n, n, step) == [p];
      }
    }
  }

  /** Every carried overlap is exact, and every span but the first and last is full. */
  lemma SolidSpansExact(text: string, size: nat, overlap: nat)
    requires Solid(text) && overlap < size < |text|
    ensures WholeButLast(size, overlap, Spans(text, size, overlap))
  {
    hide Pieces, Closed, WholeButLast;
    SolidPieces(text, size, overlap);
    var step := size - overlap;
    var first := [Span(0, step)];
    NothingClosed(size, overlap);
    MergeOneMore(size, overlap, [], Span(0, step));
    assert [] + first == first;
    assert Attempted(size, overlap, first) == first;
    assert Whole(size, overlap, first) by { assert Steps(step - step, step); }
    StridesMerge(size, overlap, first, step, |text|);
    assert Strides(0, |text|, step) == first + Strides(step, |text|, step);
  }

  lemma {:induction false} SolidKeepsAll(text: string, spans: seq<Span>)
    requires Solid(text) && forall k :: 0 <= k < |spans| ==> spans[k].start < spans[k].end <= |text|
    ensures NonBlank(text, spans) == spans
  {
    if spans != [] {
      var s := spans[|spans| - 1];
      SolidKeepsAll(text, spans[..|spans| - 1]);
      assert !IsWhitespace(text[s.start]);
      assert spans == spans[..|spans| - 1] + [s];
    }
  }

  /** As delivered: consecutive chunks share exactly `overlap` characters, and every
      chunk but the first and last holds exactly `size`. */
  lemma SolidChunksExact(text: string, size: int, overlap: int, chunks: seq<Chunk>)
    requires Solid(text) && 0 <= overlap < size < |text| && Splits(text, size, overlap, Ok(chunks))
    ensures forall k :: 0 < k < |chunks| ==> chunks[k - 1].end == chunks[k].start + overlap
    ensures forall k :: 0 < k < |chunks| - 1 ==> chunks[k].end == chunks[k].start + size
    ensures chunks != [] && chunks[0].start == 0 && chunks[|chunks| - 1].end == |text|
  {
    assert !IsWhitespace(text[0]);
    hide Spans, IsWhitespace;
    var spans := Spans(text, size, overlap);
    SolidSpansExact(text, size, overlap);
    SpansChain(text, size, overlap);
    SolidKeepsAll(text, spans);
  }

  // ---- the budget on solid text ----

  /** Where the first span of a longer text ends: the whole strides that fit in a chunk. */
  function FirstEnd(size: nat, overlap: nat): (e: nat)
    requires overlap < size
    ensures e <= size < e + (size - overlap)
  {
    Share(size, size - overlap) * (size - overlap)
  }

  /** Every span but the last ends at a fixed place, and the last within a stride of the one before. */
  lemma {:induction false} SolidEnds(size: nat, overlap: nat, spans: seq<Span>, k: nat)
    requires WholeButLast(size, overlap, spans) && Chain(size, overlap, spans) && |spans| > 1 && k < |spans|
    ensures var step, e := size - overlap, FirstEnd(size, overlap);
            && (k < |spans| - 1 ==> spans[k].end == e + Times(k, step))
            && (k > 0 ==> e + Times(k - 1, step) < spans[k].end <= e + Times(k, step))
  {
    hide FirstEnd, Times, Steps;
    var step := size - overlap;
    if k == 0 {
      FirstSpanEnds(size, overlap, spans);
      TimesNext(0, step);
    } else {
      SolidEnds(size, overlap, spans, k - 1);
      assert Follows(size, overlap, spans[k - 1], spans[k]);
      assert spans[k].end <= spans[k].start + size;
      TimesNext(k - 1, step);
    }
  }

  lemma FirstSpanEnds(size: nat, overlap: nat, spans: seq<Span>)
    requires WholeButLast(size, overlap, spans) && Chain(size, overlap, spans) && |spans| > 1
    ensures spans[0].end == FirstEnd(size, overlap)
  {
    assert Follows(size, overlap, spans[0], spans[1]);
    assert spans[0].end == spans[1].start + overlap;
    assert spans[0].end <= size && spans[1].end <= spans[1].start + size;
    StepsFill(spans[0].end, size - overlap, size);
  }

  /** Exact overlaps charge exactly one overlap a span. */
  lemma {:induction false} ExactCharge(overlap: nat, spans: seq<Span>)
    requires spans != [] && spans[0].start == 0 && ExactOverlap(overlap, spans)
    requires forall k :: 0 <= k < |spans| ==> spans[k].start <= spans[k].end
    ensures Charge(spans) == spans[|spans| - 1].end + Times(|spans| - 1, overlap)
  {
    hide Times;
    var k := |spans| - 1;
    ChargeSnoc(spans);
    if k == 0 {
      assert spans[..0] == [];
      TimesNext(0, overlap);
    } else {
      ExactCharge(overlap, spans[..k]);
      assert spans[k - 1].end == spans[k].start + overlap;
      TimesNext(k - 1, overlap);
    }
  }

  /** The spans of a solid document longer than a chunk, and what any number of them charges. */
  lemma SolidSpans(text: string, size: nat, overlap: nat, k: nat)
    requires Solid(text) && overlap < size < |text| && 1 <= k <= |Spans(text, size, overlap)|
    ensures var spans, step, e := Spans(text, size, overlap), size - overlap, FirstEnd(size, overlap);
            && |spans| > 1 && spans[|spans| - 1].end == |text|
            && (k > 1 ==> e + Times(k - 2, step) < spans[k - 1].end <= e + Times(k - 1, step))
            && spans[k - 1].end <= |text|
            && Charge(spans[..k]) == spans[k - 1].end + Times(k - 1, overlap)
            && NonBlank(text, spans[..k]) == spans[..k]
  {
    hide Spans, Charge, FirstEnd, Times, Chain, WholeButLast, NonBlank, Solid;
    var spans := Spans(text, size, overlap);
    SolidSpansExact(text, size, overlap);
    SpansChain(text, size, overlap);
    if |spans| == 1 { OneSpanFits(size, overlap, spans); }
    assert |spans| > 1;
    SolidEnds(size, overlap, spans, k - 1);
    SolidPrefix(text, size, overlap, spans, k);
  }

  lemma OneSpanFits(size: nat, overlap: nat, spans: seq<Span>)
    requires Chain(size, overlap, spans) && |spans| == 1 && spans[0].start == 0
    ensures spans[0].end <= size
  {
  }

  lemma SolidPrefix(text: string, size: nat, overlap: nat, spans: seq<Span>, k: nat)
    requires Solid(text) && WholeButLast(size, overlap, spans) && Chain(size, overlap, spans) && 1 <= k <= |spans|
    requires forall j :: 0 <= j < |spans| ==> spans[j].end <= |text|
    ensures Charge(spans[..k]) == spans[k - 1].end + Times(k - 1, overlap) && NonBlank(text, spans[..k]) == spans[..k]
  {
    hide Charge, Times, Solid, NonBlank, Steps, WholeButLast, Chain, ExactOverlap;
    PrefixIsExact(size, overlap, spans, k);
    ExactCharge(overlap, spans[..k]);
    SolidKeepsAll(text, spans[..k]);
  }

  lemma PrefixIsExact(size: nat, overlap: nat, spans: seq<Span>, k: nat)
    requires WholeButLast(size, overlap, spans) && Chain(size, overlap, spans) && 1 <= k <= |spans|
    ensures var some := spans[..k];
            && some[0].start == 0 && ExactOverlap(overlap, some)
            && forall j :: 0 <= j < k ==> some[j] == spans[j] && some[j].start < some[j].end
  {
    hide Steps;
    var some := spans[..k];
    assert forall j :: 0 <= j < k ==> some[j] == spans[j];
    forall j | 0 < j < k ensures some[j - 1].end == some[j].start + overlap {
      assert spans[j - 1].end == spans[j].start + overlap;
    }
  }

  /** Length of the shortest solid document with `q + 2` spans. */
  function SolidLength(size: nat, overlap: nat, q: nat): nat
    requires overlap < size
  {
    FirstEnd(size, overlap) + Times(q, size - overlap) + 1
  }

  /** A solid document of `q + 2` spans, no longer than it must be, fits both caps and exhausts the
      budget. */
  predicate SolidExhausts(size: nat, overlap: nat, q: nat)
    requires overlap < size
  {
    && q < MAX_CHUNKS_PER_DOCUMENT
    && SolidLength(size, overlap, q) <= MAX_DOCUMENT_BYTES
    && Times(q + 1, overlap) > 3 * SolidLength(size, overlap, q)
  }

  /** The same, before any document: as many strides as the largest document and the chunk cap allow. */
  predicate SolidCanExhaust(size: nat, overlap: nat)
    requires overlap < size
  {
    var step, e := size - overlap, FirstEnd(size, overlap);
    && e < MAX_DOCUMENT_BYTES
    && Enough(MostStrides(size, overlap), 4 * overlap - 3 * size, overlap, e)
  }

  /** `q` strides of `gain` each, past the first two spans, exhaust the budget. */
  predicate Enough(q: nat, gain: int, overlap: nat, e: nat) { q * gain + overlap > 3 * (e + 1) }

  lemma EnoughGrows(q: nat, most: nat, gain: nat, overlap: nat, e: nat)
    requires q <= most && Enough(q, gain, overlap, e)
    ensures Enough(most, gain, overlap, e)
  {
    Grows(q, most, gain, gain);
  }

  function MostStrides(size: nat, overlap: nat): (q: nat)
    requires overlap < size && FirstEnd(size, overlap) < MAX_DOCUMENT_BYTES
  {
    var room := Share(MAX_DOCUMENT_BYTES - FirstEnd(size, overlap) - 1, size - overlap);
    if room < MAX_CHUNKS_PER_DOCUMENT then room else MAX_CHUNKS_PER_DOCUMENT - 1
  }

  lemma SolidExhaustsIs(size: nat, overlap: nat, q: nat)
    requires overlap < size
    ensures Times(q + 1, overlap) > 3 * SolidLength(size, overlap, q)
            <==> Enough(q, 4 * overlap - 3 * size, overlap, FirstEnd(size, overlap))
  {
    hide FirstEnd;
    Twice(q, overlap);
    Spread(q, overlap, size - overlap);
    assert 4 * overlap - 3 * size == overlap - 3 * (size - overlap);
  }

  lemma SolidExhaustsPositively(size: nat, overlap: nat, q: nat)
    requires overlap < size && Enough(q, 4 * overlap - 3 * size, overlap, FirstEnd(size, overlap))
    ensures 4 * overlap > 3 * size && q > 0
  {
    hide FirstEnd;
    PositiveFactor(q, 4 * overlap - 3 * size);
  }

  lemma SolidCanExhaustIs(size: nat, overlap: nat)
    requires overlap < size
    ensures SolidCanExhaust(size, overlap) <==> exists q: nat :: SolidExhausts(size, overlap, q)
  {
    hide SolidExhausts, SolidCanExhaust;
    if SolidCanExhaust(size, overlap) {
      var q := SomeSolidExhausts(size, overlap);
    }
    if q: nat :| SolidExhausts(size, overlap, q) {
      EachSolidCanExhaust(size, overlap, q);
    }
  }

  lemma SomeSolidExhausts(size: nat, overlap: nat) returns (q: nat)
    requires overlap < size && SolidCanExhaust(size, overlap)
    ensures SolidExhausts(size, overlap, q)
  {
    q := MostStrides(size, overlap);
    MostStridesFit(size, overlap);
    hide FirstEnd, MostStrides, Enough, Times, SolidLength;
    SolidExhaustsIs(size, overlap, q);
  }

  lemma MostStridesFit(size: nat, overlap: nat)
    requires overlap < size && FirstEnd(size, overlap) < MAX_DOCUMENT_BYTES
    ensures var q := MostStrides(size, overlap);
            q < MAX_CHUNKS_PER_DOCUMENT && SolidLength(size, overlap, q) <= MAX_DOCUMENT_BYTES
  {
    var q, step := MostStrides(size, overlap), size - overlap;
    hide FirstEnd, Share;
    ShareIsMost(MAX_DOCUMENT_BYTES - FirstEnd(size, overlap) - 1, step, q);
  }

  lemma EachSolidCanExhaust(size: nat, overlap: nat, q: nat)
    requires overlap < size && SolidExhausts(size, overlap, q)
    ensures SolidCanExhaust(size, overlap)
  {
    hide FirstEnd, MostStrides, Enough, Times, SolidLength;
    SolidExhaustsIs(size, overlap, q);
    SolidExhaustsPositively(size, overlap, q);
    FirstSpanIsShorter(size, overlap, q);
    MostStridesIsMost(size, overlap, q);
    EnoughGrows(q, MostStrides(size, overlap), 4 * overlap - 3 * size, overlap, FirstEnd(size, overlap));
  }

  lemma FirstSpanIsShorter(size: nat, overlap: nat, q: nat)
    requires overlap < size
    ensures FirstEnd(size, overlap) < SolidLength(size, overlap, q)
  {
    hide FirstEnd, Times;
  }

  lemma MostStridesIsMost(size: nat, overlap: nat, q: nat)
    requires overlap < size && q < MAX_CHUNKS_PER_DOCUMENT
    requires FirstEnd(size, overlap) < MAX_DOCUMENT_BYTES && SolidLength(size, overlap, q) <= MAX_DOCUMENT_BYTES
    ensures q <= MostStrides(size, overlap)
  {
    hide FirstEnd, Share;
    ShareIsMost(MAX_DOCUMENT_BYTES - FirstEnd(size, overlap) - 1, size - overlap, q);
  }

  lemma SolidRefusedExhausts(text: string, size: nat, overlap: nat)
    requires overlap < size && Solid(text) && BudgetRefused(text, size, overlap)
    ensures exists q: nat :: SolidExhausts(size, overlap, q)
  {
    hide Spans, Charge, NoViolation, Solid, FirstEnd, Times, NonBlank, OverCount;
    var chars, budget :| Splits(text, size, overlap, Err(OutputBudgetExceeded(chars, budget)));
    var spans, e := Spans(text, size, overlap), OutputBudgetExceeded(chars, budget);
    var k :| 0 <= k <= |spans| && ViolatesLast(text, spans[..k], Budget(text, size), e);
    if |text| <= size {
      ShortText(text, size, overlap);
      ChargeGrows(spans, k);
    } else {
      SolidSpans(text, size, overlap, k);
      TimesNext(0, overlap);
      assert k > 1;
      CountWithinCap(text, spans[..k][..k - 1], Budget(text, size));
      assert spans[..k][..k - 1] == spans[..k - 1];
      SolidSpans(text, size, overlap, k - 1);
      assert SolidExhausts(size, overlap, k - 2);
    }
  }

  lemma SolidRefused(size: nat, overlap: nat, q: nat) returns (text: string)
    requires overlap < size && SolidExhausts(size, overlap, q)
    ensures Solid(text) && BudgetRefused(text, size, overlap)
  {
    hide Spans, Charge, NoViolation, FirstEnd, Splits, Times, Enough;
    var n := SolidLength(size, overlap, q);
    SolidExhaustsIs(size, overlap, q);
    SolidExhaustsPositively(size, overlap, q);
    TimesNext(0, size - overlap);
    TimesGrows(1, q, size - overlap);
    text := seq(n, _ => 'z');
    SolidBytes(text);
    assert !IsWhitespace(text[0]);
    SolidCounts(text, size, overlap, q);
    var r := OutcomeExists(text, size, overlap);
    OverBudgetRefused(text, size, overlap, r);
    SolidUncapped(text, size, overlap, r.error);
  }

  lemma {:induction false} SolidBytes(text: string)
    requires forall i :: 0 <= i < |text| ==> text[i] == 'z'
    ensures Bytes(text) == |text|
  {
    if text != [] { SolidBytes(text[1..]); }
  }

  lemma SolidCounts(text: string, size: nat, overlap: nat, q: nat)
    requires Solid(text) && overlap < size < |text| && SolidExhausts(size, overlap, q)
    requires |text| == SolidLength(size, overlap, q)
    ensures |Spans(text, size, overlap)| == q + 2 && !InBudget(text, size, overlap)
  {
    hide Spans, Charge, FirstEnd, Solid, Times, NonBlank;
    var spans := Spans(text, size, overlap);
    SpansChain(text, size, overlap);
    SolidSpans(text, size, overlap, |spans|);
    StrideCount(q, |spans| - 2, size - overlap);
    assert spans[..|spans|] == spans;
  }

  lemma StrideCount(q: nat, j: nat, step: nat)
    requires step >= 1 && Times(j, step) < Times(q, step) + 1 <= Times(j + 1, step)
    ensures j == q
  {
    hide Times;
    TimesNext(q, step);
    if j < q { TimesGrows(j + 1, q, step); }
    if j > q { TimesGrows(q + 1, j, step); }
  }

  lemma SolidUncapped(text: string, size: nat, overlap: nat, e: SplitError)
    requires Solid(text) && overlap < size < |text| && Bytes(text) <= MAX_DOCUMENT_BYTES
    requires !InBudget(text, size, overlap) && |Spans(text, size, overlap)| <= MAX_CHUNKS_PER_DOCUMENT + 1
    requires Splits(text, size, overlap, Err(e))
    ensures e.OutputBudgetExceeded?
  {
    assert !IsWhitespace(text[0]);
    hide Spans, Charge, NoViolation, Solid, IsWhitespace, ViolatesLast;
    var spans, budget := Spans(text, size, overlap), Budget(text, size);
    var k :| 0 <= k <= |spans| && ViolatesLast(text, spans[..k], budget, e);
    FewSpansUncapped(text, spans, budget, k, e);
  }

  /** With at most one span more than the cap, a charge over the budget is reported as such. */
  lemma FewSpansUncapped(text: string, spans: seq<Span>, budget: nat, k: nat, e: SplitError)
    requires Charge(spans) > budget && |spans| <= MAX_CHUNKS_PER_DOCUMENT + 1
    requires k <= |spans| && ViolatesLast(text, spans[..k], budget, e)
    ensures e.OutputBudgetExceeded?
  {
    hide Charge, NoViolation, NonBlank;
    NonBlankIsFewer(text, spans[..k][..k - 1]);
    if k == |spans| { assert spans[..k] == spans; }
  }

  /** Some document without whitespace is refused for its budget if and only if the arithmetic says so. */
  lemma SolidRefusalsExact(size: nat, overlap: nat)
    requires overlap < size
    ensures (exists text :: Solid(text) && BudgetRefused(text, size, overlap)) <==> SolidCanExhaust(size, overlap)
  {
    hide BudgetRefused, SolidExhausts, SolidCanExhaust, Solid;
    SolidCanExhaustIs(size, overlap);
    if text :| Solid(text) && BudgetRefused(text, size, overlap) {
      SolidRefusedExhausts(text, size, overlap);
    }
    if q: nat :| SolidExhausts(size, overlap, q) {
      var text := SolidRefused(size, overlap, q);
    }
  }

  /** Up to three quarters no document without whitespace is refused for its budget; past it, at chunk
      sizes up to 3,000, some such document is. */
  lemma ThreeQuarters(size: nat, overlap: nat)
    requires overlap < size
    ensures (exists text :: Solid(text) && BudgetRefused(text, size, overlap)) ==> 4 * overlap > 3 * size
    ensures size <= 3_000 && 4 * overlap > 3 * size ==> exists text :: Solid(text) && BudgetRefused(text, size, overlap)
  {
    hide FirstEnd, MostStrides, BudgetRefused, Solid;
    SolidRefusalsExact(size, overlap);
    if SolidCanExhaust(size, overlap) {
      SolidExhaustsPositively(size, overlap, MostStrides(size, overlap));
    }
    if size <= 3_000 && 4 * overlap > 3 * size {
      SmallChunksExhaust(size, overlap);
    }
  }

  lemma SmallChunksExhaust(size: nat, overlap: nat)
    requires overlap < size <= 3_000 && 4 * overlap > 3 * size
    ensures SolidCanExhaust(size, overlap)
  {
    hide FirstEnd, SolidCanExhaust, SolidExhausts;
    var q := 3 * size + 4;
    SolidExhaustsIs(size, overlap, q);
    Grows(q, q, 1, 4 * overlap - 3 * size);
    Grows(q, 9_004, size - overlap, 750);
    FitsBothCaps(size, overlap, q);
    SolidCanExhaustIs(size, overlap);
  }

  lemma FitsBothCaps(size: nat, overlap: nat, q: nat)
    requires overlap < size <= 3_000 && q == 3 * size + 4 && q * (size - overlap) <= 9_004 * 750
    requires Times(q + 1, overlap) > 3 * SolidLength(size, overlap, q)
    ensures SolidExhausts(size, overlap, q)
  {
    hide Share;
  }

  /** Large chunks meet a cap first, even past three quarters. */
  lemma LargeChunksMeetACap(text: string)
    requires Solid(text)
    ensures 4 * 75_001 > 3 * 100_000 && !BudgetRefused(text, 100_000, 75_001)
  {
    hide MostStrides, BudgetRefused, Solid;
    SolidRefusalsExact(100_000, 75_001);
    var q := MostStrides(100_000, 75_001);
    MostStridesFit(100_000, 75_001);
    assert q * (4 * 75_001 - 3 * 100_000) == 4 * q;
  }

  /** A text that fits in one chunk is one span. */
  lemma ShortText(text: string, size: nat, overlap: nat)
    requires overlap < size && |text| <= size
    ensures Charge(Spans(text, size, overlap)) == |text|
  {
    PiecesThatFit(text, size, overlap, 0, |text|, 0);
    if text != [] {
      assert Spans(text, size, overlap) == [Span(0, |text|)];
      ChargeSnoc([Span(0, |text|)]);
    }
  }
}
