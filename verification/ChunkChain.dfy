/** What every document may rely on: the attempted spans form a strictly advancing
    chain over the whole text, and the chunks delivered keep every non-blank character. */
module ChunkChain {
  import opened Text
  import opened ChunkSpec
  import opened ChunkSplitter

  /** `b` advances past `a`, shares at most `overlap` characters with it, and the two
      together are longer than one chunk. */
  predicate Follows(size: nat, overlap: nat, a: Span, b: Span) {
    && a.start < b.start <= a.end < b.end
    && a.end - b.start <= overlap
    && b.end - a.start > size
  }

  ghost predicate Chain(size: nat, overlap: nat, spans: seq<Span>) {
    && (forall k :: 0 <= k < |spans| ==> spans[k].start < spans[k].end <= spans[k].start + size)
    && (forall k :: 0 < k < |spans| ==> Follows(size, overlap, spans[k - 1], spans[k]))
  }

  /** Merging a piece stream yields a chain from the first piece's start to the last one's end. */
  lemma {:induction false} MergeChains(size: nat, overlap: nat, ps: seq<Span>, n: nat)
    requires ps != [] && Stream(ps, size, n)
    ensures var spans := Attempted(size, overlap, ps);
            && Chain(size, overlap, spans)
            && spans[0].start == ps[0].start && spans[|spans| - 1].end == ps[|ps| - 1].end
  {
    hide Closed, Current, Chain;
    var init, p := ps[..|ps| - 1], ps[|ps| - 1];
    assert init + [p] == ps;
    MergeOneMore(size, overlap, init, p);
    if init == [] {
      ChainOfOne(size, overlap, p);
    } else {
      MergeChains(size, overlap, init, n);
      ChainStep(size, overlap, Closed(size, overlap, init), Current(size, overlap, init), p);
    }
  }

  lemma ChainOfOne(size: nat, overlap: nat, p: Span)
    requires p.start < p.end <= p.start + size
    ensures Chain(size, overlap, [] + [p])
  {
  }

  /** Extending or following the last span of a chain keeps it a chain. */
  lemma ChainStep(size: nat, overlap: nat, closed: seq<Span>, cur: Span, p: Span)
    requires Chain(size, overlap, closed + [cur])
    requires cur.end == p.start < p.end <= p.start + size
    ensures Fits(size, cur, p) ==> Chain(size, overlap, closed + [Span(cur.start, p.end)])
    ensures !Fits(size, cur, p) ==>
              Chain(size, overlap, (closed + [cur]) + [Span(NextStart(size, overlap, cur, p), p.end)])
  {
    var before := closed + [cur];
    assert forall k :: 0 <= k < |closed| ==> before[k] == closed[k];
    assert before[|closed|] == cur;
    if Fits(size, cur, p) {
      var after := closed + [Span(cur.start, p.end)];
      forall k | 0 < k < |after| ensures Follows(size, overlap, after[k - 1], after[k]) {
        assert Follows(size, overlap, before[k - 1], before[k]);
      }
    } else {
      var next := Span(NextStart(size, overlap, cur, p), p.end);
      assert Follows(size, overlap, cur, next);
      var after := before + [next];
      forall k | 0 < k < |after| ensures Follows(size, overlap, after[k - 1], after[k]) {
        if k < |before| { assert Follows(size, overlap, before[k - 1], before[k]); }
      }
    }
  }

  /** The attempted spans of any document chain over it from 0 to its length. */
  lemma SpansChain(text: string, size: nat, overlap: nat)
    requires overlap < size
    ensures var spans := Spans(text, size, overlap);
            && Chain(size, overlap, spans)
            && (forall k :: 0 <= k < |spans| ==> spans[k].end <= |text|)
            && (if text == [] then spans == []
                else spans != [] && spans[0].start == 0 && spans[|spans| - 1].end == |text|)
  {
    hide Pieces, Closed, Current;
    var ps := Pieces(text, size, overlap, 0, |text|, 0);
    PiecesTile(text, size, overlap, 0, |text|, 0);
    TilesInside(ps, 0, |text|);
    if ps != [] {
      MergeChains(size, overlap, ps, |text|);
      ChainEnds(size, overlap, Spans(text, size, overlap));
    }
  }

  lemma ChainEnds(size: nat, overlap: nat, spans: seq<Span>)
    requires Chain(size, overlap, spans) && spans != []
    ensures forall k :: 0 <= k < |spans| ==> spans[k].end <= spans[|spans| - 1].end
  {
    forall k | 0 <= k < |spans| - 1 ensures spans[k].end <= spans[|spans| - 1].end {
      ChainIncreases(size, overlap, spans, k, |spans| - 1);
    }
  }

  /** Starts and ends of a chain increase strictly over any distance. */
  lemma {:induction false} ChainIncreases(size: nat, overlap: nat, spans: seq<Span>, i: nat, j: nat)
    requires Chain(size, overlap, spans) && i < j < |spans|
    ensures spans[i].start < spans[j].start && spans[i].end < spans[j].end
    ensures spans[i].end <= spans[j].start + overlap
    decreases j
  {
    assert Follows(size, overlap, spans[j - 1], spans[j]);
    if i < j - 1 {
      ChainIncreases(size, overlap, spans, i, j - 1);
    }
  }

  /** Every offset under a chain lies in one of its spans. */
  lemma {:induction false} ChainCovers(size: nat, overlap: nat, spans: seq<Span>, i: nat) returns (k: nat)
    requires Chain(size, overlap, spans) && spans != []
    requires spans[0].start <= i < spans[|spans| - 1].end
    ensures k < |spans| && spans[k].start <= i < spans[k].end
  {
    k := |spans| - 1;
    if i < spans[k].start {
      assert Follows(size, overlap, spans[k - 1], spans[k]);
      k := ChainCovers(size, overlap, spans[..k], i);
    }
  }

  // ---- the kept spans ----

  /** The kept spans, by the index each had among the attempted ones. */
  ghost predicate KeptAt(text: string, spans: seq<Span>, kept: seq<Span>, at: seq<nat>)
  {
    && |at| == |kept|
    && (forall j :: 0 <= j < |at| ==> at[j] < |spans| && kept[j] == spans[at[j]] && !Blank(text, spans[at[j]]))
    && (forall j, k :: 0 <= j < k < |at| ==> at[j] < at[k])
    && (forall i :: 0 <= i < |spans| && !Blank(text, spans[i]) ==> i in at)
  }

  /** `NonBlank` keeps exactly the non-blank spans, in their order. */
  lemma {:induction false} NonBlankAt(text: string, spans: seq<Span>) returns (at: seq<nat>)
    ensures KeptAt(text, spans, NonBlank(text, spans), at)
  {
    if spans == [] {
      at := [];
    } else {
      hide NonBlank, KeptAt;
      var init, s := spans[..|spans| - 1], spans[|spans| - 1];
      assert init + [s] == spans;
      ExtendSpans(text, init, s);
      at := NonBlankAt(text, init);
      KeptAtStep(text, init, s, NonBlank(text, init), at);
      at := if Blank(text, s) then at else at + [|init|];
    }
  }

  lemma KeptAtStep(text: string, spans: seq<Span>, s: Span, kept: seq<Span>, at: seq<nat>)
    requires KeptAt(text, spans, kept, at)
    ensures if Blank(text, s) then KeptAt(text, spans + [s], kept + [], at)
            else KeptAt(text, spans + [s], kept + [s], at + [|spans|])
  {
    hide Blank;
    var more := spans + [s];
    assert kept + [] == kept;
    if !Blank(text, s) {
      var at' := at + [|spans|];
      assert at'[|at|] == |spans|;
      forall i | 0 <= i < |more| && !Blank(text, more[i]) ensures i in at' {
        if i < |spans| { assert i in at; }
      }
    }
  }

  /** What a caller may rely on when the split succeeds. */
  ghost predicate Sound(text: string, size: nat, overlap: nat, chunks: seq<Chunk>) {
    && |chunks| <= MAX_CHUNKS_PER_DOCUMENT
    && (forall k :: 0 <= k < |chunks| ==> SoundChunk(text, size, k, chunks[k]))
    && (forall j, k :: 0 <= j < k < |chunks| ==> Advances(overlap, chunks[j], chunks[k]))
    && (forall i :: 0 <= i < |text| && !IsWhitespace(text[i]) ==> Covered(chunks, i))
  }

  predicate SoundChunk(text: string, size: nat, k: nat, c: Chunk) {
    && c.number == k
    && c.start < c.end <= |text| && c.end - c.start <= size
    && c.text == text[c.start..c.end]
    && !AllWhitespace(c.text)
  }

  predicate Advances(overlap: nat, a: Chunk, b: Chunk) {
    a.start < b.start && a.end < b.end && a.end <= b.start + overlap
  }

  predicate Covered(chunks: seq<Chunk>, i: nat) {
    exists k :: 0 <= k < |chunks| && chunks[k].start <= i < chunks[k].end
  }

  /** Every successful split is sound: contiguous numbering, bounded non-blank exact
      substrings, strict progress, bounded overlap, and no non-blank character lost. */
  lemma SplitIsSound(text: string, size: int, overlap: int, chunks: seq<Chunk>)
    requires 0 <= overlap < size && Splits(text, size, overlap, Ok(chunks))
    ensures Sound(text, size, overlap, chunks)
  {
    hide Spans, Chain;
    if AllWhitespace(text) {
      assert chunks == [];
    } else {
      var spans := Spans(text, size, overlap);
      SpansChain(text, size, overlap);
      var at := NonBlankAt(text, spans);
      CountWithinCap(text, spans, Budget(text, size));
      KeptChunksSound(text, size, overlap, spans, chunks, at);
      forall i | 0 <= i < |text| && !IsWhitespace(text[i])
        ensures Covered(chunks, i)
      {
        CoveredByKept(text, size, overlap, spans, chunks, at, i);
      }
    }
  }

  lemma KeptChunksSound(text: string, size: nat, overlap: nat, spans: seq<Span>, chunks: seq<Chunk>, at: seq<nat>)
    requires Chain(size, overlap, spans) && forall k :: 0 <= k < |spans| ==> spans[k].end <= |text|
    requires chunks == Numbered(text, NonBlank(text, spans)) && KeptAt(text, spans, NonBlank(text, spans), at)
    ensures forall k :: 0 <= k < |chunks| ==> SoundChunk(text, size, k, chunks[k])
    ensures forall j, k :: 0 <= j < k < |chunks| ==> Advances(overlap, chunks[j], chunks[k])
  {
    hide NonBlank, Chain, Blank;
    forall k | 0 <= k < |chunks| ensures SoundChunk(text, size, k, chunks[k]) {
      ChainLength(size, overlap, spans, at[k]);
      NonBlankText(text, spans[at[k]]);
    }
    forall j, k | 0 <= j < k < |chunks|
      ensures Advances(overlap, chunks[j], chunks[k])
    {
      ChainIncreases(size, overlap, spans, at[j], at[k]);
    }
  }

  lemma CoveredByKept(text: string, size: nat, overlap: nat, spans: seq<Span>, chunks: seq<Chunk>, at: seq<nat>, i: nat)
    requires Chain(size, overlap, spans) && spans != []
    requires spans[0].start <= i < spans[|spans| - 1].end <= |text| && !IsWhitespace(text[i])
    requires chunks == Numbered(text, NonBlank(text, spans)) && KeptAt(text, spans, NonBlank(text, spans), at)
    ensures Covered(chunks, i)
  {
    hide NonBlank, Chain;
    var k := ChainCovers(size, overlap, spans, i);
    assert !Blank(text, spans[k]);
    assert k in at;
    var j :| 0 <= j < |at| && at[j] == k;
    assert chunks[j].start == spans[k].start;
  }

  lemma {:induction false} CountWithinCap(text: string, spans: seq<Span>, budget: nat)
    requires NoViolation(text, spans, budget)
    ensures |NonBlank(text, spans)| <= MAX_CHUNKS_PER_DOCUMENT && Charge(spans) <= budget
  {
    if spans != [] {
      CountWithinCap(text, spans[..|spans| - 1], budget);
    }
  }

  // ---- refusals and the blank fast path ----

  /** A budget refusal reports the first overrun: more than the budget, by at most one span. */
  lemma BudgetErrorReports(text: string, size: int, overlap: int, chars: nat, budget: nat)
    requires 0 <= overlap < size && Splits(text, size, overlap, Err(OutputBudgetExceeded(chars, budget)))
    ensures budget == Budget(text, size) && budget < chars <= budget + size
  {
    hide Spans, Chain;
    var spans := Spans(text, size, overlap);
    SpansChain(text, size, overlap);
    var e := OutputBudgetExceeded(chars, budget);
    var k :| 0 <= k <= |spans| && ViolatesLast(text, spans[..k], Budget(text, size), e);
    CountWithinCap(text, spans[..k][..k - 1], Budget(text, size));
    assert spans[..k][k - 1] == spans[k - 1];
    ChainLength(size, overlap, spans, k - 1);
  }

  lemma ChainLength(size: nat, overlap: nat, spans: seq<Span>, k: nat)
    requires Chain(size, overlap, spans) && k < |spans|
    ensures spans[k].start < spans[k].end <= spans[k].start + size
  {
  }

  lemma NonBlankText(text: string, s: Span)
    requires s.end <= |text| && s.start <= s.end && !Blank(text, s)
    ensures !AllWhitespace(Slice(text, s))
  {
    var i :| s.start <= i < s.end && !IsWhitespace(text[i]);
    assert Slice(text, s)[i - s.start] == text[i];
  }

  /** The all-whitespace fast path answers what the general path would, whenever that
      does not run out of budget. */
  lemma {:induction false} BlankFastPathAgrees(text: string, spans: seq<Span>, budget: nat)
    requires AllWhitespace(text)
    ensures NonBlank(text, spans) == []
    ensures NoViolation(text, spans, budget) ==> Delivers(text, spans, budget, Ok([]))
    ensures !Delivers(text, spans, budget, Err(TooManyChunks(MAX_CHUNKS_PER_DOCUMENT)))
  {
    if spans != [] {
      BlankFastPathAgrees(text, spans[..|spans| - 1], budget);
      assert Blank(text, spans[|spans| - 1]);
    }
    forall k | 0 <= k <= |spans|
      ensures !ViolatesLast(text, spans[..k], budget, TooManyChunks(MAX_CHUNKS_PER_DOCUMENT))
    {
      if k > 0 { assert Blank(text, spans[..k][k - 1]); }
    }
  }

  /** The contract admits one outcome only. */
  lemma OutcomeIsUnique(text: string, size: int, overlap: int, r: Result<seq<Chunk>>, q: Result<seq<Chunk>>)
    requires Splits(text, size, overlap, r) && Splits(text, size, overlap, q)
    ensures r == q
  {
    if 0 <= overlap < size && Bytes(text) <= MAX_DOCUMENT_BYTES && !AllWhitespace(text) {
      var spans, budget := Spans(text, size, overlap), Budget(text, size);
      DeliveryIsUnique(text, spans, budget, r, q);
    }
  }

  /** And there always is one. */
  lemma OutcomeExists(text: string, size: int, overlap: int) returns (r: Result<seq<Chunk>>)
    ensures Splits(text, size, overlap, r)
  {
    hide NoViolation, ViolatesLast, Spans;
    if size < 1 || overlap < 0 || overlap >= size {
      r := Err(Geometry);
    } else if Bytes(text) > MAX_DOCUMENT_BYTES {
      r := Err(DocumentTooLarge(Bytes(text), MAX_DOCUMENT_BYTES));
    } else if AllWhitespace(text) {
      r := Ok([]);
    } else {
      var spans, budget := Spans(text, size, overlap), Budget(text, size);
      if NoViolation(text, spans, budget) {
        r := Ok(Numbered(text, NonBlank(text, spans)));
      } else {
        var k, e := FirstViolation(text, spans, budget);
        r := Err(e);
      }
    }
  }

  lemma {:induction false} FirstViolation(text: string, spans: seq<Span>, budget: nat) returns (k: nat, e: SplitError)
    requires !NoViolation(text, spans, budget)
    ensures k <= |spans| && ViolatesLast(text, spans[..k], budget, e)
  {
    var init := spans[..|spans| - 1];
    if NoViolation(text, init, budget) {
      k := |spans|;
      assert spans[..k] == spans;
      e := if OverBudget(spans, budget) then OutputBudgetExceeded(Charge(spans), budget) else TooManyChunks(MAX_CHUNKS_PER_DOCUMENT);
    } else {
      k, e := FirstViolation(text, init, budget);
      assert init[..k] == spans[..k];
    }
  }

  lemma DeliveryIsUnique(text: string, spans: seq<Span>, budget: nat, r: Result<seq<Chunk>>, q: Result<seq<Chunk>>)
    requires Delivers(text, spans, budget, r) && Delivers(text, spans, budget, q)
    ensures r == q
  {
    hide NoViolation, ViolatesLast;
    if r.Err? {
      var k :| 0 <= k <= |spans| && ViolatesLast(text, spans[..k], budget, r.error);
      if q.Err? {
        var j :| 0 <= j <= |spans| && ViolatesLast(text, spans[..j], budget, q.error);
        if k <= j { FirstViolationWins(text, spans, budget, k, j, r.error, q.error); }
        else { FirstViolationWins(text, spans, budget, j, k, q.error, r.error); }
      } else {
        ViolationIsReal(text, spans, budget, k, r.error);
      }
    } else if q.Err? {
      var j :| 0 <= j <= |spans| && ViolatesLast(text, spans[..j], budget, q.error);
      ViolationIsReal(text, spans, budget, j, q.error);
    }
  }

  lemma FirstViolationWins(text: string, spans: seq<Span>, budget: nat, k: nat, j: nat, e: SplitError, f: SplitError)
    requires k <= j <= |spans|
    requires ViolatesLast(text, spans[..k], budget, e) && ViolatesLast(text, spans[..j], budget, f)
    ensures e == f
  {
    hide NoViolation;
    if k < j {
      assert spans[..j][..j - 1] == spans[..j - 1] && spans[..j - 1][..k] == spans[..k];
      ViolationIsReal(text, spans[..j - 1], budget, k, e);
    }
  }

  lemma ViolationIsReal(text: string, spans: seq<Span>, budget: nat, k: nat, e: SplitError)
    requires k <= |spans| && ViolatesLast(text, spans[..k], budget, e)
    ensures !NoViolation(text, spans, budget)
  {
    if NoViolation(text, spans, budget) {
      PrefixClear(text, spans, budget, k);
    }
  }

  lemma {:induction false} PrefixClear(text: string, spans: seq<Span>, budget: nat, k: nat)
    requires k <= |spans| && NoViolation(text, spans, budget)
    ensures NoViolation(text, spans[..k], budget)
  {
    if k == |spans| {
      assert spans[..k] == spans;
    } else {
      PrefixClear(text, spans[..|spans| - 1], budget, k);
      assert spans[..|spans| - 1][..k] == spans[..k];
    }
  }

  // ---- no overlap ----

  /** The gap before chunk `k`, from the previous chunk or the edge of the text, is well
      formed (the chunks do not overlap) and holds only whitespace. */
  predicate OnlyBlanksBefore(text: string, chunks: seq<Chunk>, k: nat)
    requires k <= |chunks|
  {
    var a, b := if k > 0 then chunks[k - 1].end else 0, if k < |chunks| then chunks[k].start else |text|;
    a <= b <= |text| && Blank(text, Span(a, b))
  }

  /** With no overlap the chunks are disjoint, and what lies between them, before the
      first and after the last is whitespace. */
  lemma ZeroOverlapLosesOnlyBlanks(text: string, size: int, chunks: seq<Chunk>)
    requires 1 <= size && Splits(text, size, 0, Ok(chunks))
    ensures forall k :: 0 <= k <= |chunks| ==> OnlyBlanksBefore(text, chunks, k)
  {
    hide Splits, Sound;
    SplitIsSound(text, size, 0, chunks);
    forall k | 0 <= k <= |chunks| ensures OnlyBlanksBefore(text, chunks, k) {
      GapIsBlank(text, size, chunks, k);
    }
  }

  lemma GapIsBlank(text: string, size: nat, chunks: seq<Chunk>, k: nat)
    requires Sound(text, size, 0, chunks) && k <= |chunks|
    ensures OnlyBlanksBefore(text, chunks, k)
  {
    if 0 < k < |chunks| { assert Advances(0, chunks[k - 1], chunks[k]); }
    if k > 0 { assert SoundChunk(text, size, k - 1, chunks[k - 1]); }
    if k < |chunks| { assert SoundChunk(text, size, k, chunks[k]); }
    hide Sound;
    var a, b := if k > 0 then chunks[k - 1].end else 0, if k < |chunks| then chunks[k].start else |text|;
    forall i | a <= i < b ensures IsWhitespace(text[i]) {
      UncoveredIsBlank(text, size, chunks, i, k);
    }
  }

  /** An offset past chunk `k - 1` and before chunk `k` is in no chunk, so it is blank. */
  lemma UncoveredIsBlank(text: string, size: nat, chunks: seq<Chunk>, i: nat, k: nat)
    requires Sound(text, size, 0, chunks) && i < |text| && k <= |chunks|
    requires k > 0 ==> chunks[k - 1].end <= i
    requires k < |chunks| ==> i < chunks[k].start
    ensures IsWhitespace(text[i])
  {
    forall j | 0 <= j < |chunks|
      ensures !(chunks[j].start <= i < chunks[j].end)
    {
      if j < k - 1 { assert Advances(0, chunks[j], chunks[k - 1]); }
      if k < j { assert Advances(0, chunks[k], chunks[j]); }
    }
    assert !Covered(chunks, i);
  }
}
