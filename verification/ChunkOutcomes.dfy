/** What each outcome of the splitter says, with its limits written out. */
module ChunkOutcomes {
  import opened Arithmetic
  import opened Text
  import opened ChunkSpec
  import opened ChunkChain

  /** The refusals that come before any cutting, and the documents that are not cut at all. */
  lemma GuardsExact(text: string, size: int, overlap: int, r: Result<seq<Chunk>>)
    requires Splits(text, size, overlap, r)
    ensures r == Err(Geometry) <==> size < 1 || overlap < 0 || overlap >= size
    ensures (r.Err? && r.error.DocumentTooLarge?) <==> 0 <= overlap < size && Bytes(text) > 33_554_432
    ensures r.Err? && r.error.DocumentTooLarge? ==> r.error == DocumentTooLarge(Bytes(text), 33_554_432)
    ensures 0 <= overlap < size && Bytes(text) <= 33_554_432 && AllWhitespace(text) ==> r == Ok([])
  {
    hide Spans, ViolatesLast, AllWhitespace, Bytes;
    if 0 <= overlap < size && Bytes(text) <= MAX_DOCUMENT_BYTES && !AllWhitespace(text) && r.Err? {
      var spans := Spans(text, size, overlap);
      var k :| 0 <= k <= |spans| && ViolatesLast(text, spans[..k], Budget(text, size), r.error);
      CapErrors(text, spans[..k], Budget(text, size), r.error);
    }
  }

  lemma CapErrors(text: string, spans: seq<Span>, budget: nat, e: SplitError)
    requires ViolatesLast(text, spans, budget, e)
    ensures e.TooManyChunks? || e.OutputBudgetExceeded?
  {
    hide NoViolation, OverBudget, OverCount;
  }

  /** At the `k`th span a cap is broken for the first time, and this is what is reported: the budget, if
      the characters charged so far pass it; otherwise the count, if this is one chunk too many. */
  predicate Breaks(text: string, spans: seq<Span>, budget: nat, k: nat, e: SplitError)
    requires 0 < k <= |spans|
  {
    && Charge(spans[..k - 1]) <= budget && |NonBlank(text, spans[..k - 1])| <= 10_000
    && match e
       case OutputBudgetExceeded(chars, limit) => chars == Charge(spans[..k]) > budget == limit
       case TooManyChunks(limit) =>
         limit == 10_000 && Charge(spans[..k]) <= budget && |NonBlank(text, spans[..k])| == 10_001
       case _ => false
  }

  /** A document is refused while it is cut only at a span that breaks a cap, and for that cap. */
  lemma RefusalReports(text: string, size: int, overlap: int, e: SplitError) returns (k: nat)
    requires 0 <= overlap < size && Splits(text, size, overlap, Err(e)) && !e.DocumentTooLarge? && !e.Geometry?
    ensures 0 < k <= |Spans(text, size, overlap)|
    ensures Breaks(text, Spans(text, size, overlap), Max(4 * |text|, size), k, e)
  {
    hide Spans, ViolatesLast, AllWhitespace, Bytes, Breaks;
    var spans := Spans(text, size, overlap);
    k :| 0 <= k <= |spans| && ViolatesLast(text, spans[..k], Budget(text, size), e);
    LastBreaks(text, spans, Budget(text, size), k, e);
  }

  lemma LastBreaks(text: string, spans: seq<Span>, budget: nat, k: nat, e: SplitError)
    requires k <= |spans| && ViolatesLast(text, spans[..k], budget, e)
    ensures 0 < k && Breaks(text, spans, budget, k, e)
  {
    hide NoViolation, Blank;
    assert spans[..k][..k - 1] == spans[..k - 1];
    CountWithinCap(text, spans[..k - 1], budget);
  }

  /** Whitespace, by code point: a document of nothing else delivers nothing. */
  lemma BlankDocument(text: string, size: int, overlap: int, r: Result<seq<Chunk>>)
    requires 0 <= overlap < size && Bytes(text) <= 33_554_432 && Splits(text, size, overlap, r)
    requires forall i :: 0 <= i < |text| ==>
               text[i] as int in {9, 10, 11, 12, 13, 32, 133, 160, 5760, 8192, 8193, 8194, 8195, 8196, 8197, 8198, 8199,
                                  8200, 8201, 8202, 8232, 8233, 8239, 8287, 12288}
    ensures r == Ok([])
  {
    hide Spans, Delivers, Bytes, IsWhitespace;
    forall i | 0 <= i < |text| ensures IsWhitespace(text[i]) { WhitespaceIs(text[i]); }
  }

  lemma WhitespaceIs(c: char)
    ensures IsWhitespace(c) <==>
            c as int in {9, 10, 11, 12, 13, 32, 133, 160, 5760, 8192, 8193, 8194, 8195, 8196, 8197, 8198, 8199,
                         8200, 8201, 8202, 8232, 8233, 8239, 8287, 12288}
  {
  }

  /** Any other character is kept: some chunk holds it. */
  lemma InkIsKept(text: string, size: int, overlap: int, chunks: seq<Chunk>, i: nat)
    requires 0 <= overlap < size && Splits(text, size, overlap, Ok(chunks)) && i < |text|
    requires text[i] as int !in {9, 10, 11, 12, 13, 32, 133, 160, 5760, 8192, 8193, 8194, 8195, 8196, 8197, 8198, 8199,
                                 8200, 8201, 8202, 8232, 8233, 8239, 8287, 12288}
    ensures exists k :: 0 <= k < |chunks| && chunks[k].start <= i < chunks[k].end
  {
    hide Splits, IsWhitespace;
    SplitIsSound(text, size, overlap, chunks);
    WhitespaceIs(text[i]);
    assert Covered(chunks, i);
  }
}
