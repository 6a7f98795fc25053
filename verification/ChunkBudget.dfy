/** The output budget: what a refusal for it means, and how much any document can charge. */
module ChunkBudget {
  import opened Text
  import opened ChunkSpec
  import opened ChunkSplitter
  import opened ChunkChain

  // ---- the general bound ----

  lemma ChargeSnoc(spans: seq<Span>)
    requires spans != []
    ensures Charge(spans) == Charge(spans[..|spans| - 1]) + Len(spans[|spans| - 1])
  {
  }

  /** In a chain, two consecutive spans together add at least `size + 1 - overlap` new
      characters, so the total stays within four times the text. */
  lemma {:induction false} ChainCharge(size: nat, overlap: nat, spans: seq<Span>)
    requires overlap < size && 5 * overlap <= 3 * (size + 1)
    requires Chain(size, overlap, spans) && (spans != [] ==> spans[0].start == 0)
    ensures spans != [] ==> Charge(spans) <= 4 * spans[|spans| - 1].end
  {
    var m := |spans|;
    if m >= 1 { ChargeSnoc(spans); }
    if m >= 2 {
      ChargeSnoc(spans[..m - 1]);
      assert spans[..m - 1][..m - 2] == spans[..m - 2];
      assert Follows(size, overlap, spans[m - 2], spans[m - 1]);
    }
    if m >= 3 {
      assert Follows(size, overlap, spans[m - 3], spans[m - 2]);
      ChainCharge(size, overlap, spans[..m - 2]);
      hide Charge, Chain;
      assert 3 * (spans[m - 1].end - spans[m - 3].end) >= 2 * overlap;
    }
  }

  lemma {:induction false} ChargeGrows(spans: seq<Span>, k: nat)
    requires k <= |spans|
    ensures Charge(spans[..k]) <= Charge(spans)
  {
    if k == |spans| {
      assert spans[..k] == spans;
    } else {
      ChargeGrows(spans[..|spans| - 1], k);
      assert spans[..|spans| - 1][..k] == spans[..k];
    }
  }

  /** The document stays within its budget: no attempted span can be refused for it. */
  ghost predicate InBudget(text: string, size: nat, overlap: nat)
    requires overlap < size
  {
    Charge(Spans(text, size, overlap)) <= Budget(text, size)
  }

  /** Up to three fifths of `size + 1`, no document whatsoever exceeds the budget. */
  lemma ModerateOverlapInBudget(text: string, size: nat, overlap: nat)
    requires overlap < size && 5 * overlap <= 3 * (size + 1)
    ensures InBudget(text, size, overlap)
  {
    hide Spans, Chain;
    var spans := Spans(text, size, overlap);
    SpansChain(text, size, overlap);
    ChainCharge(size, overlap, spans);
  }

  /** A document within its budget is never refused for it. */
  lemma InBudgetNeverRefused(text: string, size: int, overlap: int, chars: nat, budget: nat)
    requires 0 <= overlap < size && InBudget(text, size, overlap)
    ensures !Splits(text, size, overlap, Err(OutputBudgetExceeded(chars, budget)))
  {
    hide Spans, NoViolation;
    var spans, e := Spans(text, size, overlap), OutputBudgetExceeded(chars, budget);
    forall k | 0 <= k <= |spans|
      ensures !ViolatesLast(text, spans[..k], Budget(text, size), e)
    {
      ChargeGrows(spans, k);
    }
  }

  /** The splitter refuses the document for its output budget. */
  ghost predicate BudgetRefused(text: string, size: int, overlap: int) {
    exists chars, budget :: Splits(text, size, overlap, Err(OutputBudgetExceeded(chars, budget)))
  }

  /** Over its budget, a document the splitter reads is refused, for the budget or for the chunk cap. */
  lemma OverBudgetRefused(text: string, size: int, overlap: int, r: Result<seq<Chunk>>)
    requires 0 <= overlap < size && Bytes(text) <= MAX_DOCUMENT_BYTES && !AllWhitespace(text)
    requires !InBudget(text, size, overlap) && Splits(text, size, overlap, r)
    ensures r.Err? && (r.error.OutputBudgetExceeded? || r.error.TooManyChunks?)
  {
    hide Spans;
  }

  lemma {:induction false} NonBlankIsFewer(text: string, spans: seq<Span>)
    ensures |NonBlank(text, spans)| <= |spans|
  {
    if spans != [] { NonBlankIsFewer(text, spans[..|spans| - 1]); }
  }

  /** Within the budget and with no more spans than the chunk cap, everything is delivered. */
  lemma {:induction false} FewSpansClear(text: string, spans: seq<Span>, budget: nat)
    requires Charge(spans) <= budget && |spans| <= MAX_CHUNKS_PER_DOCUMENT
    ensures NoViolation(text, spans, budget)
  {
    if spans != [] {
      NonBlankIsFewer(text, spans[..|spans| - 1]);
      FewSpansClear(text, spans[..|spans| - 1], budget);
    }
  }

  // ---- how much a chain can charge, exactly ----

  /** New characters that two consecutive spans add at least. */
  function Advance(size: nat, overlap: nat): (d: nat)
    requires overlap < size
    ensures d >= 2
  {
    size + 1 - overlap
  }

  /** Least length of a document with `k` spans after its first: the first two take `size + 1`
      characters, and from there every two more take another advance. */
  function Shortest(size: nat, overlap: nat, k: nat): nat
    requires overlap < size
  {
    overlap + 1 + Extent(Advance(size, overlap), k)
  }

  /** `k` pieces, by turns one short of an advance and a single character. */
  function Extent(d: nat, k: nat): nat
    requires d >= 1
  {
    if k == 0 then 0 else if k == 1 then d - 1 else d + Extent(d, k - 2)
  }

  lemma {:induction false} ExtentIs(d: nat, p: nat)
    requires d >= 1
    ensures Extent(d, 2 * p) == p * d && Extent(d, 2 * p + 1) == p * d + d - 1
  {
    if p > 0 {
      ExtentIs(d, p - 1);
      assert p * d == (p - 1) * d + d;
    }
  }

  /** A chain of `k + 1` spans carries at most `overlap` characters `k` times, and is no shorter
      than the shortest. */
  lemma ChainBounds(size: nat, overlap: nat, spans: seq<Span>)
    requires overlap < size && Chain(size, overlap, spans) && spans != [] && spans[0].start == 0
    ensures var k := |spans| - 1;
            && Charge(spans) <= spans[k].end + k * overlap
            && (k > 0 ==> spans[k].end >= Shortest(size, overlap, k))
  {
    ChainCarries(size, overlap, spans);
    if |spans| > 1 { ChainExtends(size, overlap, spans); }
  }

  lemma {:induction false} ChainCarries(size: nat, overlap: nat, spans: seq<Span>)
    requires Chain(size, overlap, spans) && spans != [] && spans[0].start == 0
    ensures Charge(spans) <= spans[|spans| - 1].end + (|spans| - 1) * overlap
  {
    var k := |spans| - 1;
    ChargeSnoc(spans);
    if k == 0 {
      assert spans[..0] == [];
    } else {
      ChainCarries(size, overlap, spans[..k]);
      hide Charge;
      assert Follows(size, overlap, spans[k - 1], spans[k]);
      assert k * overlap == (k - 1) * overlap + overlap;
    }
  }

  lemma {:induction false} ChainExtends(size: nat, overlap: nat, spans: seq<Span>)
    requires overlap < size && Chain(size, overlap, spans) && |spans| > 1 && spans[0].start == 0
    ensures spans[|spans| - 1].end >= Shortest(size, overlap, |spans| - 1)
  {
    var k := |spans| - 1;
    assert Follows(size, overlap, spans[k - 1], spans[k]);
    if k >= 2 { assert Follows(size, overlap, spans[k - 2], spans[k - 1]); }
    if k >= 3 { ChainExtends(size, overlap, spans[..k - 1]); }
    var d := Advance(size, overlap);
    assert k >= 2 ==> Extent(d, k) == d + Extent(d, k - 2);
  }

  // ---- levels that cannot split ----

  ghost predicate NeverMatches(text: string, sep: string) {
    forall i: nat :: !MatchesAt(text, i, sep)
  }

  lemma {:induction false} ScanSkips(text: string, sep: string, from: nat, i: nat, j: nat, end: nat)
    requires sep != [] && from <= i <= j && from <= end <= |text|
    requires forall k: nat :: i <= k < j ==> !MatchesAt(text, k, sep)
    requires j + |sep| <= end + 1
    ensures Scan(text, sep, from, i, end) == Scan(text, sep, from, j, end)
    decreases j - i
  {
    if i < j {
      ScanSkips(text, sep, from, i + 1, j, end);
    }
  }

  /** One word ended by a space is one segment. */
  lemma ScanWord(text: string, from: nat, space: nat)
    requires from <= space < |text| && text[space] == ' '
    requires forall i :: from <= i < space ==> text[i] != ' '
    ensures Scan(text, " ", from, from, |text|)
            == [Span(from, space + 1)] + Scan(text, " ", space + 1, space + 1, |text|)
  {
    forall i: nat | from <= i < space ensures !MatchesAt(text, i, " ") {
      assert text[i..i + 1] == [text[i]];
    }
    ScanSkips(text, " ", from, from, space, |text|);
    assert text[space..space + 1] == " ";
  }

  /** A last word without a space is one segment. */
  lemma ScanLast(text: string, a: nat)
    requires a < |text| && forall i :: a <= i < |text| ==> text[i] != ' '
    ensures Scan(text, " ", a, a, |text|) == [Span(a, |text|)]
  {
    forall i: nat | a <= i < |text| ensures !MatchesAt(text, i, " ") {
      assert text[i..i + 1] == [text[i]];
    }
    ScanSkips(text, " ", a, a, |text|, |text|);
  }

  /** A level whose separator does not occur leaves the span to the next level. */
  lemma LevelFallsThrough(text: string, size: nat, overlap: nat, level: nat)
    requires overlap < size < |text| && level < LEVELS && NeverMatches(text, Separator(level))
    ensures Pieces(text, size, overlap, 0, |text|, level) == Pieces(text, size, overlap, 0, |text|, level + 1)
  {
    var sep, n := Separator(level), |text|;
    if |sep| <= n {
      ScanSkips(text, sep, 0, 0, n + 1 - |sep|, n);
    }
    LeftEnd(text, size, overlap, level, 0, if |sep| <= n then n + 1 - |sep| else 0, n);
    PiecesAtLevel(text, size, overlap, 0, n, level);
  }

  lemma {:induction false} LevelsFallThrough(text: string, size: nat, overlap: nat, level: nat)
    requires overlap < size < |text| && level <= LEVELS
    requires forall l: nat :: l < level ==> NeverMatches(text, Separator(l))
    ensures Pieces(text, size, overlap, 0, |text|, 0) == Pieces(text, size, overlap, 0, |text|, level)
  {
    hide Pieces, NeverMatches;
    if level > 0 {
      LevelsFallThrough(text, size, overlap, level - 1);
      LevelFallsThrough(text, size, overlap, level - 1);
    }
  }

  /** Segments that already fit are the pieces. */
  lemma {:induction false} FittingSegments(text: string, size: nat, overlap: nat, segs: seq<Span>, level: nat)
    requires overlap < size && level <= LEVELS
    requires forall k :: 0 <= k < |segs| ==> segs[k].start < segs[k].end <= |text| && Len(segs[k]) <= size
    ensures PiecesOfAll(text, size, overlap, segs, level) == segs
  {
    if segs != [] {
      FittingSegments(text, size, overlap, segs[1..], level);
      assert segs == [segs[0]] + segs[1..];
    }
  }
}
