/** Documents that exhaust the output budget with as few characters as any document can. They
    decide exactly which geometries have a document the splitter refuses for its budget. */
module ChunkHostile {
  import opened Arithmetic
  import opened Text
  import opened ChunkSpec
  import opened ChunkSplitter
  import opened ChunkChain
  import opened ChunkBudget

  function Tabs(n: nat): (s: string)
    ensures |s| == n && forall i :: 0 <= i < n ==> s[i] == '\t'
  {
    seq(n, _ => '\t')
  }

  /** `k` words, by turns of `d - 1` characters and of one, each ended by its space, except that the
      last character of all is an `x`. */
  function Tail(d: nat, k: nat): (s: string)
    requires d >= 2
    ensures |s| == Extent(d, k)
  {
    if k == 0 then ""
    else if k == 1 then Tabs(d - 2) + "x"
    else if k == 2 then Tabs(d - 2) + " x"
    else Tabs(d - 2) + "  " + Tail(d, k - 2)
  }

  /** A first word of `overlap + 1` characters puts the merge in its steady state at once. */
  function Hostile(size: nat, overlap: nat, k: nat): (s: string)
    requires overlap < size
    ensures |s| == Shortest(size, overlap, k)
  {
    Tabs(overlap) + " " + Tail(Advance(size, overlap), k)
  }

  function TailPieces(a: nat, d: nat, k: nat): (ps: seq<Span>)
    requires d >= 2
    decreases k
  {
    if k == 0 then []
    else if k == 1 then [Span(a, a + d - 1)]
    else [Span(a, a + d - 1), Span(a + d - 1, a + d)] + TailPieces(a + d, d, k - 2)
  }

  predicate Plain(text: string) {
    forall i :: 0 <= i < |text| ==> text[i] == '\t' || text[i] == ' ' || text[i] == 'x'
  }

  /** Blank up to a last character that is not. */
  predicate BlankButLast(text: string) {
    text != [] && AllWhitespace(text[..|text| - 1]) && text[|text| - 1] == 'x'
  }

  lemma {:induction false} TailIsPlain(d: nat, k: nat)
    requires d >= 2 && k >= 1
    ensures Plain(Tail(d, k)) && BlankButLast(Tail(d, k))
  {
    var s := Tail(d, k);
    if k > 2 {
      TailIsPlain(d, k - 2);
      PlainConcat(Tabs(d - 2) + "  ", Tail(d, k - 2));
    } else if k == 2 {
      PlainConcat(Tabs(d - 2) + " ", "x");
      assert Tabs(d - 2) + " " + "x" == s;
    } else {
      PlainConcat(Tabs(d - 2), "x");
    }
  }

  lemma PlainConcat(a: string, b: string)
    requires Plain(a) && AllWhitespace(a) && Plain(b) && BlankButLast(b)
    ensures Plain(a + b) && BlankButLast(a + b)
  {
    var s := a + b;
    forall i | 0 <= i < |s| - 1 ensures IsWhitespace(s[i]) {
      if i >= |a| { assert s[i] == b[..|b| - 1][i - |a|]; }
    }
  }

  lemma {:induction false} PlainNeverMatches(text: string, level: nat)
    requires Plain(text) && level < 9
    ensures NeverMatches(text, Separator(level))
  {
    forall i: nat ensures !MatchesAt(text, i, Separator(level)) {
      var sep := Separator(level);
      if i + |sep| <= |text| {
        assert text[i..i + |sep|][0] == text[i] && sep[0] != text[i];
      }
    }
  }

  /** The first two words of a tail, in the text it ends. */
  lemma TailBlock(text: string, a: nat, d: nat, k: nat)
    requires d >= 2 && k >= 2 && a <= |text| && text[a..] == Tail(d, k)
    ensures a + d <= |text| && text[a + d..] == Tail(d, k - 2)
    ensures text[a + d - 2] == ' ' && (k > 2 ==> text[a + d - 1] == ' ') && (k == 2 ==> text[a + d - 1] == 'x')
    ensures forall i :: a <= i < a + d - 2 ==> text[i] != ' '
  {
    var block, rest := Tabs(d - 2) + (if k == 2 then " x" else "  "), Tail(d, k - 2);
    assert text[a..] == block + rest;
    assert text[a + d..] == text[a..][d..] == rest;
    forall i | a <= i < a + d ensures text[i] == block[i - a] { assert text[i] == text[a..][i - a]; }
  }

  lemma LastWord(text: string, a: nat, d: nat)
    requires d >= 2 && a <= |text| && text[a..] == Tail(d, 1)
    ensures a + d - 1 == |text| && TailPieces(a, d, 1) == [Span(a, a + d - 1)]
    ensures forall i :: a <= i < |text| ==> text[i] != ' '
  {
    forall i | a <= i < |text| ensures text[i] != ' ' { assert text[i] == text[a..][i - a]; }
  }

  lemma {:induction false} ScanTail(text: string, a: nat, d: nat, k: nat)
    requires d >= 2 && k >= 1 && a <= |text| && text[a..] == Tail(d, k)
    ensures Scan(text, " ", a, a, |text|) == TailPieces(a, d, k)
    decreases k
  {
    hide Scan, Tail, TailPieces;
    if k == 1 {
      LastWord(text, a, d);
      ScanLast(text, a);
    } else if k == 2 {
      TailBlock(text, a, d, k);
      LastTwoWords(text, a, d);
      ScanWord(text, a, a + d - 2);
      ScanLast(text, a + d - 1);
    } else {
      TailBlock(text, a, d, k);
      ScanTail(text, a + d, d, k - 2);
      ScanPair(text, a, d);
      TailStep([], a, d, k);
      assert [] + TailPieces(a, d, k) == TailPieces(a, d, k);
      Flat(Span(a, a + d - 1), Span(a + d - 1, a + d), TailPieces(a + d, d, k - 2));
    }
  }

  /** A long word and a single space are two segments. */
  lemma ScanPair(text: string, a: nat, d: nat)
    requires d >= 2 && a + d <= |text| && text[a + d - 2] == text[a + d - 1] == ' '
    requires forall i :: a <= i < a + d - 2 ==> text[i] != ' '
    ensures Scan(text, " ", a, a, |text|)
            == [Span(a, a + d - 1)] + ([Span(a + d - 1, a + d)] + Scan(text, " ", a + d, a + d, |text|))
  {
    hide Scan;
    ScanWord(text, a, a + d - 2);
    ScanWord(text, a + d - 1, a + d - 1);
  }

  lemma Flat(p: Span, q: Span, rest: seq<Span>)
    ensures [p] + ([q] + rest) == [] + [p] + [q] + rest
  {
  }

  lemma LastTwoWords(text: string, a: nat, d: nat)
    requires d >= 2 && a + d <= |text| && text[a + d..] == Tail(d, 0)
    ensures a + d == |text| && TailPieces(a, d, 2) == [Span(a, a + d - 1), Span(a + d - 1, a + d)]
  {
    assert TailPieces(a + d, d, 0) == [];
  }

  lemma {:induction false} TailPiecesFit(a: nat, d: nat, k: nat)
    requires d >= 2
    ensures forall p :: p in TailPieces(a, d, k) ==> p.start < p.end <= a + Extent(d, k) && Len(p) < d
    decreases k
  {
    if k > 1 { TailPiecesFit(a + d, d, k - 2); }
  }

  /** The hostile document is cut at exactly its spaces. */
  lemma HostilePieces(size: nat, overlap: nat, k: nat)
    requires overlap < size && k >= 1
    ensures var text, d := Hostile(size, overlap, k), Advance(size, overlap);
            && |text| > size
            && Pieces(text, size, overlap, 0, |text|, 0) == [Span(0, overlap + 1)] + TailPieces(overlap + 1, d, k)
  {
    var text, d := Hostile(size, overlap, k), Advance(size, overlap);
    var n := |text|;
    assert Plain(text) by { HostileIsPlain(size, overlap, k); }
    forall l: nat | l < 9 ensures NeverMatches(text, Separator(l)) { PlainNeverMatches(text, l); }
    hide Pieces, NeverMatches;
    LevelsFallThrough(text, size, overlap, 9);
    PiecesAtLevel(text, size, overlap, 0, n, 9);
    assert text[overlap] == ' ' && text[overlap + 1..] == Tail(d, k);
    ScanWord(text, 0, overlap);
    ScanTail(text, overlap + 1, d, k);
    TailPiecesFit(overlap + 1, d, k);
    var segs := [Span(0, overlap + 1)] + TailPieces(overlap + 1, d, k);
    FittingSegments(text, size, overlap, segs, 10);
  }

  lemma HostileIsPlain(size: nat, overlap: nat, k: nat)
    requires overlap < size && k >= 1
    ensures Plain(Hostile(size, overlap, k)) && BlankButLast(Hostile(size, overlap, k))
  {
    hide Tail;
    TailIsPlain(Advance(size, overlap), k);
    PlainConcat(Tabs(overlap) + " ", Tail(Advance(size, overlap), k));
  }

  lemma ChargeOneMore(spans: seq<Span>, s: Span)
    ensures Charge(spans + [s]) == Charge(spans) + Len(s)
  {
    assert (spans + [s])[..|spans|] == spans;
  }

  /** A long word in the steady state closes a span and carries the full overlap. */
  lemma LongWord(size: nat, overlap: nat, ps: seq<Span>, a: nat)
    requires overlap < size && ps != [] && overlap + 1 <= a && Current(size, overlap, ps) == Span(a - overlap - 1, a)
    ensures var p := Span(a, a + Advance(size, overlap) - 1);
            && Current(size, overlap, ps + [p]) == Span(a - overlap, p.end)
            && Charge(Attempted(size, overlap, ps + [p])) == Charge(Attempted(size, overlap, ps)) + Len(p) + overlap
  {
    hide Closed, Current, Charge;
    var p := Span(a, a + Advance(size, overlap) - 1);
    MergeOneMore(size, overlap, ps, p);
    ChargeOneMore(Closed(size, overlap, ps) + [Current(size, overlap, ps)], Span(a - overlap, p.end));
  }

  /** A single character after it closes the next, and the state is steady again. */
  lemma ShortWord(size: nat, overlap: nat, ps: seq<Span>, b: nat)
    requires overlap < size && ps != [] && size <= b && Current(size, overlap, ps) == Span(b - size, b)
    ensures var q := Span(b, b + 1);
            && Current(size, overlap, ps + [q]) == Span(b - overlap, b + 1)
            && Charge(Attempted(size, overlap, ps + [q])) == Charge(Attempted(size, overlap, ps)) + 1 + overlap
  {
    hide Closed, Current, Charge;
    var q := Span(b, b + 1);
    MergeOneMore(size, overlap, ps, q);
    ChargeOneMore(Closed(size, overlap, ps) + [Current(size, overlap, ps)], Span(b - overlap, b + 1));
  }

  /** What `k` words charge in the steady state: their own length, and one full overlap each. */
  function Toll(d: nat, overlap: nat, k: nat): nat
    requires d >= 1
  {
    if k == 0 then 0 else if k == 1 then d - 1 + overlap else d + overlap + overlap + Toll(d, overlap, k - 2)
  }

  lemma {:induction false} TollIs(d: nat, overlap: nat, k: nat)
    requires d >= 1
    ensures Toll(d, overlap, k) == Extent(d, k) + k * overlap
  {
    if k > 1 {
      TollIs(d, overlap, k - 2);
      assert k * overlap == (k - 2) * overlap + overlap + overlap;
    }
  }

  lemma {:induction false} HostileCharge(size: nat, overlap: nat, ps: seq<Span>, a: nat, k: nat)
    requires overlap < size && ps != [] && overlap + 1 <= a && Current(size, overlap, ps) == Span(a - overlap - 1, a)
    ensures var d := Advance(size, overlap);
            Charge(Attempted(size, overlap, ps + TailPieces(a, d, k)))
            == Charge(Attempted(size, overlap, ps)) + Toll(d, overlap, k)
    decreases k
  {
    hide Attempted, Current, Charge;
    var d := Advance(size, overlap);
    var p, q := Span(a, a + d - 1), Span(a + d - 1, a + d);
    if k == 0 {
      assert ps + TailPieces(a, d, k) == ps;
    } else {
      LongWord(size, overlap, ps, a);
      if k > 1 {
        ShortWord(size, overlap, ps + [p], a + d - 1);
        HostileCharge(size, overlap, ps + [p] + [q], a + d, k - 2);
        TailStep(ps, a, d, k);
      }
    }
  }

  lemma TailStep(ps: seq<Span>, a: nat, d: nat, k: nat)
    requires d >= 2 && k >= 2
    ensures ps + TailPieces(a, d, k) == ps + [Span(a, a + d - 1)] + [Span(a + d - 1, a + d)] + TailPieces(a + d, d, k - 2)
  {
  }

  /** The hostile document attains what no chain can pass. */
  lemma HostileAttains(size: nat, overlap: nat, k: nat)
    requires overlap < size && k >= 1
    ensures var text := Hostile(size, overlap, k);
            Charge(Spans(text, size, overlap)) == |text| + k * overlap && |text| > size
  {
    hide Pieces, Hostile, Closed, Current;
    HostilePieces(size, overlap, k);
    FirstWord(size, overlap);
    HostileCharge(size, overlap, [Span(0, overlap + 1)], overlap + 1, k);
    TollIs(Advance(size, overlap), overlap, k);
  }

  lemma FirstWord(size: nat, overlap: nat)
    ensures Current(size, overlap, [Span(0, overlap + 1)]) == Span(0, overlap + 1)
    ensures Charge(Attempted(size, overlap, [Span(0, overlap + 1)])) == overlap + 1
  {
    var first := [Span(0, overlap + 1)];
    assert first[..0] == [] && Attempted(size, overlap, first) == first;
    ChargeSnoc(first);
  }

  // ---- the refusal, as the caller sees it ----

  lemma {:induction false} BlankPrefix(text: string, spans: seq<Span>)
    requires text != [] && AllWhitespace(text[..|text| - 1])
    requires forall k :: 0 <= k < |spans| ==> spans[k].end < |text|
    ensures NonBlank(text, spans) == []
  {
    if spans != [] {
      var s := spans[|spans| - 1];
      assert forall i :: s.start <= i < s.end ==> text[..|text| - 1][i] == text[i];
      BlankPrefix(text, spans[..|spans| - 1]);
    }
  }

  /** A document blank up to its last character never meets the chunk cap, so over its
      budget it is refused for the budget. */
  lemma BlankTextRefused(text: string, size: int, overlap: int)
    requires 0 <= overlap < size && BlankButLast(text)
    requires Bytes(text) <= MAX_DOCUMENT_BYTES && !InBudget(text, size, overlap)
    ensures BudgetRefused(text, size, overlap)
  {
    assert !IsWhitespace(text[|text| - 1]);
    hide Spans, NoViolation, Charge, ViolatesLast, IsWhitespace, Splits, InBudget;
    var r := OutcomeExists(text, size, overlap);
    OverBudgetRefused(text, size, overlap, r);
    BlankTextUncapped(text, size, overlap, r.error);
  }

  lemma BlankTextUncapped(text: string, size: int, overlap: int, e: SplitError)
    requires 0 <= overlap < size && BlankButLast(text) && !AllWhitespace(text)
    requires Bytes(text) <= MAX_DOCUMENT_BYTES && Splits(text, size, overlap, Err(e))
    ensures e.OutputBudgetExceeded?
  {
    hide Spans, Chain, NoViolation, Charge, ViolatesLast, IsWhitespace;
    var spans, budget := Spans(text, size, overlap), Budget(text, size);
    SpansChain(text, size, overlap);
    var k :| 0 <= k <= |spans| && ViolatesLast(text, spans[..k], budget, e);
    BlankSpansCountNothing(text, size, overlap, spans, k, budget, e);
  }

  lemma BlankSpansCountNothing(text: string, size: nat, overlap: nat, spans: seq<Span>, k: nat, budget: nat, e: SplitError)
    requires Chain(size, overlap, spans) && k <= |spans| && text != []
    requires spans != [] && spans[|spans| - 1].end == |text| && AllWhitespace(text[..|text| - 1])
    requires ViolatesLast(text, spans[..k], budget, e)
    ensures e.OutputBudgetExceeded?
  {
    hide Chain, NoViolation, Charge;
    assert k > 0;
    var before := spans[..k][..k - 1];
    forall j | 0 <= j < |before| ensures before[j].end < |text| {
      ChainIncreases(size, overlap, spans, j, |spans| - 1);
    }
    BlankPrefix(text, before);
  }

  lemma {:induction false} AsciiBytes(s: string)
    requires Plain(s)
    ensures Bytes(s) == |s|
  {
    if s != [] { AsciiBytes(s[1..]); }
  }

  // ---- the exact condition ----

  /** What each two spans past the first charge beyond four times what they add. */
  function Excess(size: nat, overlap: nat): int { 5 * overlap - 3 * (size + 1) }

  /** The splitter's arithmetic, before any document: how many advances the largest document leaves
      room for after its first span (or its first two), and whether they exhaust its budget. */
  predicate CanExhaust(size: nat, overlap: nat)
    requires overlap < size
  {
    var d, f := Advance(size, overlap), Excess(size, overlap);
    || (overlap < MAX_DOCUMENT_BYTES && Share(MAX_DOCUMENT_BYTES - overlap - 1, d) * f > 3 * (overlap + 1))
    || (size < MAX_DOCUMENT_BYTES && Share(MAX_DOCUMENT_BYTES - size - 1, d) * f + overlap > 3 * (size + 1))
  }

  /** The shortest documents with `k` spans after the first fit and exhaust the budget. */
  predicate Exhausts(size: nat, overlap: nat, k: nat)
    requires overlap < size
  {
    Shortest(size, overlap, k) <= MAX_DOCUMENT_BYTES && k * overlap > 3 * Shortest(size, overlap, k)
  }

  /** `p` advances after the first span, and after the first two. */
  lemma ExhaustsIs(size: nat, overlap: nat, p: nat)
    requires overlap < size
    ensures var d, f := Advance(size, overlap), Excess(size, overlap);
            && (Exhausts(size, overlap, 2 * p) <==> p * d + overlap + 1 <= MAX_DOCUMENT_BYTES && p * f > 3 * (overlap + 1))
            && (Exhausts(size, overlap, 2 * p + 1) <==> p * d + size + 1 <= MAX_DOCUMENT_BYTES && p * f + overlap > 3 * (size + 1))
  {
    var d, f := Advance(size, overlap), Excess(size, overlap);
    ExtentIs(d, p);
    hide Extent;
    Spread(p, overlap, d);
    Twice(p, overlap);
    assert f == 2 * overlap - 3 * d;
  }

  lemma ExhaustsPositively(size: nat, overlap: nat, p: nat)
    requires overlap < size
    requires var f := Excess(size, overlap); p * f > 3 * (overlap + 1) || p * f + overlap > 3 * (size + 1)
    ensures Excess(size, overlap) > 0
  {
    PositiveFactor(p, Excess(size, overlap));
  }

  lemma CanExhaustIs(size: nat, overlap: nat)
    requires overlap < size
    ensures CanExhaust(size, overlap) <==> exists k: nat :: Exhausts(size, overlap, k)
  {
    var d, f := Advance(size, overlap), Excess(size, overlap);
    if CanExhaust(size, overlap) {
      var k := SomeExhausts(size, overlap);
    }
    if k: nat :| Exhausts(size, overlap, k) {
      EachCanExhaust(size, overlap, k);
    }
  }

  lemma SomeExhausts(size: nat, overlap: nat) returns (k: nat)
    requires overlap < size && CanExhaust(size, overlap)
    ensures Exhausts(size, overlap, k)
  {
    hide Exhausts, Share;
    var d, f := Advance(size, overlap), Excess(size, overlap);
    if overlap < MAX_DOCUMENT_BYTES && Share(MAX_DOCUMENT_BYTES - overlap - 1, d) * f > 3 * (overlap + 1) {
      var p := Share(MAX_DOCUMENT_BYTES - overlap - 1, d);
      ExhaustsIs(size, overlap, p);
      k := 2 * p;
    } else {
      var p := Share(MAX_DOCUMENT_BYTES - size - 1, d);
      ExhaustsIs(size, overlap, p);
      k := 2 * p + 1;
    }
  }

  lemma EachCanExhaust(size: nat, overlap: nat, k: nat)
    requires overlap < size && Exhausts(size, overlap, k)
    ensures CanExhaust(size, overlap)
  {
    hide Exhausts, CanExhaust;
    var p := k / 2;
    ExhaustsIs(size, overlap, p);
    assert k == 2 * p || k == 2 * p + 1;
    ExhaustsPositively(size, overlap, p);
    if k == 2 * p {
      MostAfterOne(size, overlap, p);
    } else {
      MostAfterTwo(size, overlap, p);
    }
  }

  lemma MostAfterOne(size: nat, overlap: nat, p: nat)
    requires overlap < size && Excess(size, overlap) > 0
    requires p * Advance(size, overlap) + overlap + 1 <= MAX_DOCUMENT_BYTES && p * Excess(size, overlap) > 3 * (overlap + 1)
    ensures CanExhaust(size, overlap)
  {
    hide Share;
    var d, f := Advance(size, overlap), Excess(size, overlap);
    ShareIsMost(MAX_DOCUMENT_BYTES - overlap - 1, d, p);
    Grows(p, Share(MAX_DOCUMENT_BYTES - overlap - 1, d), f, f);
  }

  lemma MostAfterTwo(size: nat, overlap: nat, p: nat)
    requires overlap < size && Excess(size, overlap) > 0
    requires p * Advance(size, overlap) + size + 1 <= MAX_DOCUMENT_BYTES && p * Excess(size, overlap) + overlap > 3 * (size + 1)
    ensures CanExhaust(size, overlap)
  {
    hide Share;
    var d, f := Advance(size, overlap), Excess(size, overlap);
    ShareIsMost(MAX_DOCUMENT_BYTES - size - 1, d, p);
    Grows(p, Share(MAX_DOCUMENT_BYTES - size - 1, d), f, f);
  }

  lemma HostileRefused(size: nat, overlap: nat, k: nat)
    requires overlap < size && k >= 1 && Exhausts(size, overlap, k)
    ensures BudgetRefused(Hostile(size, overlap, k), size, overlap)
  {
    hide Charge, Spans, Hostile, BudgetRefused;
    var text := Hostile(size, overlap, k);
    HostileAttains(size, overlap, k);
    HostileIsPlain(size, overlap, k);
    AsciiBytes(text);
    BlankTextRefused(text, size, overlap);
  }

  lemma RefusedExhausts(text: string, size: nat, overlap: nat)
    requires overlap < size && BudgetRefused(text, size, overlap)
    ensures exists k: nat :: Exhausts(size, overlap, k)
  {
    hide Charge, Spans, Chain;
    var chars, budget :| Splits(text, size, overlap, Err(OutputBudgetExceeded(chars, budget)));
    if InBudget(text, size, overlap) { InBudgetNeverRefused(text, size, overlap, chars, budget); }
    var spans := Spans(text, size, overlap);
    SpansChain(text, size, overlap);
    ChainBounds(size, overlap, spans);
    assert Exhausts(size, overlap, |spans| - 1);
  }

  /** Some document is refused for its budget if and only if the arithmetic says so. */
  lemma BudgetRefusalsExact(size: nat, overlap: nat)
    requires overlap < size
    ensures (exists text :: BudgetRefused(text, size, overlap)) <==> CanExhaust(size, overlap)
  {
    hide BudgetRefused, Exhausts, CanExhaust;
    CanExhaustIs(size, overlap);
    if text :| BudgetRefused(text, size, overlap) {
      RefusedExhausts(text, size, overlap);
    }
    if k: nat :| Exhausts(size, overlap, k) {
      NeedsTwoSpans(size, overlap, k);
      HostileRefused(size, overlap, k);
    }
  }

  lemma NeedsTwoSpans(size: nat, overlap: nat, k: nat)
    requires overlap < size && Exhausts(size, overlap, k)
    ensures k >= 1
  {
  }

  /** Up to three fifths of `size + 1` no document is refused for its budget; past it, at chunk sizes
      up to 5,000, some document is. */
  lemma ThreeFifths(size: nat, overlap: nat)
    requires overlap < size
    ensures (exists text :: BudgetRefused(text, size, overlap)) ==> 5 * overlap > 3 * (size + 1)
    ensures size <= 5_000 && 5 * overlap > 3 * (size + 1) ==> exists text :: BudgetRefused(text, size, overlap)
  {
    hide CanExhaust, Exhausts, BudgetRefused;
    BudgetRefusalsExact(size, overlap);
    CanExhaustIs(size, overlap);
    if k: nat :| Exhausts(size, overlap, k) {
      PastThreeFifths(size, overlap, k);
    }
    if size <= 5_000 && 5 * overlap > 3 * (size + 1) {
      SmallChunksExhaust(size, overlap);
    }
  }

  lemma PastThreeFifths(size: nat, overlap: nat, k: nat)
    requires overlap < size && Exhausts(size, overlap, k)
    ensures 5 * overlap > 3 * (size + 1)
  {
    hide Exhausts;
    ExhaustsIs(size, overlap, k / 2);
    assert k == 2 * (k / 2) || k == 2 * (k / 2) + 1;
    ExhaustsPositively(size, overlap, k / 2);
  }

  lemma SmallChunksExhaust(size: nat, overlap: nat)
    requires overlap < size <= 5_000 && 5 * overlap > 3 * (size + 1)
    ensures Exhausts(size, overlap, 2 * (3 * overlap + 4))
  {
    hide Exhausts;
    var d, f, p := Advance(size, overlap), Excess(size, overlap), 3 * overlap + 4;
    ExhaustsIs(size, overlap, p);
    Grows(p, 15_001, d, 2_000);
    Grows(p, p, 1, f);
  }

  /** Large chunks leave no room for such a document even past three fifths. */
  lemma LargeChunksHaveRoom(text: string)
    ensures 5 * 60_001 > 3 * (100_000 + 1) && !BudgetRefused(text, 100_000, 60_001)
  {
    hide BudgetRefused;
    assert !CanExhaust(100_000, 60_001);
    BudgetRefusalsExact(100_000, 60_001);
  }

  /** At exactly three quarters of any chunk size 4m from 8 up, a document of 11m + 9 characters is
      refused, as long as it is short enough to be read at all. */
  lemma ThreeQuartersCanFail(m: nat)
    requires 2 <= m && 11 * m + 9 <= MAX_DOCUMENT_BYTES
    ensures var text := Hostile(4 * m, 3 * m, 16);
            |text| == 11 * m + 9 && BudgetRefused(text, 4 * m, 3 * m)
  {
    hide Exhausts, BudgetRefused;
    ExhaustsIs(4 * m, 3 * m, 8);
    ExtentIs(m + 1, 8);
    HostileRefused(4 * m, 3 * m, 16);
  }
}
