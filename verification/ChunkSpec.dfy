/** What the recursive character splitter is meant to compute, in three stages:
    cut the text into pieces, merge pieces into attempted spans, and deliver the
    non-blank spans unless a cap is broken first. */
module ChunkSpec {
  import opened Arithmetic
  import opened Text

  const MAX_CHUNKS_PER_DOCUMENT: nat := 10_000
  const MAX_DOCUMENT_BYTES: nat := 32 * 1024 * 1024
  const MAX_OUTPUT_AMPLIFICATION: nat := 4

  /** Boundary hierarchy, strongest first. */
  const SEPARATORS: seq<string> :=
    ["\r\n\r\n", "\n\n", "\r\n", "\n", ". ", "? ", "! ", "; ", ", ", " "]

  const LEVELS: nat := 10

  function Separator(level: nat): (sep: string)
    requires level < LEVELS
    ensures sep != []
  {
    SEPARATORS[level]
  }

  /** A half-open range of character offsets. */
  datatype Span = Span(start: nat, end: nat)

  datatype Chunk = Chunk(number: nat, start: nat, end: nat, text: string)

  datatype SplitError =
    | Geometry
    | TooManyChunks(limit: nat)
    | DocumentTooLarge(bytes: nat, limit: nat)
    | OutputBudgetExceeded(chars: nat, budget: nat)

  datatype Result<T> = Ok(value: T) | Err(error: SplitError)

  // ---- stage 1: pieces ----

  predicate MatchesAt(text: string, i: nat, sep: string) {
    i + |sep| <= |text| && text[i..i + |sep|] == sep
  }

  /** Segments of `from..end`, cutting after each leftmost non-overlapping
      occurrence of `sep` found at or after `i`. */
  function Scan(text: string, sep: string, from: nat, i: nat, end: nat): (segs: seq<Span>)
    requires sep != []
    decreases end - i
  {
    if i + |sep| > end then (if from < end then [Span(from, end)] else [])
    else if MatchesAt(text, i, sep) then
      [Span(from, i + |sep|)] + Scan(text, sep, i + |sep|, i + |sep|, end)
    else Scan(text, sep, from, i + 1, end)
  }

  /** Fixed strides, the last one cut short at `end`. */
  function Strides(from: nat, end: nat, step: nat): (ps: seq<Span>)
    requires step >= 1
    decreases if end >= from then end - from else 0
  {
    if from >= end then []
    else
      var q := if from + step <= end then from + step else end;
      [Span(from, q)] + Strides(q, end, step)
  }

  /** Pieces of `start..end` using separator level `level` and below. */
  function Pieces(text: string, size: nat, overlap: nat, start: nat, end: nat, level: nat): (ps: seq<Span>)
    requires overlap < size && level <= LEVELS
    decreases LEVELS - level, 0
  {
    if end - start <= size then (if start < end then [Span(start, end)] else [])
    else if level == LEVELS then Strides(start, end, size - overlap)
    else PiecesOfAll(text, size, overlap, Scan(text, Separator(level), start, start, end), level + 1)
  }

  /** Pieces of each segment in turn. */
  function PiecesOfAll(text: string, size: nat, overlap: nat, segs: seq<Span>, level: nat): (ps: seq<Span>)
    requires overlap < size && level <= LEVELS
    decreases LEVELS - level, |segs| + 1
  {
    if segs == [] then []
    else Pieces(text, size, overlap, segs[0].start, segs[0].end, level)
         + PiecesOfAll(text, size, overlap, segs[1..], level)
  }

  /** `ps` cuts `start..end` into non-empty adjacent spans. */
  ghost predicate Tiles(ps: seq<Span>, start: nat, end: nat) {
    && (forall k :: 0 <= k < |ps| ==> ps[k].start < ps[k].end)
    && (forall k :: 0 < k < |ps| ==> ps[k - 1].end == ps[k].start)
    && (if ps == [] then start == end else ps[0].start == start && ps[|ps| - 1].end == end)
  }

  lemma TilesConcat(a: seq<Span>, b: seq<Span>, start: nat, mid: nat, end: nat)
    requires Tiles(a, start, mid) && Tiles(b, mid, end)
    ensures Tiles(a + b, start, end)
  {
    var c := a + b;
    forall k | 0 < k < |c|
      ensures c[k - 1].end == c[k].start
    {
      if k == |a| && a != [] {
        assert c[k] == b[0];
      }
    }
  }

  /** Every span of a tiling lies inside it. */
  lemma {:induction false} TilesInside(ps: seq<Span>, start: nat, end: nat)
    requires Tiles(ps, start, end)
    ensures start <= end
    ensures forall k :: 0 <= k < |ps| ==> start <= ps[k].start && ps[k].end <= end
  {
    if ps != [] {
      var tail := ps[1..];
      assert forall k :: 0 < k < |tail| ==> tail[k - 1] == ps[k] && tail[k] == ps[k + 1];
      TilesInside(tail, ps[0].end, end);
      forall k | 0 <= k < |ps|
        ensures start <= ps[k].start && ps[k].end <= end
      {
        if k > 0 { assert ps[k] == tail[k - 1]; }
      }
    }
  }

  /** The segments of a scan tile its range. */
  lemma {:induction false} ScanTiles(text: string, sep: string, from: nat, i: nat, end: nat)
    requires sep != [] && from <= i && from <= end <= |text|
    ensures Tiles(Scan(text, sep, from, i, end), from, end)
    decreases end - i
  {
    if i + |sep| <= end {
      if MatchesAt(text, i, sep) {
        var cut := i + |sep|;
        ScanTiles(text, sep, cut, cut, end);
        TilesConcat([Span(from, cut)], Scan(text, sep, cut, cut, end), from, cut, end);
      } else {
        ScanTiles(text, sep, from, i + 1, end);
      }
    }
  }

  /** `sep` occurs in `start..end` at most as its very end. */
  ghost predicate ClearOf(text: string, sep: string, start: nat, end: nat) {
    forall i: nat :: start <= i && i + |sep| < end ==> !MatchesAt(text, i, sep)
  }

  /** The segment ends just after the separator. */
  predicate CutAfter(text: string, sep: string, seg: Span) {
    seg.start + |sep| <= seg.end && MatchesAt(text, seg.end - |sep|, sep)
  }

  /** Every segment but the last ends with the separator, and none holds it earlier. */
  ghost predicate CutClean(text: string, sep: string, segs: seq<Span>) {
    && (forall k :: 0 <= k < |segs| - 1 ==> CutAfter(text, sep, segs[k]))
    && (forall k :: 0 <= k < |segs| ==> ClearOf(text, sep, segs[k].start, segs[k].end))
  }

  lemma CutCleanCons(text: string, sep: string, first: Span, rest: seq<Span>)
    requires CutAfter(text, sep, first) && ClearOf(text, sep, first.start, first.end) && CutClean(text, sep, rest)
    ensures CutClean(text, sep, [first] + rest)
  {
    hide ClearOf, CutAfter;
  }

  /** A scan cuts after each separator, leftmost first. */
  lemma {:induction false} ScanCuts(text: string, sep: string, from: nat, i: nat, end: nat)
    requires sep != [] && from <= i && forall j: nat :: from <= j < i ==> !MatchesAt(text, j, sep)
    ensures CutClean(text, sep, Scan(text, sep, from, i, end))
    decreases end - i
  {
    if i + |sep| > end {
      assert ClearOf(text, sep, from, end);
    } else if MatchesAt(text, i, sep) {
      var cut := i + |sep|;
      assert CutAfter(text, sep, Span(from, cut)) && ClearOf(text, sep, from, cut);
      hide CutClean, MatchesAt;
      ScanCuts(text, sep, cut, cut, end);
      CutCleanCons(text, sep, Span(from, cut), Scan(text, sep, cut, cut, end));
    } else {
      ScanCuts(text, sep, from, i + 1, end);
    }
  }

  // ---- stage 2: attempted spans ----

  function SatSub(a: nat, b: nat): nat { if a >= b then a - b else 0 }

  function Len(s: Span): nat { SatSub(s.end, s.start) }

  /** Where the span after `cur` starts when piece `p` did not fit in it. */
  function NextStart(size: nat, overlap: nat, cur: Span, p: Span): nat {
    Max(Max(SatSub(cur.end, overlap), cur.start + 1), SatSub(cur.end + Len(p), size))
  }

  predicate Fits(size: nat, cur: Span, p: Span) {
    cur.end - cur.start + (p.end - p.start) <= size
  }

  /** The span under construction after merging `ps`. */
  function Current(size: nat, overlap: nat, ps: seq<Span>): (cur: Span)
    requires ps != []
  {
    var p := ps[|ps| - 1];
    if |ps| == 1 then p
    else
      var cur := Current(size, overlap, ps[..|ps| - 1]);
      if Fits(size, cur, p) then Span(cur.start, p.end)
      else Span(NextStart(size, overlap, cur, p), p.end)
  }

  /** The spans closed while merging `ps`. */
  function Closed(size: nat, overlap: nat, ps: seq<Span>): (spans: seq<Span>)
  {
    if |ps| <= 1 then []
    else
      var cur := Current(size, overlap, ps[..|ps| - 1]);
      if Fits(size, cur, ps[|ps| - 1]) then Closed(size, overlap, ps[..|ps| - 1])
      else Closed(size, overlap, ps[..|ps| - 1]) + [cur]
  }

  /** All spans the merge attempts to emit, blank ones included. */
  function Attempted(size: nat, overlap: nat, ps: seq<Span>): (spans: seq<Span>)
  {
    if ps == [] then [] else Closed(size, overlap, ps) + [Current(size, overlap, ps)]
  }

  // ---- stage 3: delivery ----

  /** No character of the span, so far as the text has it, is non-whitespace. */
  predicate Blank(text: string, s: Span) {
    forall i :: s.start <= i < s.end && i < |text| ==> IsWhitespace(text[i])
  }

  /** Total length of the spans. */
  function Charge(spans: seq<Span>): nat
  {
    if spans == [] then 0 else Charge(spans[..|spans| - 1]) + Len(spans[|spans| - 1])
  }

  /** The spans that hold a non-whitespace character, in order. */
  function NonBlank(text: string, spans: seq<Span>): (kept: seq<Span>) {
    if spans == [] then []
    else
      var kept := NonBlank(text, spans[..|spans| - 1]);
      if Blank(text, spans[|spans| - 1]) then kept else kept + [spans[|spans| - 1]]
  }

  /** The last span pushes the cumulative charge over the budget. */
  predicate OverBudget(spans: seq<Span>, budget: nat)
    requires spans != []
  {
    Charge(spans) > budget
  }

  /** The last span is non-blank and the chunk cap was already reached. */
  predicate OverCount(text: string, spans: seq<Span>)
    requires spans != []
  {
    && !Blank(text, spans[|spans| - 1])
    && |NonBlank(text, spans[..|spans| - 1])| >= MAX_CHUNKS_PER_DOCUMENT
  }

  /** No prefix of `spans` breaks a cap. */
  predicate NoViolation(text: string, spans: seq<Span>, budget: nat) {
    spans == [] || (
      && !OverBudget(spans, budget)
      && !OverCount(text, spans)
      && NoViolation(text, spans[..|spans| - 1], budget))
  }

  /** The last span is the first to break a cap, and `e` reports it, the budget before the count. */
  predicate ViolatesLast(text: string, spans: seq<Span>, budget: nat, e: SplitError) {
    && spans != []
    && NoViolation(text, spans[..|spans| - 1], budget)
    && (if OverBudget(spans, budget) then e == OutputBudgetExceeded(Charge(spans), budget)
        else OverCount(text, spans) && e == TooManyChunks(MAX_CHUNKS_PER_DOCUMENT))
  }

  function Slice(text: string, s: Span): string {
    if s.start <= s.end <= |text| then text[s.start..s.end] else []
  }

  function Numbered(text: string, spans: seq<Span>): (chunks: seq<Chunk>) {
    seq(|spans|, i requires 0 <= i < |spans| => Chunk(i, spans[i].start, spans[i].end, Slice(text, spans[i])))
  }

  /** `r` is the outcome of attempting `spans` in order under `budget`. */
  ghost predicate Delivers(text: string, spans: seq<Span>, budget: nat, r: Result<seq<Chunk>>) {
    match r
    case Ok(chunks) => NoViolation(text, spans, budget) && chunks == Numbered(text, NonBlank(text, spans))
    case Err(e) => exists k :: 0 <= k <= |spans| && ViolatesLast(text, spans[..k], budget, e)
  }

  function Budget(text: string, size: nat): nat { Max(|text| * MAX_OUTPUT_AMPLIFICATION, size) }

  /** The attempted spans of a whole document. */
  function Spans(text: string, size: nat, overlap: nat): (spans: seq<Span>)
    requires overlap < size
  {
    Attempted(size, overlap, Pieces(text, size, overlap, 0, |text|, 0))
  }

  /** The contract of the splitter: every outcome, refusals included. */
  ghost predicate Splits(text: string, chunkSize: int, chunkOverlap: int, r: Result<seq<Chunk>>) {
    if chunkSize < 1 || chunkOverlap < 0 || chunkOverlap >= chunkSize then r == Err(Geometry)
    else if Bytes(text) > MAX_DOCUMENT_BYTES then r == Err(DocumentTooLarge(Bytes(text), MAX_DOCUMENT_BYTES))
    else if AllWhitespace(text) then r == Ok([])
    else Delivers(text, Spans(text, chunkSize, chunkOverlap), Budget(text, chunkSize), r)
  }

  // ---- the pieces tile the text ----

  lemma {:induction false} StridesTile(from: nat, end: nat, step: nat)
    requires step >= 1 && from <= end
    ensures Tiles(Strides(from, end, step), from, end)
    ensures AllFit(Strides(from, end, step), step)
    decreases end - from
  {
    if from < end {
      var q := if from + step <= end then from + step else end;
      StridesTile(q, end, step);
      TilesConcat([Span(from, q)], Strides(q, end, step), from, q, end);
    }
  }

  ghost predicate AllFit(ps: seq<Span>, size: nat) {
    forall k :: 0 <= k < |ps| ==> Len(ps[k]) <= size
  }

  /** From any start level the pieces tile the span, and each holds at most `size` characters. */
  lemma {:induction false} PiecesTile(text: string, size: nat, overlap: nat, start: nat, end: nat, level: nat)
    requires overlap < size && start <= end <= |text| && level <= LEVELS
    ensures var ps := Pieces(text, size, overlap, start, end, level);
            Tiles(ps, start, end) && AllFit(ps, size)
    decreases LEVELS - level, 0
  {
    hide Tiles, Pieces, Scan, Separator, AllFit;
    if end - start <= size {
      PiecesThatFit(text, size, overlap, start, end, level);
    } else if level == LEVELS {
      PiecesAtFallback(text, size, overlap, start, end);
      StridesTile(start, end, size - overlap);
      StridesFit(Strides(start, end, size - overlap), size, size - overlap);
    } else {
      PiecesAtLevel(text, size, overlap, start, end, level);
      ScanTiles(text, Separator(level), start, start, end);
      PiecesOfAllTile(text, size, overlap, Scan(text, Separator(level), start, start, end), start, end, level + 1);
    }
  }

  lemma StridesFit(ps: seq<Span>, size: nat, step: nat)
    requires step <= size && AllFit(ps, step)
    ensures AllFit(ps, size)
  {
  }

  lemma PiecesThatFit(text: string, size: nat, overlap: nat, start: nat, end: nat, level: nat)
    requires overlap < size && start <= end <= start + size && level <= LEVELS
    ensures var ps := Pieces(text, size, overlap, start, end, level);
            && ps == (if start < end then [Span(start, end)] else [])
            && Tiles(ps, start, end) && AllFit(ps, size)
  {
  }

  lemma PiecesAtFallback(text: string, size: nat, overlap: nat, start: nat, end: nat)
    requires overlap < size && start + size < end
    ensures Pieces(text, size, overlap, start, end, LEVELS) == Strides(start, end, size - overlap)
  {
  }

  lemma PiecesAtLevel(text: string, size: nat, overlap: nat, start: nat, end: nat, level: nat)
    requires overlap < size && start + size < end && level < LEVELS
    ensures Pieces(text, size, overlap, start, end, level)
            == PiecesOfAll(text, size, overlap, Scan(text, Separator(level), start, start, end), level + 1)
  {
  }

  lemma TilesRest(ps: seq<Span>, start: nat, end: nat)
    requires ps != [] && Tiles(ps, start, end)
    ensures ps[0].start == start < ps[0].end <= end && Tiles(ps[1..], ps[0].end, end)
  {
    var rest := ps[1..];
    forall k | 0 < k < |rest| ensures rest[k - 1].end == rest[k].start {
      assert rest[k - 1] == ps[k] && rest[k] == ps[k + 1];
    }
    TilesInside(ps, start, end);
  }

  lemma {:induction false} PiecesOfAllTile(text: string, size: nat, overlap: nat, segs: seq<Span>, start: nat, end: nat, level: nat)
    requires overlap < size && level <= LEVELS && Tiles(segs, start, end) && end <= |text|
    ensures var ps := PiecesOfAll(text, size, overlap, segs, level);
            Tiles(ps, start, end) && AllFit(ps, size)
    decreases LEVELS - level, |segs| + 1
  {
    if segs != [] {
      hide Tiles, Pieces;
      TilesRest(segs, start, end);
      var mid := segs[0].end;
      PiecesTile(text, size, overlap, start, mid, level);
      PiecesOfAllTile(text, size, overlap, segs[1..], mid, end, level);
      TilesConcat(Pieces(text, size, overlap, start, mid, level),
                  PiecesOfAll(text, size, overlap, segs[1..], level), start, mid, end);
    }
  }

  /** Attempted spans stay inside the text their pieces came from. */
  lemma {:induction false} AttemptedInside(size: nat, overlap: nat, ps: seq<Span>, n: nat)
    requires forall k :: 0 <= k < |ps| ==> ps[k].start < ps[k].end <= n && Len(ps[k]) <= size
    requires forall k :: 0 < k < |ps| ==> ps[k - 1].end == ps[k].start
    ensures forall s :: s in Attempted(size, overlap, ps) ==> s.start < s.end <= n && Len(s) <= size
    ensures ps != [] ==> Current(size, overlap, ps).end == ps[|ps| - 1].end
  {
    if |ps| > 1 {
      AttemptedInside(size, overlap, ps[..|ps| - 1], n);
      var cur := Current(size, overlap, ps[..|ps| - 1]);
      assert cur in Attempted(size, overlap, ps[..|ps| - 1]);
    }
  }
}
