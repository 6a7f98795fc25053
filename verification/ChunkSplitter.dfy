/** The streaming splitter: a recursive walk that feeds pieces to a stateful merger,
    proved to return what `ChunkSpec.Splits` asks for. */
module ChunkSplitter {
  import opened Arithmetic
  import opened Names
  import opened Text
  import opened ChunkSpec

  /** Pieces as the merger accepts them: non-empty, adjacent and at most `size` long. */
  ghost predicate Stream(ps: seq<Span>, size: nat, n: nat) {
    && (forall k :: 0 <= k < |ps| ==> ps[k].start < ps[k].end <= n && Len(ps[k]) <= size)
    && (forall k :: 0 < k < |ps| ==> ps[k - 1].end == ps[k].start)
  }

  /** Greedy merge state over the contiguous piece stream. */
  class Merger {
    const size: nat
    const overlap: nat
    const outputBudget: nat
    var chargedChars: nat
    var cur: Option<Span>
    var out: seq<Span>
    /** Every piece pushed so far. */
    ghost var pushed: seq<Span>

    constructor (size: nat, overlap: nat, outputBudget: nat)
      requires overlap < size
      ensures this.size == size && this.overlap == overlap && this.outputBudget == outputBudget
      ensures pushed == []
      ensures forall chars: string :: Valid(chars)
    {
      this.size, this.overlap, this.outputBudget := size, overlap, outputBudget;
      chargedChars, cur, out, pushed := 0, None, [], [];
    }

    ghost function ClosedSpans(): seq<Span>
      reads this
    {
      Closed(size, overlap, pushed)
    }

    ghost predicate Valid(chars: string)
      reads this
    {
      && overlap < size
      && Stream(pushed, size, |chars|)
      && cur == (if pushed == [] then None else Some(Current(size, overlap, pushed)))
      && Recorded(chars, ClosedSpans())
    }

    /** The counters and the output hold exactly `spans`, none of which broke a cap. */
    ghost predicate Recorded(chars: string, spans: seq<Span>)
      reads this
    {
      && chargedChars == Charge(spans)
      && out == NonBlank(chars, spans)
      && NoViolation(chars, spans, outputBudget)
    }

    /** The last span closed by `pushed` broke a cap, no earlier one did, and `e` says which. */
    ghost predicate Failed(chars: string, e: SplitError)
      reads this
    {
      && overlap < size
      && Stream(pushed, size, |chars|)
      && ViolatesLast(chars, ClosedSpans(), outputBudget, e)
    }

    /** Record one attempted span: charge it, drop it when blank, enforce both caps. */
    method Emit(chars: string, start: nat, end: nat, ghost spans: seq<Span>) returns (r: Result<()>)
      requires start <= end <= |chars| && Recorded(chars, spans)
      modifies this`chargedChars, this`out
      ensures r.Ok? ==> Recorded(chars, spans + [Span(start, end)])
      ensures r.Err? ==> ViolatesLast(chars, spans + [Span(start, end)], outputBudget, r.error)
    {
      ghost var s := Span(start, end);
      ExtendSpans(chars, spans, s);
      chargedChars := chargedChars + (end - start);
      if chargedChars > outputBudget {
        return Err(OutputBudgetExceeded(chargedChars, outputBudget));
      }
      if AllWhitespace(chars[start..end]) {
        return Ok(());
      }
      if |out| >= MAX_CHUNKS_PER_DOCUMENT {
        return Err(TooManyChunks(MAX_CHUNKS_PER_DOCUMENT));
      }
      out := out + [Span(start, end)];
      return Ok(());
    }

    /** Add one piece, contiguous with the previous one. */
    method Push(chars: string, start: nat, end: nat) returns (r: Result<()>)
      requires Valid(chars) && start < end <= |chars| && end - start <= size
      requires pushed != [] ==> pushed[|pushed| - 1].end == start
      modifies this
      ensures pushed == old(pushed) + [Span(start, end)]
      ensures r.Ok? ==> Valid(chars)
      ensures r.Err? ==> Failed(chars, r.error)
    {
      hide Current, Closed, Stream, ViolatesLast, Charge, NonBlank, NoViolation;
      ghost var before := pushed;
      MergeOneMore(size, overlap, before, Span(start, end));
      StreamOneMore(before, Span(start, end), size, |chars|);
      pushed := pushed + [Span(start, end)];
      if cur.None? {
        cur := Some(Span(start, end));
        return Ok(());
      }
      var c := cur.value;
      if (c.end - c.start) + (end - start) <= size {
        cur := Some(Span(c.start, end));
        return Ok(());
      }
      CurrentInside(size, overlap, before, |chars|);
      r := Emit(chars, c.start, c.end, Closed(size, overlap, before));
      if r.Ok? {
        var ns := Max(SatSub(c.end, overlap), c.start + 1);
        ns := Max(ns, SatSub(c.end + (end - start), size));
        cur := Some(Span(ns, end));
      }
    }

    /** Close the final span and number the survivors. */
    method Finish(chars: string) returns (r: Result<seq<Chunk>>)
      requires Valid(chars)
      modifies this
      ensures Delivers(chars, Attempted(size, overlap, old(pushed)), outputBudget, r)
    {
      hide Current, Closed, Charge, NonBlank, NoViolation, ViolatesLast;
      AttemptedInside(size, overlap, pushed, |chars|);
      ghost var spans := Attempted(size, overlap, pushed);
      NothingClosed(size, overlap);
      if cur.Some? {
        assert spans == ClosedSpans() + [cur.value];
        var emitted := Emit(chars, cur.value.start, cur.value.end, ClosedSpans());
        if emitted.Err? {
          assert spans[..|spans|] == spans;
          return Err(emitted.error);
        }
        cur := None;
      }
      return Ok(Numbered(chars, out));
    }
  }

  /** One more piece either extends the current span or closes it. */
  lemma MergeOneMore(size: nat, overlap: nat, ps: seq<Span>, p: Span)
    ensures var more := ps + [p];
            if ps == [] then Current(size, overlap, more) == p && Closed(size, overlap, more) == []
            else var cur := Current(size, overlap, ps);
                 if Fits(size, cur, p) then
                   && Current(size, overlap, more) == Span(cur.start, p.end)
                   && Closed(size, overlap, more) == Closed(size, overlap, ps)
                 else
                   && Current(size, overlap, more) == Span(NextStart(size, overlap, cur, p), p.end)
                   && Closed(size, overlap, more) == Closed(size, overlap, ps) + [cur]
    ensures ps == [] ==> Closed(size, overlap, ps) == []
  {
    assert (ps + [p])[..|ps|] == ps;
  }

  lemma StreamOneMore(ps: seq<Span>, p: Span, size: nat, n: nat)
    requires Stream(ps, size, n) && p.start < p.end <= n && p.end <= p.start + size
    requires ps != [] ==> ps[|ps| - 1].end == p.start
    ensures Stream(ps + [p], size, n)
  {
  }

  lemma CurrentInside(size: nat, overlap: nat, ps: seq<Span>, n: nat)
    requires Stream(ps, size, n) && ps != []
    ensures var cur := Current(size, overlap, ps); cur.start < cur.end <= n && cur.end == ps[|ps| - 1].end
  {
    hide Closed, Current;
    AttemptedInside(size, overlap, ps, n);
    assert Current(size, overlap, ps) in Attempted(size, overlap, ps);
  }

  /** One more span changes the totals by exactly that span. */
  lemma ExtendSpans(text: string, spans: seq<Span>, s: Span)
    ensures (spans + [s])[..|spans|] == spans
    ensures Charge(spans + [s]) == Charge(spans) + Len(s)
    ensures NonBlank(text, spans + [s]) == NonBlank(text, spans) + (if Blank(text, s) then [] else [s])
  {
    assert (spans + [s])[..|spans|] == spans;
  }

  /** Pushing `more` after `m.pushed` keeps the stream well formed. */
  ghost predicate Continues(m: Merger, start: nat)
    reads m
  {
    m.pushed != [] ==> m.pushed[|m.pushed| - 1].end == start
  }

  /** Feed `start..end` to the merger as pieces of at most `size` characters. */
  method Walk(chars: string, start: nat, end: nat, level: nat, m: Merger) returns (r: Result<()>)
    requires m.overlap < m.size && m.Valid(chars) && Continues(m, start) && start <= end <= |chars| && level <= LEVELS
    modifies m
    ensures r.Ok? ==> m.Valid(chars) && m.pushed == old(m.pushed) + Pieces(chars, m.size, m.overlap, start, end, level)
    ensures r.Err? ==> m.Failed(chars, r.error)
                       && m.pushed <= old(m.pushed) + Pieces(chars, m.size, m.overlap, start, end, level)
    decreases LEVELS - level, 1
  {
    hide Merger.Valid, Merger.Failed, Pieces, Left;
    if end - start <= m.size {
      PiecesThatFit(chars, m.size, m.overlap, start, end, level);
      if end > start {
        r := m.Push(chars, start, end);
        return;
      }
      return Ok(());
    }
    if level == LEVELS {
      PiecesAtFallback(chars, m.size, m.overlap, start, end);
      r := WalkStrides(chars, start, end, m);
      return;
    }
    var sep := Separator(level);
    ghost var size, overlap, goal := m.size, m.overlap, m.pushed + Pieces(chars, m.size, m.overlap, start, end, level);
    LeftAtStart(chars, size, overlap, start, end, level);
    var found := false;
    var segStart, i := start, start;
    while i + |sep| <= end
      invariant start <= segStart <= i && segStart <= end
      invariant m.Valid(chars) && Continues(m, segStart)
      invariant found || (segStart == start && m.pushed == old(m.pushed))
      invariant goal == m.pushed + Left(chars, size, overlap, level, segStart, i, end)
      decreases end - i
    {
      if chars[i..i + |sep|] == sep {
        found := true;
        var segEnd := i + |sep|;
        LeftMatch(chars, size, overlap, level, segStart, i, end);
        ghost var here, later := Pieces(chars, size, overlap, segStart, segEnd, level + 1), Left(chars, size, overlap, level, segEnd, segEnd, end);
        Regroup(goal, m.pushed, here, later);
        r := Segment(chars, segStart, segEnd, level, m);
        if r.Err? {
          return;
        }
        segStart, i := segEnd, segEnd;
      } else {
        LeftSkip(chars, size, overlap, level, segStart, i, end);
        i := i + 1;
      }
    }
    LeftEnd(chars, size, overlap, level, segStart, i, end);
    if !found {
      r := Walk(chars, start, end, level + 1, m);
      return;
    }
    if segStart < end {
      r := Segment(chars, segStart, end, level, m);
      return;
    }
    return Ok(());
  }

  /** Pieces still to come when the scan of a level stands at `i` in the segment begun at `from`. */
  ghost function Left(chars: string, size: nat, overlap: nat, level: nat, from: nat, i: nat, end: nat): seq<Span>
    requires overlap < size && level < LEVELS
  {
    PiecesOfAll(chars, size, overlap, Scan(chars, Separator(level), from, i, end), level + 1)
  }

  lemma LeftAtStart(chars: string, size: nat, overlap: nat, start: nat, end: nat, level: nat)
    requires overlap < size && level < LEVELS && start + size < end
    ensures Pieces(chars, size, overlap, start, end, level) == Left(chars, size, overlap, level, start, start, end)
  {
    PiecesAtLevel(chars, size, overlap, start, end, level);
  }

  lemma LeftMatch(chars: string, size: nat, overlap: nat, level: nat, from: nat, i: nat, end: nat)
    requires overlap < size && level < LEVELS && from <= i && i + |Separator(level)| <= end <= |chars|
    requires MatchesAt(chars, i, Separator(level))
    ensures var cut := i + |Separator(level)|;
            Left(chars, size, overlap, level, from, i, end)
            == Pieces(chars, size, overlap, from, cut, level + 1) + Left(chars, size, overlap, level, cut, cut, end)
  {
    var sep := Separator(level);
    var segs, rest := Scan(chars, sep, from, i, end), Scan(chars, sep, i + |sep|, i + |sep|, end);
    assert segs == [Span(from, i + |sep|)] + rest;
    assert segs[1..] == rest;
  }

  lemma LeftSkip(chars: string, size: nat, overlap: nat, level: nat, from: nat, i: nat, end: nat)
    requires overlap < size && level < LEVELS && from <= i && i + |Separator(level)| <= end <= |chars|
    requires !MatchesAt(chars, i, Separator(level))
    ensures Left(chars, size, overlap, level, from, i, end) == Left(chars, size, overlap, level, from, i + 1, end)
  {
  }

  lemma LeftEnd(chars: string, size: nat, overlap: nat, level: nat, from: nat, i: nat, end: nat)
    requires overlap < size && level < LEVELS && from <= i && from <= end <= |chars| && i + |Separator(level)| > end
    ensures Left(chars, size, overlap, level, from, i, end)
            == if from < end then Pieces(chars, size, overlap, from, end, level + 1) else []
  {
    var segs := Scan(chars, Separator(level), from, i, end);
    if from < end {
      assert segs == [Span(from, end)] && segs[1..] == [];
      var here := Pieces(chars, size, overlap, from, end, level + 1);
      assert PiecesOfAll(chars, size, overlap, segs[1..], level + 1) == [];
      assert here + [] == here;
    }
  }

  lemma Regroup(goal: seq<Span>, done: seq<Span>, here: seq<Span>, later: seq<Span>)
    requires goal == done + (here + later)
    ensures goal == (done + here) + later
  {
  }

  /** One segment of a separator split: a piece when it fits, another level when it does not. */
  method Segment(chars: string, start: nat, end: nat, level: nat, m: Merger) returns (r: Result<()>)
    requires m.overlap < m.size && m.Valid(chars) && Continues(m, start) && start < end <= |chars| && level < LEVELS
    modifies m
    ensures r.Ok? ==> m.Valid(chars) && m.pushed == old(m.pushed) + Pieces(chars, m.size, m.overlap, start, end, level + 1)
    ensures r.Ok? ==> Continues(m, end)
    ensures r.Err? ==> m.Failed(chars, r.error)
                       && m.pushed <= old(m.pushed) + Pieces(chars, m.size, m.overlap, start, end, level + 1)
    decreases LEVELS - level, 0
  {
    hide Merger.Valid, Merger.Failed, Pieces;
    PiecesTile(chars, m.size, m.overlap, start, end, level + 1);
    if end - start <= m.size {
      PiecesThatFit(chars, m.size, m.overlap, start, end, level + 1);
      r := m.Push(chars, start, end);
    } else {
      r := Walk(chars, start, end, level + 1, m);
    }
  }

  /** Arbitrary character boundaries, one stride of `size - overlap` at a time. */
  method WalkStrides(chars: string, start: nat, end: nat, m: Merger) returns (r: Result<()>)
    requires m.overlap < m.size && m.Valid(chars) && Continues(m, start) && start <= end <= |chars|
    modifies m
    ensures r.Ok? ==> m.Valid(chars) && m.pushed == old(m.pushed) + Strides(start, end, m.size - m.overlap)
    ensures r.Err? ==> m.Failed(chars, r.error) && m.pushed <= old(m.pushed) + Strides(start, end, m.size - m.overlap)
  {
    hide Merger.Valid, Merger.Failed;
    var step := Max(m.size - m.overlap, 1);
    var p := start;
    ghost var all := m.pushed + Strides(start, end, step);
    while p < end
      invariant start <= p <= end && m.Valid(chars) && Continues(m, p)
      invariant all == m.pushed + Strides(p, end, step)
    {
      var q := if p + step <= end then p + step else end;
      Regroup(all, m.pushed, [Span(p, q)], Strides(q, end, step));
      r := m.Push(chars, p, q);
      if r.Err? {
        return;
      }
      p := q;
    }
    return Ok(());
  }

  /** Spans closed by a prefix of the stream stay closed, and come first. */
  lemma {:induction false} ClosedPrefix(size: nat, overlap: nat, ps: seq<Span>, qs: seq<Span>)
    requires ps <= qs
    ensures Closed(size, overlap, ps) <= Closed(size, overlap, qs)
    decreases |qs|
  {
    if |ps| < |qs| {
      assert ps <= qs[..|qs| - 1];
      ClosedPrefix(size, overlap, ps, qs[..|qs| - 1]);
    } else {
      assert ps == qs;
    }
  }

  /** A cap broken part way through the stream decides the outcome of the whole. */
  lemma EarlyFailure(text: string, m: Merger, e: SplitError)
    requires m.overlap < m.size && m.Failed(text, e)
    requires m.pushed <= Pieces(text, m.size, m.overlap, 0, |text|, 0)
    ensures Delivers(text, Spans(text, m.size, m.overlap), m.outputBudget, Err(e))
  {
    hide Pieces, NoViolation, Closed, Current;
    var ps := Pieces(text, m.size, m.overlap, 0, |text|, 0);
    PiecesTile(text, m.size, m.overlap, 0, |text|, 0);
    ClosedPrefix(m.size, m.overlap, m.pushed, ps);
    var done, all := m.ClosedSpans(), Spans(text, m.size, m.overlap);
    assert ps != [] by { if ps == [] { assert m.pushed == []; NothingClosed(m.size, m.overlap); } }
    assert all[..|done|] == done;
  }

  lemma NothingClosed(size: nat, overlap: nat)
    ensures Closed(size, overlap, []) == []
  {
  }

  /** Split `text` into recursive character chunks. */
  method SplitRecursive(text: string, chunkSize: int, chunkOverlap: int) returns (r: Result<seq<Chunk>>)
    ensures Splits(text, chunkSize, chunkOverlap, r)
  {
    hide Merger.Valid, Merger.Failed, Pieces, Delivers, Attempted, Closed;
    if chunkSize < 1 {
      return Err(Geometry);
    }
    if chunkOverlap < 0 || chunkOverlap >= chunkSize {
      return Err(Geometry);
    }
    if Bytes(text) > MAX_DOCUMENT_BYTES {
      return Err(DocumentTooLarge(Bytes(text), MAX_DOCUMENT_BYTES));
    }
    if AllWhitespace(text) {
      return Ok([]);
    }
    var m := new Merger(chunkSize, chunkOverlap, Max(|text| * MAX_OUTPUT_AMPLIFICATION, chunkSize));
    var walked := Walk(text, 0, |text|, 0, m);
    if walked.Err? {
      assert [] + Pieces(text, chunkSize, chunkOverlap, 0, |text|, 0) == Pieces(text, chunkSize, chunkOverlap, 0, |text|, 0);
      EarlyFailure(text, m, walked.error);
      return Err(walked.error);
    }
    assert m.pushed == Pieces(text, chunkSize, chunkOverlap, 0, |text|, 0);
    r := m.Finish(text);
  }
}
