/** The spans a document is cut into, said without the merge: each takes as many pieces as fit, and
    the next carries as much overlap over as its first new piece leaves room for. */
module ChunkGreedy {
  import opened ChunkSpec
  import opened ChunkSplitter
  import opened ChunkChain

  /** A span that follows `a` and brings piece `p` may start at `s`. */
  predicate MayStart(size: nat, overlap: nat, a: Span, p: Span, s: nat) {
    s > a.start && a.end - s <= overlap && p.end - s <= size
  }

  /** The earliest such start, that is, the most overlap. */
  ghost predicate EarliestStart(size: nat, overlap: nat, a: Span, p: Span, s: nat) {
    MayStart(size, overlap, a, p, s) && forall r: nat :: r < s ==> !MayStart(size, overlap, a, p, r)
  }

  /** `a` stops before piece `p` because the two together are longer than a chunk; `b` brings `p`. */
  ghost predicate HandsOver(size: nat, overlap: nat, a: Span, p: Span, b: Span) {
    p.start == a.end && p.end - a.start > size && p.end <= b.end && EarliestStart(size, overlap, a, p, b.start)
  }

  ghost predicate HandsOverIn(size: nat, overlap: nat, ps: seq<Span>, a: Span, b: Span) {
    exists i :: 0 <= i < |ps| && HandsOver(size, overlap, a, ps[i], b)
  }

  predicate EndsPiece(ps: seq<Span>, s: Span) { exists i :: 0 <= i < |ps| && ps[i].end == s.end }

  /** `spans` merges `ps` greedily. */
  ghost predicate Greedy(size: nat, overlap: nat, ps: seq<Span>, spans: seq<Span>) {
    && ps != [] && spans != []
    && spans[0].start == ps[0].start && spans[|spans| - 1].end == ps[|ps| - 1].end
    && (forall k :: 0 <= k < |spans| ==> spans[k].start < spans[k].end <= spans[k].start + size && EndsPiece(ps, spans[k]))
    && (forall k :: 0 < k < |spans| ==> HandsOverIn(size, overlap, ps, spans[k - 1], spans[k]))
  }

  // ---- the merge is greedy ----

  lemma NextStartIsEarliest(size: nat, overlap: nat, a: Span, p: Span)
    requires a.start < a.end == p.start < p.end <= p.start + size
    ensures EarliestStart(size, overlap, a, p, NextStart(size, overlap, a, p))
  {
  }

  lemma MorePieces(size: nat, overlap: nat, ps: seq<Span>, p: Span, a: Span, b: Span)
    ensures HandsOverIn(size, overlap, ps, a, b) ==> HandsOverIn(size, overlap, ps + [p], a, b)
    ensures HandsOver(size, overlap, a, p, b) ==> HandsOverIn(size, overlap, ps + [p], a, b)
    ensures EndsPiece(ps, a) ==> EndsPiece(ps + [p], a)
    ensures p.end == a.end ==> EndsPiece(ps + [p], a)
  {
    hide HandsOver;
    var more := ps + [p];
    if HandsOverIn(size, overlap, ps, a, b) {
      var i :| 0 <= i < |ps| && HandsOver(size, overlap, a, ps[i], b);
      assert more[i] == ps[i];
    }
    if EndsPiece(ps, a) {
      var i :| 0 <= i < |ps| && ps[i].end == a.end;
      assert more[i] == ps[i];
    }
    assert more[|ps|] == p;
  }

  /** A span that grows still takes over what it took over. */
  lemma LongerTakesOver(size: nat, overlap: nat, ps: seq<Span>, a: Span, b: Span, end: nat)
    requires HandsOverIn(size, overlap, ps, a, b) && b.end <= end
    ensures HandsOverIn(size, overlap, ps, a, Span(b.start, end))
  {
    hide EarliestStart;
    var i :| 0 <= i < |ps| && HandsOver(size, overlap, a, ps[i], b);
    assert HandsOver(size, overlap, a, ps[i], Span(b.start, end));
  }

  lemma GreedyGrows(size: nat, overlap: nat, ps: seq<Span>, p: Span, closed: seq<Span>, cur: Span)
    requires Greedy(size, overlap, ps, closed + [cur]) && cur.end == p.start < p.end && Fits(size, cur, p)
    ensures Greedy(size, overlap, ps + [p], closed + [Span(cur.start, p.end)])
  {
    hide HandsOverIn, EndsPiece;
    var before, after := closed + [cur], closed + [Span(cur.start, p.end)];
    assert before[|closed|] == cur;
    forall k | 0 <= k < |after|
      ensures after[k].start < after[k].end <= after[k].start + size && EndsPiece(ps + [p], after[k])
    {
      MorePieces(size, overlap, ps, p, after[k], after[k]);
      if k < |closed| { assert after[k] == before[k]; }
    }
    forall k | 0 < k < |after| ensures HandsOverIn(size, overlap, ps + [p], after[k - 1], after[k]) {
      assert after[k - 1] == before[k - 1];
      assert HandsOverIn(size, overlap, ps, before[k - 1], before[k]);
      MorePieces(size, overlap, ps, p, before[k - 1], before[k]);
      if k == |closed| { LongerTakesOver(size, overlap, ps + [p], before[k - 1], cur, p.end); }
    }
  }

  lemma GreedyStarts(size: nat, overlap: nat, ps: seq<Span>, p: Span, spans: seq<Span>, next: Span)
    requires Greedy(size, overlap, ps, spans) && next.start < next.end == p.end <= next.start + size
    requires HandsOver(size, overlap, spans[|spans| - 1], p, next)
    ensures Greedy(size, overlap, ps + [p], spans + [next])
  {
    hide HandsOver, HandsOverIn, EndsPiece;
    var after := spans + [next];
    forall k | 0 <= k < |after|
      ensures after[k].start < after[k].end <= after[k].start + size && EndsPiece(ps + [p], after[k])
    {
      MorePieces(size, overlap, ps, p, after[k], after[k]);
    }
    forall k | 0 < k < |after| ensures HandsOverIn(size, overlap, ps + [p], after[k - 1], after[k]) {
      MorePieces(size, overlap, ps, p, after[k - 1], after[k]);
    }
  }

  lemma GreedyOne(size: nat, overlap: nat, p: Span)
    requires p.start < p.end <= p.start + size
    ensures Greedy(size, overlap, [p], [p])
  {
  }

  lemma {:induction false} MergeIsGreedy(size: nat, overlap: nat, ps: seq<Span>, n: nat)
    requires ps != [] && Stream(ps, size, n)
    ensures Greedy(size, overlap, ps, Attempted(size, overlap, ps))
  {
    hide Closed, Current, Greedy, HandsOver, NextStart;
    var init, p := ps[..|ps| - 1], ps[|ps| - 1];
    assert init + [p] == ps;
    MergeOneMore(size, overlap, init, p);
    if init == [] {
      assert ps == [p];
      GreedyOne(size, overlap, p);
    } else {
      MergeIsGreedy(size, overlap, init, n);
      MergeChains(size, overlap, init, n);
      var closed, cur := Closed(size, overlap, init), Current(size, overlap, init);
      MergeStep(size, overlap, init, p, closed, cur);
    }
  }

  lemma MergeStep(size: nat, overlap: nat, ps: seq<Span>, p: Span, closed: seq<Span>, cur: Span)
    requires Greedy(size, overlap, ps, closed + [cur]) && cur.start < cur.end == p.start < p.end <= p.start + size
    ensures Fits(size, cur, p) ==> Greedy(size, overlap, ps + [p], closed + [Span(cur.start, p.end)])
    ensures !Fits(size, cur, p) ==>
              Greedy(size, overlap, ps + [p], closed + [cur] + [Span(NextStart(size, overlap, cur, p), p.end)])
  {
    hide Greedy;
    if Fits(size, cur, p) {
      GreedyGrows(size, overlap, ps, p, closed, cur);
    } else {
      NextStartIsEarliest(size, overlap, cur, p);
      var next := Span(NextStart(size, overlap, cur, p), p.end);
      GreedyStarts(size, overlap, ps, p, closed + [cur], next);
    }
  }

  // ---- and nothing else is ----

  lemma {:induction false} StreamAdvances(ps: seq<Span>, size: nat, n: nat, i: nat, j: nat)
    requires Stream(ps, size, n) && i < j < |ps|
    ensures ps[i].end <= ps[j].start && ps[i].end < ps[j].end
    decreases j
  {
    if i < j - 1 { StreamAdvances(ps, size, n, i, j - 1); }
  }

  /** Where a piece stops, the next one starts. */
  lemma NextPiece(ps: seq<Span>, size: nat, n: nat, i: nat, j: nat)
    requires Stream(ps, size, n) && i < |ps| && j < |ps| && ps[j].start == ps[i].end
    ensures j == i + 1
  {
    if i + 1 < j {
      StreamAdvances(ps, size, n, i + 1, j);
    } else if j < i {
      StreamAdvances(ps, size, n, j, i);
    }
  }

  /** A span that hands over could not have ended later. */
  lemma NoLaterEnd(size: nat, overlap: nat, ps: seq<Span>, n: nat, a: Span, b: Span, other: Span)
    requires Stream(ps, size, n) && EndsPiece(ps, a) && EndsPiece(ps, other) && HandsOverIn(size, overlap, ps, a, b)
    requires other.start == a.start && other.end <= other.start + size
    ensures other.end <= a.end
  {
    hide EarliestStart;
    var i :| 0 <= i < |ps| && ps[i].end == a.end;
    var j :| 0 <= j < |ps| && ps[j].end == other.end;
    var q :| 0 <= q < |ps| && HandsOver(size, overlap, a, ps[q], b);
    NextPiece(ps, size, n, i, q);
    if j > q {
      StreamAdvances(ps, size, n, q, j);
    } else if j < i {
      StreamAdvances(ps, size, n, j, i);
    }
  }

  lemma OneStart(size: nat, overlap: nat, ps: seq<Span>, n: nat, a: Span, b: Span, c: Span)
    requires Stream(ps, size, n)
    requires EndsPiece(ps, a) && HandsOverIn(size, overlap, ps, a, b) && HandsOverIn(size, overlap, ps, a, c)
    ensures b.start == c.start
  {
    hide MayStart;
    var i :| 0 <= i < |ps| && ps[i].end == a.end;
    var p :| 0 <= p < |ps| && HandsOver(size, overlap, a, ps[p], b);
    var q :| 0 <= q < |ps| && HandsOver(size, overlap, a, ps[q], c);
    NextPiece(ps, size, n, i, p);
    NextPiece(ps, size, n, i, q);
  }

  /** Nothing is handed over at the end of the stream. */
  lemma LastHandsNothing(size: nat, overlap: nat, ps: seq<Span>, n: nat, a: Span, b: Span)
    requires Stream(ps, size, n) && ps != [] && a.end == ps[|ps| - 1].end
    ensures !HandsOverIn(size, overlap, ps, a, b)
  {
    if HandsOverIn(size, overlap, ps, a, b) {
      var q :| 0 <= q < |ps| && HandsOver(size, overlap, a, ps[q], b);
      NextPiece(ps, size, n, |ps| - 1, q);
    }
  }

  /** Of two greedy merges, the spans of one are those of the other as far as both go. */
  lemma {:induction false} SameSpans(size: nat, overlap: nat, ps: seq<Span>, n: nat, xs: seq<Span>, ys: seq<Span>, k: nat)
    requires Stream(ps, size, n) && Greedy(size, overlap, ps, xs) && Greedy(size, overlap, ps, ys) && k < |xs| && k < |ys|
    ensures xs[k] == ys[k]
    decreases k
  {
    hide HandsOverIn, EndsPiece;
    if k > 0 {
      SameSpans(size, overlap, ps, n, xs, ys, k - 1);
      OneStart(size, overlap, ps, n, xs[k - 1], xs[k], ys[k]);
    }
    EndsNoLater(size, overlap, ps, n, xs, ys, k);
    EndsNoLater(size, overlap, ps, n, ys, xs, k);
  }

  lemma EndsNoLater(size: nat, overlap: nat, ps: seq<Span>, n: nat, xs: seq<Span>, ys: seq<Span>, k: nat)
    requires Stream(ps, size, n) && Greedy(size, overlap, ps, xs) && Greedy(size, overlap, ps, ys) && k < |xs| && k < |ys|
    requires xs[k].start == ys[k].start
    ensures ys[k].end <= xs[k].end
  {
    hide HandsOverIn;
    if k + 1 < |xs| {
      assert HandsOverIn(size, overlap, ps, xs[k], xs[k + 1]);
      NoLaterEnd(size, overlap, ps, n, xs[k], xs[k + 1], ys[k]);
    } else {
      var j :| 0 <= j < |ps| && ps[j].end == ys[k].end;
      if j < |ps| - 1 { StreamAdvances(ps, size, n, j, |ps| - 1); }
    }
  }

  lemma NoLonger(size: nat, overlap: nat, ps: seq<Span>, n: nat, xs: seq<Span>, ys: seq<Span>)
    requires Stream(ps, size, n) && Greedy(size, overlap, ps, xs) && Greedy(size, overlap, ps, ys)
    ensures |ys| <= |xs|
  {
    hide HandsOverIn, EndsPiece;
    if |ys| > |xs| {
      var last := |xs| - 1;
      SameSpans(size, overlap, ps, n, xs, ys, last);
      assert HandsOverIn(size, overlap, ps, ys[last], ys[last + 1]);
      LastHandsNothing(size, overlap, ps, n, ys[last], ys[last + 1]);
    }
  }

  lemma GreedyIsUnique(size: nat, overlap: nat, ps: seq<Span>, n: nat, xs: seq<Span>, ys: seq<Span>)
    requires Stream(ps, size, n) && Greedy(size, overlap, ps, xs) && Greedy(size, overlap, ps, ys)
    ensures xs == ys
  {
    hide Greedy;
    NoLonger(size, overlap, ps, n, xs, ys);
    NoLonger(size, overlap, ps, n, ys, xs);
    forall k | 0 <= k < |xs| ensures xs[k] == ys[k] {
      SameSpans(size, overlap, ps, n, xs, ys, k);
    }
  }

  // ---- of a document ----

  lemma PiecesStream(text: string, size: nat, overlap: nat)
    requires overlap < size
    ensures var ps := Pieces(text, size, overlap, 0, |text|, 0);
            Stream(ps, size, |text|) && (ps == [] <==> text == [])
  {
    hide Pieces;
    PiecesTile(text, size, overlap, 0, |text|, 0);
    TilesInside(Pieces(text, size, overlap, 0, |text|, 0), 0, |text|);
  }

  /** The attempted spans of a document are the greedy merge of its pieces, and the only one. */
  lemma SpansAreTheGreedyMerge(text: string, size: nat, overlap: nat, spans: seq<Span>)
    requires overlap < size && text != []
    ensures Greedy(size, overlap, Pieces(text, size, overlap, 0, |text|, 0), spans) <==> spans == Spans(text, size, overlap)
  {
    hide Pieces, Greedy, Attempted, Stream;
    var ps := Pieces(text, size, overlap, 0, |text|, 0);
    PiecesStream(text, size, overlap);
    MergeIsGreedy(size, overlap, ps, |text|);
    if Greedy(size, overlap, ps, spans) {
      GreedyIsUnique(size, overlap, ps, |text|, spans, Spans(text, size, overlap));
    }
  }

  /** The overlap carried is the most there is room for: the span after `a` starts at the least offset
      past the start of `a` that leaves at most `overlap` shared characters and room for the piece that
      did not fit in `a`. */
  lemma CarryIsMaximal(text: string, size: nat, overlap: nat, k: nat, p: Span)
    requires overlap < size && k + 1 < |Spans(text, size, overlap)|
    requires p in Pieces(text, size, overlap, 0, |text|, 0) && p.start == Spans(text, size, overlap)[k].end
    ensures var a, b := Spans(text, size, overlap)[k], Spans(text, size, overlap)[k + 1];
            && p.end - a.start > size && p.end <= b.end
            && MayStart(size, overlap, a, p, b.start)
            && forall s: nat :: MayStart(size, overlap, a, p, s) ==> b.start <= s
  {
    hide Pieces, Attempted, EndsPiece;
    var ps, spans := Pieces(text, size, overlap, 0, |text|, 0), Spans(text, size, overlap);
    assert text != [] by { SpansChain(text, size, overlap); }
    SpansAreTheGreedyMerge(text, size, overlap, spans);
    PiecesStream(text, size, overlap);
    var a, b := spans[k], spans[k + 1];
    assert HandsOverIn(size, overlap, ps, a, b);
    assert EndsPiece(ps, a);
    OnePieceAt(size, overlap, ps, |text|, a, b, p);
  }

  lemma OnePieceAt(size: nat, overlap: nat, ps: seq<Span>, n: nat, a: Span, b: Span, p: Span)
    requires Stream(ps, size, n) && EndsPiece(ps, a) && HandsOverIn(size, overlap, ps, a, b)
    requires p in ps && p.start == a.end
    ensures HandsOver(size, overlap, a, p, b)
  {
    hide EarliestStart;
    var i :| 0 <= i < |ps| && ps[i].end == a.end;
    var q :| 0 <= q < |ps| && HandsOver(size, overlap, a, ps[q], b);
    var j :| 0 <= j < |ps| && ps[j] == p;
    NextPiece(ps, size, n, i, q);
    NextPiece(ps, size, n, i, j);
  }
}
