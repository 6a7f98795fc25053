/** Where pieces are cut: just after the strongest separator in a stretch that is longer than a
    chunk, and by strides only where such a stretch holds no separator at all. */
module ChunkCuts {
  import opened Arithmetic
  import opened ChunkSpec
  import opened ChunkWords

  /** `c` stands whole strides after `start`. */
  ghost predicate OnStride(start: nat, step: nat, c: nat) { exists m: nat :: c == start + Times(m, step) }

  /** Inside `start..end` the first `level` separators occur at most at the very end, and `c` follows the next. */
  ghost predicate FollowsSeparator(text: string, seps: seq<string>, level: nat, start: nat, end: nat, c: nat)
    requires level < |seps|
  {
    && (forall l :: 0 <= l < level ==> ClearOf(text, seps[l], start, end))
    && start + |seps[level]| <= c && MatchesAt(text, c - |seps[level]|, seps[level])
  }

  /** `c` cuts `start..end`, longer than a chunk, after the first separator of the list it holds, or
      on a stride if it holds none. */
  ghost predicate StrongestCut(text: string, size: nat, overlap: nat, seps: seq<string>, start: nat, end: nat, c: nat) {
    && overlap < size && start < c < end <= |text| && end - start > size
    && (|| (exists level :: 0 <= level < |seps| && FollowsSeparator(text, seps, level, start, end, c))
        || ((forall l :: 0 <= l < |seps| ==> ClearOf(text, seps[l], start, end)) && OnStride(start, size - overlap, c)))
  }

  ghost predicate Cut(text: string, size: nat, overlap: nat, seps: seq<string>, c: nat) {
    exists start, end :: StrongestCut(text, size, overlap, seps, start, end, c)
  }

  /** Every piece but the last ends at such a cut. */
  ghost predicate CutsBetween(text: string, size: nat, overlap: nat, ps: seq<Span>) {
    forall k :: 0 <= k < |ps| - 1 ==> Cut(text, size, overlap, SEPARATORS, ps[k].end)
  }

  lemma {:induction false} StridesOnStride(from: nat, end: nat, step: nat, k: nat)
    requires step >= 1 && k + 1 < |Strides(from, end, step)|
    ensures Strides(from, end, step)[k].end == from + Times(k + 1, step)
    decreases k
  {
    TimesNext(0, step);
    if k > 0 {
      StridesOnStride(from + step, end, step, k - 1);
      TimesNext(k, step);
    }
  }

  lemma FallbackCuts(text: string, size: nat, overlap: nat, start: nat, end: nat)
    requires overlap < size && start + size < end <= |text| && ClearBelow(text, LEVELS, start, end)
    ensures CutsBetween(text, size, overlap, Strides(start, end, size - overlap))
  {
    hide Strides, Times, ClearBelow;
    var ps := Strides(start, end, size - overlap);
    StridesTile(start, end, size - overlap);
    TilesInside(ps, start, end);
    forall k | 0 <= k < |ps| - 1 ensures Cut(text, size, overlap, SEPARATORS, ps[k].end) {
      StridesOnStride(start, end, size - overlap, k);
      assert ps[k].end == ps[k + 1].start < ps[k + 1].end;
      StrideCut(text, size, overlap, start, end, ps[k].end);
    }
  }

  lemma StrideCut(text: string, size: nat, overlap: nat, start: nat, end: nat, c: nat)
    requires overlap < size && start + size < end <= |text| && ClearBelow(text, LEVELS, start, end)
    requires start < c < end && OnStride(start, size - overlap, c)
    ensures Cut(text, size, overlap, SEPARATORS, c)
  {
    hide ClearOf, OnStride, FollowsSeparator;
    forall l | 0 <= l < |SEPARATORS| ensures ClearOf(text, SEPARATORS[l], start, end) {
      assert SEPARATORS[l] == Separator(l);
    }
    assert StrongestCut(text, size, overlap, SEPARATORS, start, end, c);
  }

  /** Segments as one level leaves them: each clear of that level too, each but the last ending at a cut. */
  ghost predicate Segmented(text: string, size: nat, overlap: nat, segs: seq<Span>, level: nat)
    requires level <= LEVELS
  {
    && CutsBetween(text, size, overlap, segs)
    && forall k :: 0 <= k < |segs| ==>
         segs[k].start < segs[k].end <= |text| && ClearBelow(text, level, segs[k].start, segs[k].end)
  }

  lemma LevelCuts(text: string, size: nat, overlap: nat, start: nat, end: nat, level: nat)
    requires overlap < size && start + size < end <= |text| && level < LEVELS && ClearBelow(text, level, start, end)
    ensures Segmented(text, size, overlap, Scan(text, Separator(level), start, start, end), level + 1)
  {
    hide Scan, ClearOf, MatchesAt, OnStride;
    var sep := Separator(level);
    var segs := Scan(text, sep, start, start, end);
    ScanTiles(text, sep, start, start, end);
    ScanCuts(text, sep, start, start, end);
    TilesInside(segs, start, end);
    forall k | 0 <= k < |segs| ensures ClearBelow(text, level + 1, segs[k].start, segs[k].end) {
      ClearsNext(text, level, start, end, segs[k]);
    }
    forall k | 0 <= k < |segs| - 1 ensures Cut(text, size, overlap, SEPARATORS, segs[k].end) {
      assert CutAfter(text, sep, segs[k]);
      forall l | 0 <= l < level ensures ClearOf(text, SEPARATORS[l], start, end) {
        assert SEPARATORS[l] == Separator(l);
      }
      assert FollowsSeparator(text, SEPARATORS, level, start, end, segs[k].end);
      assert segs[k].end == segs[k + 1].start < segs[k + 1].end;
      assert StrongestCut(text, size, overlap, SEPARATORS, start, end, segs[k].end);
    }
  }

  lemma {:induction false} PiecesCut(text: string, size: nat, overlap: nat, start: nat, end: nat, level: nat)
    requires overlap < size && start <= end <= |text| && level <= LEVELS && ClearBelow(text, level, start, end)
    ensures CutsBetween(text, size, overlap, Pieces(text, size, overlap, start, end, level))
    decreases LEVELS - level, 0
  {
    hide Pieces, ClearBelow, Separator, Scan, Cut, Segmented, Strides;
    if end - start <= size {
      PiecesThatFit(text, size, overlap, start, end, level);
    } else if level == LEVELS {
      PiecesAtFallback(text, size, overlap, start, end);
      FallbackCuts(text, size, overlap, start, end);
    } else {
      PiecesAtLevel(text, size, overlap, start, end, level);
      LevelCuts(text, size, overlap, start, end, level);
      PiecesOfAllCut(text, size, overlap, Scan(text, Separator(level), start, start, end), level + 1);
    }
  }

  lemma {:induction false} PiecesOfAllCut(text: string, size: nat, overlap: nat, segs: seq<Span>, level: nat)
    requires overlap < size && level <= LEVELS && Segmented(text, size, overlap, segs, level)
    ensures CutsBetween(text, size, overlap, PiecesOfAll(text, size, overlap, segs, level))
    decreases LEVELS - level, |segs| + 1
  {
    hide Pieces, ClearBelow, Cut;
    if segs != [] {
      var first := Pieces(text, size, overlap, segs[0].start, segs[0].end, level);
      var rest := PiecesOfAll(text, size, overlap, segs[1..], level);
      PiecesCut(text, size, overlap, segs[0].start, segs[0].end, level);
      PiecesTile(text, size, overlap, segs[0].start, segs[0].end, level);
      assert CutsBetween(text, size, overlap, segs[1..]) by {
        forall k | 0 <= k < |segs[1..]| - 1 ensures Cut(text, size, overlap, SEPARATORS, segs[1..][k].end) {
          assert segs[1..][k] == segs[k + 1];
        }
      }
      PiecesOfAllCut(text, size, overlap, segs[1..], level);
      var all := first + rest;
      forall k | 0 <= k < |all| - 1 ensures Cut(text, size, overlap, SEPARATORS, all[k].end) {
        if k < |first| - 1 {
          assert all[k] == first[k];
        } else if k == |first| - 1 {
          assert all[k].end == segs[0].end && |segs| > 1;
        } else {
          assert all[k] == rest[k - |first|];
        }
      }
    }
  }

  /** Every place a document is cut into pieces follows the strongest separator of a stretch that is
      too long for a chunk, paragraphs before lines, sentences, clauses and words. */
  lemma CutsAreStrongest(text: string, size: nat, overlap: nat, k: nat)
    requires overlap < size && k + 1 < |Pieces(text, size, overlap, 0, |text|, 0)|
    ensures Cut(text, size, overlap,
                ["\r\n\r\n", "\n\n", "\r\n", "\n", ". ", "? ", "! ", "; ", ", ", " "],
                Pieces(text, size, overlap, 0, |text|, 0)[k].end)
  {
    hide Pieces, Cut;
    PiecesCut(text, size, overlap, 0, |text|, 0);
  }
}
