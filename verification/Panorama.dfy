/** Offset chaining, canvas sizing and seam-gated painting of the anime stitcher (stitch_anime.rs).

    `corr(r, i)` is the correlation surface of frames r and i; it is arbitrary apart from its size.
 */
module Panorama {
  import opened Images
  import opened AnimeSeam
  import opened PhaseCorrelation

  const QUALITY_THRESHOLD := 0.15
  const MAX_BACKTRACK := 40

  datatype Offset = Offset(x: int, y: int)

  datatype Result<T> = Ok(value: T) | Err(error: string)

  type Surfaces = (int, int) -> Grid<real>

  function Min(a: int, b: int): int { if a < b then a else b }
  function Max(a: int, b: int): int { if a < b then b else a }

  /** Surfaces have the smaller of the two frames' sizes; a frame is never empty. */
  ghost predicate SurfacesFit(frames: seq<Grid<Rgb>>, corr: Surfaces) {
    && (forall i | 0 <= i < |frames| :: frames[i].w > 0 && frames[i].h > 0)
    && forall r, i | 0 <= r < i < |frames| ::
         corr(r, i).w == Min(frames[r].w, frames[i].w) && corr(r, i).h == Min(frames[r].h, frames[i].h)
  }

  // ---- offsets ----

  /** What comparing frames r and i measures. */
  type Pairs = (int, int) -> Shift

  ghost predicate MeasuredBy(pair: Pairs, frames: seq<Grid<Rgb>>, corr: Surfaces)
    requires SurfacesFit(frames, corr)
  {
    forall r, i | 0 <= r < i < |frames| :: pair(r, i) == ShiftOf(corr(r, i))
  }

  /** Frame i matches frame r: the nearest of the last 40 frames whose quality suffices. */
  ghost predicate Matches(pair: Pairs, i: int, r: int) {
    && Max(0, i - MAX_BACKTRACK) <= r < i
    && pair(r, i).quality >= QUALITY_THRESHOLD
    && forall s | r < s < i :: pair(s, i).quality < QUALITY_THRESHOLD
  }

  /** None of the last 40 frames matches frame i. */
  ghost predicate SceneCut(pair: Pairs, i: int) {
    forall s | Max(0, i - MAX_BACKTRACK) <= s < i :: pair(s, i).quality < QUALITY_THRESHOLD
  }

  /** The position of a new frame behind the frames already placed, and the quality recorded for it. */
  ghost predicate Places(pair: Pairs, offsets: seq<Offset>, offset: Offset, quality: real) {
    var i := |offsets|;
    && i > 0
    && (SceneCut(pair, i) ==> offset == offsets[i-1] && quality < QUALITY_THRESHOLD)
    && forall r | 0 <= r < i && Matches(pair, i, r) ::
         offset == Offset(offsets[r].x + pair(r, i).dx, offsets[r].y + pair(r, i).dy) && quality == pair(r, i).quality
  }

  ghost predicate Chained(pair: Pairs, offsets: seq<Offset>, quality: seq<real>) {
    && |offsets| > 0 && |quality| == |offsets| - 1
    && offsets[0] == Offset(0, 0)
    && forall i | 0 < i < |offsets| :: IsPlaced(pair, offsets, quality, i)
  }

  ghost predicate IsPlaced(pair: Pairs, offsets: seq<Offset>, quality: seq<real>, i: int)
    requires 0 < i < |offsets| == |quality| + 1
  {
    Places(pair, offsets[..i], offsets[i], quality[i-1])
  }

  /** What following a match, or keeping the previous position, amounts to. */
  lemma PlacedByMatch(pair: Pairs, offsets: seq<Offset>, r: nat, offset: Offset, q: real)
    requires r < |offsets| && Matches(pair, |offsets|, r)
    requires offset == Offset(offsets[r].x + pair(r, |offsets|).dx, offsets[r].y + pair(r, |offsets|).dy)
    requires q == pair(r, |offsets|).quality
    ensures Places(pair, offsets, offset, q)
  {
    var i := |offsets|;
    forall s | 0 <= s < i && Matches(pair, i, s)
      ensures s == r
    {
      assert s < r ==> pair(r, i).quality < QUALITY_THRESHOLD;
    }
  }

  lemma PlacedByCut(pair: Pairs, offsets: seq<Offset>, q: real)
    requires |offsets| > 0 && SceneCut(pair, |offsets|) && q < QUALITY_THRESHOLD
    ensures Places(pair, offsets, offsets[|offsets|-1], q)
  {
  }

  /** Every frame either is a scene cut or has one match. */
  lemma CutOrMatch(pair: Pairs, i: nat, lo: nat) returns (r: int)
    requires Max(0, i - MAX_BACKTRACK) <= lo <= i
    ensures r == -1 || (lo <= r && Matches(pair, i, r))
    ensures r == -1 ==> forall s | lo <= s < i :: pair(s, i).quality < QUALITY_THRESHOLD
    decreases i - lo
  {
    if lo == i {
      r := -1;
    } else {
      r := CutOrMatch(pair, i, lo + 1);
      if r == -1 && pair(lo, i).quality >= QUALITY_THRESHOLD {
        r := lo;
      }
    }
  }

  method PlaceFrame(frames: seq<Grid<Rgb>>, corr: Surfaces, ghost pair: Pairs, offsets: seq<Offset>)
    returns (offset: Offset, bestQ: real)
    requires SurfacesFit(frames, corr) && MeasuredBy(pair, frames, corr) && 0 < |offsets| < |frames|
    ensures Places(pair, offsets, offset, bestQ)
  {
    var i := |offsets|;
    bestQ := 0.0;
    var limit := Min(i, MAX_BACKTRACK);
    var k := 1;
    while k <= limit
      invariant 1 <= k <= limit + 1
      invariant forall s | i - k < s < i :: pair(s, i).quality < QUALITY_THRESHOLD
      invariant bestQ < QUALITY_THRESHOLD
    {
      var refIdx := i - k;
      var s := PhaseCorrelate(corr(refIdx, i));
      assert s == pair(refIdx, i);
      bestQ := if s.quality > bestQ then s.quality else bestQ;
      if s.quality >= QUALITY_THRESHOLD {
        var base := offsets[refIdx];
        offset := Offset(base.x + s.dx, base.y + s.dy);
        PlacedByMatch(pair, offsets, refIdx, offset, bestQ);
        return;
      }
      k := k + 1;
    }
    offset := offsets[i-1];
    PlacedByCut(pair, offsets, bestQ);
  }

  method ChainOffsets(frames: seq<Grid<Rgb>>, corr: Surfaces, ghost pair: Pairs)
    returns (offsets: seq<Offset>, quality: seq<real>)
    requires SurfacesFit(frames, corr) && MeasuredBy(pair, frames, corr) && |frames| > 0
    ensures |offsets| == |frames| && Chained(pair, offsets, quality)
  {
    offsets, quality := [Offset(0, 0)], [];
    while |offsets| < |frames|
      invariant |offsets| <= |frames| && Chained(pair, offsets, quality)
      decreases |frames| - |offsets|
    {
      var offset, bestQ := PlaceFrame(frames, corr, pair, offsets);
      ExtendChain(pair, offsets, quality, offset, bestQ);
      offsets, quality := offsets + [offset], quality + [bestQ];
    }
  }

  lemma ExtendChain(pair: Pairs, offsets: seq<Offset>, quality: seq<real>, offset: Offset, q: real)
    requires Chained(pair, offsets, quality) && Places(pair, offsets, offset, q)
    ensures Chained(pair, offsets + [offset], quality + [q])
  {
    var os, qs := offsets + [offset], quality + [q];
    forall i | 0 < i < |os|
      ensures IsPlaced(pair, os, qs, i)
    {
      if i < |offsets| {
        assert os[..i] == offsets[..i];
        assert IsPlaced(pair, offsets, quality, i);
      } else {
        assert os[..i] == offsets;
      }
    }
  }

  /** Wherever a frame is matched, it is measured where it really lies. */
  ghost predicate MeasuresPositions(pair: Pairs, at: seq<Offset>) {
    forall r, i | 0 <= r < i < |at| && Matches(pair, i, r) ::
      pair(r, i).dx == at[i].x - at[r].x && pair(r, i).dy == at[i].y - at[r].y
  }

  /** Then, scene cuts apart, the chain puts every frame where it lies, seen from the first. */
  lemma {:induction false} ChainRecoversPositions(pair: Pairs, offsets: seq<Offset>, quality: seq<real>,
                                                  at: seq<Offset>, i: nat)
    requires Chained(pair, offsets, quality) && |at| == |offsets| && MeasuresPositions(pair, at)
    requires forall k | 0 < k < |at| :: !SceneCut(pair, k)
    requires i < |offsets|
    ensures offsets[i] == Offset(at[i].x - at[0].x, at[i].y - at[0].y)
  {
    if i > 0 {
      assert IsPlaced(pair, offsets, quality, i);
      var r := CutOrMatch(pair, i, Max(0, i - MAX_BACKTRACK));
      assert r != -1 by { assert !SceneCut(pair, i); }
      ChainRecoversPositions(pair, offsets, quality, at, r);
      assert offsets[..i][r] == offsets[r];
    }
  }

  /** Each frame's surface against the frame before it has one peak, high enough, where the frame really lies. */
  ghost predicate PeaksAtPositions(frames: seq<Grid<Rgb>>, corr: Surfaces, at: seq<Offset>)
    requires SurfacesFit(frames, corr) && |at| == |frames|
  {
    forall r, i | 0 <= r < i < |frames| && i == r + 1 :: PeaksAt(corr(r, i), at[i].x - at[r].x, at[i].y - at[r].y)
  }

  ghost predicate PeaksAt(s: Grid<real>, d: int, e: int)
    requires s.w > 0 && s.h > 0
  {
    exists v :: v >= QUALITY_THRESHOLD && IsSinglePeak(s, d, e, v)
  }

  lemma PeaksMeasurePositions(pair: Pairs, frames: seq<Grid<Rgb>>, corr: Surfaces, at: seq<Offset>)
    requires SurfacesFit(frames, corr) && MeasuredBy(pair, frames, corr) && |at| == |frames|
    requires PeaksAtPositions(frames, corr, at)
    ensures MeasuresPositions(pair, at) && forall k | 0 < k < |at| :: !SceneCut(pair, k)
  {
    forall r, i | 0 <= r < i < |frames| && i == r + 1
      ensures pair(r, i).quality >= QUALITY_THRESHOLD
      ensures pair(r, i).dx == at[i].x - at[r].x && pair(r, i).dy == at[i].y - at[r].y
    {
      var d, e := at[i].x - at[r].x, at[i].y - at[r].y;
      assert PeaksAt(corr(r, i), d, e);
      var v :| v >= QUALITY_THRESHOLD && IsSinglePeak(corr(r, i), d, e, v);
      SinglePeakIsReadExactly(corr(r, i), d, e, v);
    }
    forall k | 0 < k < |at|
      ensures !SceneCut(pair, k)
    {
      assert pair(k - 1, k).quality >= QUALITY_THRESHOLD;
    }
    forall r, i | 0 <= r < i < |at| && Matches(pair, i, r)
      ensures i == r + 1
    {
      assert r < i - 1 ==> pair(i - 1, i).quality < QUALITY_THRESHOLD;
    }
  }

  // ---- how far the chain can drift ----

  /** No measured displacement exceeds half a frame, rounded up. */
  ghost predicate HalfFrameShifts(pair: Pairs, w: nat, h: nat, n: nat) {
    forall r, i | 0 <= r < i < n :: 2 * Size(pair(r, i).dx) <= w + 1 && 2 * Size(pair(r, i).dy) <= h + 1
  }

  lemma EqualFramesShiftByHalf(pair: Pairs, frames: seq<Grid<Rgb>>, corr: Surfaces, w: nat, h: nat)
    requires SurfacesFit(frames, corr) && MeasuredBy(pair, frames, corr)
    requires forall i | 0 <= i < |frames| :: frames[i].w == w && frames[i].h == h
    ensures HalfFrameShifts(pair, w, h, |frames|)
  {
    forall r, i | 0 <= r < i < |frames|
      ensures 2 * Size(pair(r, i).dx) <= w + 1 && 2 * Size(pair(r, i).dy) <= h + 1
    {
      ShiftIsBounded(corr(r, i));
    }
  }

  /** Each later value lies within d/2 of some earlier one. */
  ghost predicate Drifts(xs: seq<int>, d: nat) {
    forall i | 0 < i < |xs| :: DriftStep(xs, d, i)
  }

  ghost predicate DriftStep(xs: seq<int>, d: nat, i: int)
    requires 0 < i < |xs|
  {
    exists r | 0 <= r < i :: Near(xs[i], xs[r], d)
  }

  predicate Near(a: int, b: int, d: nat) { 2 * Size(a - b) <= d }

  function Reach(n: nat, d: nat): nat { if n <= 1 then 0 else Reach(n - 1, d) + d }

  lemma {:induction false} ReachIs(n: nat, d: nat)
    requires n > 0
    ensures Reach(n, d) == (n - 1) * d
  {
    if n > 1 {
      ReachIs(n - 1, d);
      assert (n - 1) * d == (n - 2) * d + d;
    }
  }

  /** Through any tree of matches, two of the first n values are within n-1 half steps. */
  lemma {:induction false} DriftSpread(xs: seq<int>, d: nat, n: nat, i: int, j: int)
    requires Drifts(xs, d) && 0 <= i < n <= |xs| && 0 <= j < n
    ensures 2 * Size(xs[i] - xs[j]) <= Reach(n, d)
    decreases n
  {
    if n > 1 {
      assert DriftStep(xs, d, n - 1);
      var r :| 0 <= r < n - 1 && Near(xs[n-1], xs[r], d);
      if i < n - 1 && j < n - 1 {
        DriftSpread(xs, d, n - 1, i, j);
      } else if i < n - 1 {
        DriftSpread(xs, d, n - 1, i, r);
      } else if j < n - 1 {
        DriftSpread(xs, d, n - 1, r, j);
      }
    }
  }

  lemma ChainDrifts(pair: Pairs, offsets: seq<Offset>, quality: seq<real>, w: nat, h: nat)
    requires Chained(pair, offsets, quality) && HalfFrameShifts(pair, w, h, |offsets|)
    ensures Drifts(Xs(offsets), w + 1) && Drifts(Ys(offsets), h + 1)
  {
    var xs, ys := Xs(offsets), Ys(offsets);
    var dx, dy := w + 1, h + 1;
    forall i | 0 < i < |offsets|
      ensures DriftStep(xs, dx, i) && DriftStep(ys, dy, i)
    {
      assert IsPlaced(pair, offsets, quality, i);
      var r := CutOrMatch(pair, i, Max(0, i - MAX_BACKTRACK));
      var from := if r == -1 then i - 1 else r;
      assert Near(xs[i], xs[from], w + 1) && Near(ys[i], ys[from], h + 1);
    }
  }

  // ---- canvas ----

  function Least(f: seq<int>): (m: int)
    requires |f| > 0
    ensures m in f && forall v | v in f :: m <= v
  {
    if |f| == 1 then f[0]
    else
      var m := Least(f[1..]);
      assert forall v | v in f :: v == f[0] || v in f[1..];
      if f[0] <= m then f[0] else m
  }

  function Greatest(f: seq<int>): (m: int)
    requires |f| > 0
    ensures m in f && forall v | v in f :: v <= m
  {
    if |f| == 1 then f[0]
    else
      var m := Greatest(f[1..]);
      assert forall v | v in f :: v == f[0] || v in f[1..];
      if f[0] >= m then f[0] else m
  }

  function Xs(offsets: seq<Offset>): seq<int> { seq(|offsets|, i requires 0 <= i < |offsets| => offsets[i].x) }
  function Ys(offsets: seq<Offset>): seq<int> { seq(|offsets|, i requires 0 <= i < |offsets| => offsets[i].y) }

  /** Where the frames' top-left corners lie on the canvas. */
  function Corners(offsets: seq<Offset>): (c: seq<Offset>)
    requires |offsets| > 0
    ensures |c| == |offsets|
  {
    var minX, minY := Least(Xs(offsets)), Least(Ys(offsets));
    seq(|offsets|, i requires 0 <= i < |offsets| => Offset(offsets[i].x - minX, offsets[i].y - minY))
  }

  function CanvasWidth(offsets: seq<Offset>, fw: nat): int
    requires |offsets| > 0
  {
    Greatest(Xs(offsets)) + fw - Least(Xs(offsets))
  }

  function CanvasHeight(offsets: seq<Offset>, fh: nat): int
    requires |offsets| > 0
  {
    Greatest(Ys(offsets)) + fh - Least(Ys(offsets))
  }

  function SanityCap(n: nat, fw: nat, fh: nat): nat {
    (n + 1) * Max(Max(fw, fh), 1) * 2
  }

  /** (x, y) lies in the fw by fh frame whose corner is c. */
  predicate InFrame(c: Offset, fw: nat, fh: nat, x: int, y: int) {
    c.x <= x < c.x + fw && c.y <= y < c.y + fh
  }

  /** Every frame rectangle lies inside the canvas, and the canvas is no larger than that needs. */
  lemma CanvasHoldsEveryFrame(offsets: seq<Offset>, fw: nat, fh: nat, i: int, x: int, y: int)
    requires |offsets| > 0 && 0 <= i < |offsets| && InFrame(Corners(offsets)[i], fw, fh, x, y)
    ensures 0 <= x < CanvasWidth(offsets, fw) && 0 <= y < CanvasHeight(offsets, fh)
  {
    assert Xs(offsets)[i] in Xs(offsets) && Ys(offsets)[i] in Ys(offsets);
  }

  /** Some frame touches each side. */
  lemma CanvasIsTight(offsets: seq<Offset>, fw: nat, fh: nat) returns (left: int, right: int, top: int, bottom: int)
    requires |offsets| > 0
    ensures 0 <= left < |offsets| && 0 <= right < |offsets| && 0 <= top < |offsets| && 0 <= bottom < |offsets|
    ensures Corners(offsets)[left].x == 0 && Corners(offsets)[right].x + fw == CanvasWidth(offsets, fw)
    ensures Corners(offsets)[top].y == 0 && Corners(offsets)[bottom].y + fh == CanvasHeight(offsets, fh)
  {
    var xs, ys := Xs(offsets), Ys(offsets);
    left :| 0 <= left < |xs| && xs[left] == Least(xs);
    right :| 0 <= right < |xs| && xs[right] == Greatest(xs);
    top :| 0 <= top < |ys| && ys[top] == Least(ys);
    bottom :| 0 <= bottom < |ys| && ys[bottom] == Greatest(ys);
  }

  lemma {:induction false} DriftRange(xs: seq<int>, d: nat)
    requires Drifts(xs, d) && |xs| > 0
    ensures Least(xs) <= Greatest(xs) && 2 * (Greatest(xs) - Least(xs)) <= (|xs| - 1) * d
  {
    var i :| 0 <= i < |xs| && xs[i] == Greatest(xs);
    var j :| 0 <= j < |xs| && xs[j] == Least(xs);
    DriftSpread(xs, d, |xs|, i, j);
    ReachIs(|xs|, d);
  }

  /** For equal-size frames the canvas exceeds one frame by at most n-1 half frames (rounded up). */
  lemma CanvasIsBounded(pair: Pairs, offsets: seq<Offset>, quality: seq<real>, w: nat, h: nat)
    requires Chained(pair, offsets, quality) && HalfFrameShifts(pair, w, h, |offsets|)
    ensures w <= CanvasWidth(offsets, w) && 2 * (CanvasWidth(offsets, w) - w) <= (|offsets| - 1) * (w + 1)
    ensures h <= CanvasHeight(offsets, h) && 2 * (CanvasHeight(offsets, h) - h) <= (|offsets| - 1) * (h + 1)
  {
    ChainDrifts(pair, offsets, quality, w, h);
    DriftRange(Xs(offsets), w + 1);
    DriftRange(Ys(offsets), h + 1);
  }

  lemma MulMonotone(a: nat, b: nat, c: nat)
    requires b <= c
    ensures a * b <= a * c
  {
  }

  lemma HalfFramesAddUp(n: nat, w: nat, cw: int, m: nat)
    requires n > 0 && 0 < w <= m && 2 * (cw - w) <= (n - 1) * (w + 1)
    ensures cw <= (n + 1) * m * 2
  {
    MulMonotone(n - 1, w + 1, 2 * m);
    assert (n - 1) * (2 * m) == 2 * ((n - 1) * m);
    assert (n + 1) * m == (n - 1) * m + 2 * m;
  }

  lemma WidthIsUnderCap(n: nat, w: nat, h: nat, cw: int)
    requires n > 0 && w > 0 && 2 * (cw - w) <= (n - 1) * (w + 1)
    ensures cw <= SanityCap(n, w, h)
  {
    HalfFramesAddUp(n, w, cw, Max(Max(w, h), 1));
  }

  lemma HeightIsUnderCap(n: nat, w: nat, h: nat, ch: int)
    requires n > 0 && h > 0 && 2 * (ch - h) <= (n - 1) * (h + 1)
    ensures ch <= SanityCap(n, w, h)
  {
    HalfFramesAddUp(n, h, ch, Max(Max(w, h), 1));
  }

  predicate FitsUnderCap(offsets: seq<Offset>, w: nat, h: nat)
    requires |offsets| > 0
  {
    CanvasWidth(offsets, w) <= SanityCap(|offsets|, w, h) && CanvasHeight(offsets, h) <= SanityCap(|offsets|, w, h)
  }

  /** So the sanity cap never stops a run over equal-size frames. */
  lemma CapNeverFires(pair: Pairs, offsets: seq<Offset>, quality: seq<real>, w: nat, h: nat)
    requires Chained(pair, offsets, quality) && HalfFrameShifts(pair, w, h, |offsets|) && w > 0 && h > 0
    ensures FitsUnderCap(offsets, w, h)
  {
    var n, cw, ch := |offsets|, CanvasWidth(offsets, w), CanvasHeight(offsets, h);
    assert 2 * (cw - w) <= (n - 1) * (w + 1) && 2 * (ch - h) <= (n - 1) * (h + 1) by {
      CanvasIsBounded(pair, offsets, quality, w, h);
    }
    assert cw <= SanityCap(n, w, h) by { WidthIsUnderCap(n, w, h, cw); }
    assert ch <= SanityCap(n, w, h) by { HeightIsUnderCap(n, w, h, ch); }
  }

  // ---- painting ----

  /** The seam that gates the overlap with the previous frame, if any. */
  datatype Cut = NoCut | Horizontal(seam: seq<int>) | Vertical(seam: seq<int>)

  /** The rectangle two fw by fh frames share. */
  datatype Overlap = Overlap(left: int, top: int, width: nat, height: nat) {
    predicate Has(x: int, y: int) {
      left <= x < left + width && top <= y < top + height
    }
  }

  function OverlapOf(prev: Offset, cur: Offset, fw: nat, fh: nat): Overlap {
    var left, right := Max(cur.x, prev.x), Min(cur.x + fw, prev.x + fw);
    var top, bottom := Max(cur.y, prev.y), Min(cur.y + fh, prev.y + fh);
    Overlap(left, top, Max(right - left, 0), Max(bottom - top, 0))
  }

  predicate MovesVertically(prev: Offset, cur: Offset) {
    Size(cur.y - prev.y) >= Size(cur.x - prev.x)
  }

  /** Looks for a seam only where the overlap is large enough and the pair matched well. */
  ghost predicate IsCut(root: RootFn, canvas: Grid<Rgb>, frame: Grid<Rgb>, prev: Offset, cur: Offset, fw: nat, fh: nat,
                        q: real, cut: Cut) {
    var ov := OverlapOf(prev, cur, fw, fh);
    && CutFits(cut, ov)
    && (cut.NoCut? <==> !(ov.width > 4 && ov.height > 4 && q >= QUALITY_THRESHOLD))
    && (cut.Horizontal? ==> MovesVertically(prev, cur))
    && (cut.Horizontal? ==>
          IsHorizontalSeam(root, canvas, ov.left, ov.top, frame, ov.left - cur.x, ov.top - cur.y, ov.width, ov.height,
                           cut.seam))
    && (cut.Vertical? ==> !MovesVertically(prev, cur))
    && (cut.Vertical? ==>
          IsVerticalSeam(root, canvas, ov.left, ov.top, frame, ov.left - cur.x, ov.top - cur.y, ov.width, ov.height,
                         cut.seam))
  }

  ghost predicate CutFits(cut: Cut, ov: Overlap) {
    match cut
    case NoCut => true
    case Horizontal(s) => |s| == ov.width
    case Vertical(s) => |s| == ov.height
  }

  /** Is (x, y), a pixel of the new frame, taken from the new frame? */
  ghost predicate TakesNew(prev: Offset, cur: Offset, fw: nat, fh: nat, cut: Cut, x: int, y: int)
    requires CutFits(cut, OverlapOf(prev, cur, fw, fh))
  {
    var ov := OverlapOf(prev, cur, fw, fh);
    if !ov.Has(x, y) then true
    else
      match cut
      case NoCut => true
      case Horizontal(s) => if cur.y - prev.y >= 0 then y - ov.top >= s[x - ov.left] else y - ov.top < s[x - ov.left]
      case Vertical(s) => if cur.x - prev.x >= 0 then x - ov.left >= s[y - ov.top] else x - ov.left < s[y - ov.top]
  }

  /** The canvas after painting one more frame. */
  ghost function PaintedPixel(canvas: Grid<Rgb>, frame: Grid<Rgb>, prev: Offset, cur: Offset, fw: nat, fh: nat,
                              cut: Cut, x: int, y: int): Rgb
    requires frame.w >= fw && frame.h >= fh && canvas.Has(x, y)
    requires CutFits(cut, OverlapOf(prev, cur, fw, fh))
  {
    if InFrame(cur, fw, fh, x, y) && TakesNew(prev, cur, fw, fh, cut, x, y) then frame.At(x - cur.x, y - cur.y)
    else canvas.At(x, y)
  }

  ghost predicate IsPainted(after: Grid<Rgb>, before: Grid<Rgb>, frame: Grid<Rgb>, prev: Offset, cur: Offset, fw: nat,
                            fh: nat, cut: Cut)
    requires frame.w >= fw && frame.h >= fh
    requires CutFits(cut, OverlapOf(prev, cur, fw, fh))
  {
    && after.w == before.w && after.h == before.h
    && forall x, y | before.Has(x, y) :: after.At(x, y) == PaintedPixel(before, frame, prev, cur, fw, fh, cut, x, y)
  }

  /** The seam is the boundary: the line x - left or y - top of the overlap, counted from its first column and row,
      shows the new frame from the seam on, or up to it when the camera moves to the left or up, and the old canvas on
      the other side.  What only the new frame covers shows the new frame, and nothing else changes. */
  lemma SeamIsTheBoundary(after: Grid<Rgb>, before: Grid<Rgb>, frame: Grid<Rgb>, prev: Offset, cur: Offset, fw: nat,
                          fh: nat, cut: Cut, x: int, y: int)
    requires frame.w >= fw && frame.h >= fh && CutFits(cut, OverlapOf(prev, cur, fw, fh))
    requires IsPainted(after, before, frame, prev, cur, fw, fh, cut) && before.Has(x, y)
    ensures var inNew := cur.x <= x < cur.x + fw && cur.y <= y < cur.y + fh;
            var inOld := prev.x <= x < prev.x + fw && prev.y <= y < prev.y + fh;
            var left := if prev.x < cur.x then cur.x else prev.x;
            var top := if prev.y < cur.y then cur.y else prev.y;
            && after.w == before.w && after.h == before.h
            && (!inNew ==> after.At(x, y) == before.At(x, y))
            && (inNew && (!inOld || cut.NoCut?) ==> after.At(x, y) == frame.At(x - cur.x, y - cur.y))
            && (inNew && inOld && cut.Horizontal? ==>
                  && 0 <= x - left < |cut.seam|
                  && (cur.y >= prev.y ==>
                        after.At(x, y) == if y >= top + cut.seam[x - left] then frame.At(x - cur.x, y - cur.y)
                                          else before.At(x, y))
                  && (cur.y < prev.y ==>
                        after.At(x, y) == if y < top + cut.seam[x - left] then frame.At(x - cur.x, y - cur.y)
                                          else before.At(x, y)))
            && (inNew && inOld && cut.Vertical? ==>
                  && 0 <= y - top < |cut.seam|
                  && (cur.x >= prev.x ==>
                        after.At(x, y) == if x >= left + cut.seam[y - top] then frame.At(x - cur.x, y - cur.y)
                                          else before.At(x, y))
                  && (cur.x < prev.x ==>
                        after.At(x, y) == if x < left + cut.seam[y - top] then frame.At(x - cur.x, y - cur.y)
                                          else before.At(x, y)))
  {
  }

  /** The loop that copies the frame's pixels onto the canvas, gated by the seam. */
  method PaintFrame(canvas: array2<Rgb>, frame: Grid<Rgb>, prev: Offset, cur: Offset, fw: nat, fh: nat, cut: Cut)
    requires frame.w >= fw && frame.h >= fh
    requires CutFits(cut, OverlapOf(prev, cur, fw, fh))
    modifies canvas
    ensures IsPainted(Freeze(canvas), old(Freeze(canvas)), frame, prev, cur, fw, fh, cut)
  {
    var cw, ch := canvas.Length1, canvas.Length0;
    var ov := OverlapOf(prev, cur, fw, fh);
    ghost var before := Freeze(canvas);
    var fy := 0;
    while fy < fh
      invariant 0 <= fy <= fh
      invariant forall x, y | before.Has(x, y) ::
                  canvas[y, x] == if y - cur.y < fy then PaintedPixel(before, frame, prev, cur, fw, fh, cut, x, y)
                    else before.At(x, y)
    {
      var fx := 0;
      while fx < fw
        invariant 0 <= fx <= fw
        invariant forall x, y | before.Has(x, y) ::
                    canvas[y, x] == if y - cur.y < fy || (y - cur.y == fy && x - cur.x < fx)
                                    then PaintedPixel(before, frame, prev, cur, fw, fh, cut, x, y) else before.At(x, y)
      {
        var cx, cy := cur.x + fx, cur.y + fy;
        if !(cx < 0 || cy < 0 || cx >= cw || cy >= ch) {
          var inOv := cx >= ov.left && cx < ov.left + ov.width && cy >= ov.top && cy < ov.top + ov.height;
          var paint := true;
          if inOv && !cut.NoCut? {
            var oxRel, oyRel := cx - ov.left, cy - ov.top;
            if cut.Horizontal? {
              paint := if cur.y - prev.y >= 0 then oyRel >= cut.seam[oxRel] else oyRel < cut.seam[oxRel];
            } else {
              paint := if cur.x - prev.x >= 0 then oxRel >= cut.seam[oyRel] else oxRel < cut.seam[oyRel];
            }
          }
          assert paint == TakesNew(prev, cur, fw, fh, cut, cx, cy);
          if paint {
            canvas[cy, cx] := frame.At(fx, fy);
          }
        }
        fx := fx + 1;
      }
      fy := fy + 1;
    }
  }

  method ChooseCut(root: RootFn, canvas: array2<Rgb>, frame: Grid<Rgb>, prev: Offset, cur: Offset, fw: nat, fh: nat,
                   q: real) returns (cut: Cut)
    ensures IsCut(root, Freeze(canvas), frame, prev, cur, fw, fh, q, cut)
  {
    var ov := OverlapOf(prev, cur, fw, fh);
    var panDy, panDx := cur.y - prev.y, cur.x - prev.x;
    if ov.width > 4 && ov.height > 4 && q >= QUALITY_THRESHOLD {
      var fx0, fy0 := ov.left - cur.x, ov.top - cur.y;
      if Size(panDy) >= Size(panDx) {
        var s := FindHorizontalSeam(root, canvas, ov.left, ov.top, frame, fx0, fy0, ov.width, ov.height);
        cut := Horizontal(s);
      } else {
        var s := FindVerticalSeam(root, canvas, ov.left, ov.top, frame, fx0, fy0, ov.width, ov.height);
        cut := Vertical(s);
      }
    } else {
      cut := NoCut;
    }
  }

  // ---- whole runs ----

  /** The successive canvases and cuts of a run: canvases[k] is the canvas after k frames, cuts[k] gated frame k. */
  ghost predicate IsRun(root: RootFn, frames: seq<Grid<Rgb>>, corners: seq<Offset>, quality: seq<real>,
                        fw: nat, fh: nat, canvases: seq<Grid<Rgb>>, cuts: seq<Cut>) {
    && 0 < |canvases| <= |frames| + 1 && |cuts| == |canvases| - 1 && |corners| == |frames| && |quality| == |frames| - 1
    && (forall i | 0 <= i < |frames| :: frames[i].w >= fw && frames[i].h >= fh)
    && (forall x, y | canvases[0].Has(x, y) :: canvases[0].At(x, y) == Black)
    && forall k | 0 <= k < |canvases| - 1 :: IsRunStep(root, frames, corners, quality, fw, fh, canvases, cuts, k)
  }

  /** Frame 0 is copied whole; every later frame is gated by the seam against the frame before it. */
  ghost predicate IsRunStep(root: RootFn, frames: seq<Grid<Rgb>>, corners: seq<Offset>, quality: seq<real>,
                            fw: nat, fh: nat, canvases: seq<Grid<Rgb>>, cuts: seq<Cut>, k: int)
    requires 0 <= k < |canvases| - 1 == |cuts| <= |frames| == |corners| && |quality| == |frames| - 1
    requires forall i | 0 <= i < |frames| :: frames[i].w >= fw && frames[i].h >= fh
  {
    var prev := if k == 0 then corners[0] else corners[k-1];
    && (if k == 0 then cuts[0] == NoCut
        else IsCut(root, canvases[k], frames[k], prev, corners[k], fw, fh, quality[k-1], cuts[k]))
    && IsPainted(canvases[k+1], canvases[k], frames[k], prev, corners[k], fw, fh, cuts[k])
  }

  lemma ExtendRun(root: RootFn, frames: seq<Grid<Rgb>>, corners: seq<Offset>, quality: seq<real>,
                  fw: nat, fh: nat, canvases: seq<Grid<Rgb>>, cuts: seq<Cut>, next: Grid<Rgb>, cut: Cut)
    requires IsRun(root, frames, corners, quality, fw, fh, canvases, cuts) && |canvases| <= |frames|
    requires IsRunStep(root, frames, corners, quality, fw, fh, canvases + [next], cuts + [cut], |canvases| - 1)
    ensures IsRun(root, frames, corners, quality, fw, fh, canvases + [next], cuts + [cut])
  {
    var longer, longerCuts := canvases + [next], cuts + [cut];
    forall k | 0 <= k < |longer| - 1
      ensures IsRunStep(root, frames, corners, quality, fw, fh, longer, longerCuts, k)
    {
      if k < |canvases| - 1 {
        assert IsRunStep(root, frames, corners, quality, fw, fh, canvases, cuts, k);
      }
    }
  }

  method PaintAll(root: RootFn, frames: seq<Grid<Rgb>>, corners: seq<Offset>, quality: seq<real>,
                  fw: nat, fh: nat, cw: nat, ch: nat)
    returns (image: Grid<Rgb>, ghost canvases: seq<Grid<Rgb>>, ghost cuts: seq<Cut>)
    requires |frames| > 0 && |corners| == |frames| && |quality| == |frames| - 1
    requires forall i | 0 <= i < |frames| :: frames[i].w >= fw && frames[i].h >= fh
    ensures IsRun(root, frames, corners, quality, fw, fh, canvases, cuts) && |canvases| == |frames| + 1
    ensures image == canvases[|frames|] && canvases[0].w == cw && canvases[0].h == ch
  {
    var canvas := new Rgb[ch, cw]((_, _) => Black);
    canvases, cuts := [Freeze(canvas)], [];
    PaintFrame(canvas, frames[0], corners[0], corners[0], fw, fh, NoCut);
    ExtendRun(root, frames, corners, quality, fw, fh, canvases, cuts, Freeze(canvas), NoCut);
    canvases, cuts := canvases + [Freeze(canvas)], cuts + [NoCut];
    var i := 1;
    while i < |frames|
      invariant 1 <= i <= |frames| && |canvases| == i + 1
      invariant fresh(canvas) && canvases[i] == Freeze(canvas)
      invariant canvases[0].w == cw && canvases[0].h == ch
      invariant IsRun(root, frames, corners, quality, fw, fh, canvases, cuts)
    {
      var cut := ChooseCut(root, canvas, frames[i], corners[i-1], corners[i], fw, fh, quality[i-1]);
      PaintFrame(canvas, frames[i], corners[i-1], corners[i], fw, fh, cut);
      ExtendRun(root, frames, corners, quality, fw, fh, canvases, cuts, Freeze(canvas), cut);
      canvases, cuts := canvases + [Freeze(canvas)], cuts + [cut];
      i := i + 1;
    }
    image := Freeze(canvas);
  }

  method StitchAnime(root: RootFn, frames: seq<Grid<Rgb>>, corr: Surfaces, ghost pair: Pairs)
    returns (result: Result<Grid<Rgb>>, ghost offsets: seq<Offset>, ghost quality: seq<real>,
             ghost canvases: seq<Grid<Rgb>>, ghost cuts: seq<Cut>)
    requires SurfacesFit(frames, corr) && MeasuredBy(pair, frames, corr)
    requires forall i | 0 <= i < |frames| :: frames[i].w >= frames[0].w && frames[i].h >= frames[0].h
    ensures |frames| < 2 ==> result.Err?
    ensures |frames| >= 2 ==> |offsets| == |frames| && Chained(pair, offsets, quality)
    ensures |frames| >= 2 ==>
              var fw, fh := frames[0].w, frames[0].h;
              var cap := SanityCap(|frames|, fw, fh);
              result.Ok? <==> CanvasWidth(offsets, fw) <= cap && CanvasHeight(offsets, fh) <= cap
    ensures result.Ok? ==>
              var fw, fh := frames[0].w, frames[0].h;
              && IsRun(root, frames, Corners(offsets), quality, fw, fh, canvases, cuts) && |canvases| == |frames| + 1
              && canvases[0].w == CanvasWidth(offsets, fw) && canvases[0].h == CanvasHeight(offsets, fh)
              && result.value == canvases[|frames|]
  {
    offsets, quality, canvases, cuts := [], [], [], [];
    if |frames| < 2 {
      return Err("need at least 2 frames"), offsets, quality, canvases, cuts;
    }
    var fw, fh := frames[0].w, frames[0].h;
    var offs, qs := ChainOffsets(frames, corr, pair);
    offsets, quality := offs, qs;
    CanvasHoldsEveryFrame(offs, fw, fh, 0, Corners(offs)[0].x, Corners(offs)[0].y);
    var cw, ch := CanvasWidth(offs, fw), CanvasHeight(offs, fh);
    var cap := SanityCap(|frames|, fw, fh);
    if cw > cap || ch > cap {
      return Err("computed canvas exceeds sanity cap"), offsets, quality, canvases, cuts;
    }
    var image;
    image, canvases, cuts := PaintAll(root, frames, Corners(offs), qs, fw, fh, cw, ch);
    result := Ok(image);
  }

  /** Frames of one size are never refused. */
  lemma EqualFramesAreNeverRefused(frames: seq<Grid<Rgb>>, corr: Surfaces, pair: Pairs, offsets: seq<Offset>,
                                   quality: seq<real>)
    requires SurfacesFit(frames, corr) && MeasuredBy(pair, frames, corr) && |frames| == |offsets|
             && Chained(pair, offsets, quality)
    requires forall i | 0 <= i < |frames| :: frames[i].w == frames[0].w && frames[i].h == frames[0].h
    ensures CanvasWidth(offsets, frames[0].w) <= SanityCap(|frames|, frames[0].w, frames[0].h)
    ensures CanvasHeight(offsets, frames[0].h) <= SanityCap(|frames|, frames[0].w, frames[0].h)
  {
    EqualFramesShiftByHalf(pair, frames, corr, frames[0].w, frames[0].h);
    CapNeverFires(pair, offsets, quality, frames[0].w, frames[0].h);
  }

  // ---- what the picture shows ----

  /** At (x, y) the canvas shows frame j, which covers that place. */
  ghost predicate Shows(g: Grid<Rgb>, frames: seq<Grid<Rgb>>, corners: seq<Offset>, fw: nat, fh: nat, j: int, x: int,
                        y: int)
    requires 0 <= j < |frames| == |corners| && frames[j].w >= fw && frames[j].h >= fh && g.Has(x, y)
  {
    InFrame(corners[j], fw, fh, x, y) && g.At(x, y) == frames[j].At(x - corners[j].x, y - corners[j].y)
  }

  lemma {:induction false} CanvasSizeIsKept(root: RootFn, frames: seq<Grid<Rgb>>, corners: seq<Offset>,
                                            quality: seq<real>,
                                            fw: nat, fh: nat, canvases: seq<Grid<Rgb>>, cuts: seq<Cut>, k: nat)
    requires IsRun(root, frames, corners, quality, fw, fh, canvases, cuts) && k < |canvases|
    ensures canvases[k].w == canvases[0].w && canvases[k].h == canvases[0].h
  {
    if k > 0 {
      CanvasSizeIsKept(root, frames, corners, quality, fw, fh, canvases, cuts, k - 1);
      assert IsRunStep(root, frames, corners, quality, fw, fh, canvases, cuts, k - 1);
    }
  }

  /** After k frames a pixel covered by any of them shows one of the first k frames that covers it. */
  lemma {:induction false} CoveredPixelsShowAFrame(root: RootFn, frames: seq<Grid<Rgb>>, corners: seq<Offset>,
                                                   quality: seq<real>, fw: nat, fh: nat, canvases: seq<Grid<Rgb>>,
                                                   cuts: seq<Cut>, k: nat, i: nat, x: int, y: int)
    returns (j: nat)
    requires IsRun(root, frames, corners, quality, fw, fh, canvases, cuts) && k < |canvases|
    requires canvases[0].Has(x, y) && i < k && InFrame(corners[i], fw, fh, x, y)
    ensures j < k && canvases[k].Has(x, y) && Shows(canvases[k], frames, corners, fw, fh, j, x, y)
    decreases k
  {
    CanvasSizeIsKept(root, frames, corners, quality, fw, fh, canvases, cuts, k);
    CanvasSizeIsKept(root, frames, corners, quality, fw, fh, canvases, cuts, k - 1);
    assert IsRunStep(root, frames, corners, quality, fw, fh, canvases, cuts, k - 1);
    if Shows(canvases[k], frames, corners, fw, fh, k - 1, x, y) {
      j := k - 1;
    } else if i < k - 1 {
      j := CoveredPixelsShowAFrame(root, frames, corners, quality, fw, fh, canvases, cuts, k - 1, i, x, y);
    } else {
      // the seam withheld the pixel, so the previous frame covers it too
      j := CoveredPixelsShowAFrame(root, frames, corners, quality, fw, fh, canvases, cuts, k - 1, k - 2, x, y);
    }
  }

  /** A pixel no frame covers stays black. */
  lemma {:induction false} UncoveredPixelsStayBlack(root: RootFn, frames: seq<Grid<Rgb>>, corners: seq<Offset>,
                                                    quality: seq<real>, fw: nat, fh: nat, canvases: seq<Grid<Rgb>>,
                                                    cuts: seq<Cut>, k: nat, x: int, y: int)
    requires IsRun(root, frames, corners, quality, fw, fh, canvases, cuts) && k < |canvases|
    requires canvases[0].Has(x, y) && forall i | 0 <= i < k :: !InFrame(corners[i], fw, fh, x, y)
    ensures canvases[k].Has(x, y) && canvases[k].At(x, y) == Rgb(0, 0, 0)
  {
    CanvasSizeIsKept(root, frames, corners, quality, fw, fh, canvases, cuts, k);
    if k > 0 {
      UncoveredPixelsStayBlack(root, frames, corners, quality, fw, fh, canvases, cuts, k - 1, x, y);
      assert IsRunStep(root, frames, corners, quality, fw, fh, canvases, cuts, k - 1);
    }
  }

  /** The frames are cut out of one scene, each where it lies on the canvas. */
  ghost predicate CutFromScene(scene: (int, int) -> Rgb, frames: seq<Grid<Rgb>>, corners: seq<Offset>, fw: nat,
                               fh: nat) {
    && |corners| == |frames|
    && forall i, u, v | 0 <= i < |frames| && frames[i].Has(u, v) && u < fw && v < fh ::
         frames[i].At(u, v) == scene(corners[i].x + u, corners[i].y + v)
  }

  /** Whatever the seams, frames cut out of one scene put that scene back together. */
  lemma SceneIsReconstructed(root: RootFn, frames: seq<Grid<Rgb>>, corners: seq<Offset>, quality: seq<real>, fw: nat,
                             fh: nat, canvases: seq<Grid<Rgb>>, cuts: seq<Cut>, scene: (int, int) -> Rgb, i: nat,
                             x: int, y: int)
    requires IsRun(root, frames, corners, quality, fw, fh, canvases, cuts) && |canvases| == |frames| + 1
    requires CutFromScene(scene, frames, corners, fw, fh)
    requires canvases[0].Has(x, y) && i < |frames| && InFrame(corners[i], fw, fh, x, y)
    ensures canvases[|frames|].Has(x, y) && canvases[|frames|].At(x, y) == scene(x, y)
  {
    var j := CoveredPixelsShowAFrame(root, frames, corners, quality, fw, fh, canvases, cuts, |frames|, i, x, y);
    assert frames[j].Has(x - corners[j].x, y - corners[j].y);
  }

  /** Where the canvas lies in the scene: at the least position in either direction. */
  function Origin(at: seq<Offset>, offsets: seq<Offset>): Offset
    requires |at| == |offsets| > 0
  {
    Offset(at[0].x + Least(Xs(offsets)), at[0].y + Least(Ys(offsets)))
  }

  ghost predicate AreMoved(corners: seq<Offset>, at: seq<Offset>, from: Offset) {
    |corners| == |at| && forall i | 0 <= i < |at| ::
      corners[i].x + from.x == at[i].x && corners[i].y + from.y == at[i].y
  }

  lemma CornersAreMovedPositions(pair: Pairs, offsets: seq<Offset>, quality: seq<real>, at: seq<Offset>)
    requires Chained(pair, offsets, quality) && |at| == |offsets| && MeasuresPositions(pair, at)
    requires forall k | 0 < k < |at| :: !SceneCut(pair, k)
    ensures AreMoved(Corners(offsets), at, Origin(at, offsets))
  {
    var from := Origin(at, offsets);
    forall i | 0 <= i < |at|
      ensures Corners(offsets)[i].x + from.x == at[i].x && Corners(offsets)[i].y + from.y == at[i].y
    {
      ChainRecoversPositions(pair, offsets, quality, at, i);
    }
  }

  lemma MovedSceneIsReconstructed(root: RootFn, frames: seq<Grid<Rgb>>, corners: seq<Offset>, quality: seq<real>,
                                  fw: nat, fh: nat, canvases: seq<Grid<Rgb>>, cuts: seq<Cut>, at: seq<Offset>,
                                  from: Offset, scene: (int, int) -> Rgb, i: nat, x: int, y: int)
    requires IsRun(root, frames, corners, quality, fw, fh, canvases, cuts) && |canvases| == |frames| + 1
    requires CutFromScene(scene, frames, at, fw, fh) && AreMoved(corners, at, from)
    requires canvases[0].Has(x, y) && i < |frames| && InFrame(corners[i], fw, fh, x, y)
    ensures canvases[|frames|].Has(x, y) && canvases[|frames|].At(x, y) == scene(x + from.x, y + from.y)
  {
    var moved := (u: int, v: int) => scene(u + from.x, v + from.y);
    SceneIsMoved(scene, frames, at, corners, fw, fh, from, moved);
    SceneIsReconstructed(root, frames, corners, quality, fw, fh, canvases, cuts, moved, i, x, y);
  }

  lemma SceneIsMoved(scene: (int, int) -> Rgb, frames: seq<Grid<Rgb>>, at: seq<Offset>, corners: seq<Offset>,
                     fw: nat, fh: nat, from: Offset, moved: (int, int) -> Rgb)
    requires CutFromScene(scene, frames, at, fw, fh) && AreMoved(corners, at, from)
    requires forall x, y :: moved(x, y) == scene(x + from.x, y + from.y)
    ensures CutFromScene(moved, frames, corners, fw, fh)
  {
    forall i, u, v | 0 <= i < |frames| && frames[i].Has(u, v) && u < fw && v < fh
      ensures frames[i].At(u, v) == moved(corners[i].x + u, corners[i].y + v)
    {
      assert corners[i].x + u + from.x == at[i].x + u && corners[i].y + v + from.y == at[i].y + v;
    }
  }

  lemma PeaksMoveCorners(frames: seq<Grid<Rgb>>, corr: Surfaces, pair: Pairs, offsets: seq<Offset>,
                         quality: seq<real>, at: seq<Offset>)
    requires SurfacesFit(frames, corr) && MeasuredBy(pair, frames, corr) && |at| == |frames| == |offsets|
    requires PeaksAtPositions(frames, corr, at) && Chained(pair, offsets, quality)
    ensures AreMoved(Corners(offsets), at, Origin(at, offsets))
  {
    PeaksMeasurePositions(pair, frames, corr, at);
    CornersAreMovedPositions(pair, offsets, quality, at);
  }

  /** Frames cut out of one scene, whose surfaces peak where they lie, are put together to that scene: every pixel a
      frame covers shows the scene, seen from one fixed place. */
  lemma StitchingRecoversTheScene(root: RootFn, frames: seq<Grid<Rgb>>, corr: Surfaces, pair: Pairs,
                                  offsets: seq<Offset>, quality: seq<real>, fw: nat, fh: nat,
                                  canvases: seq<Grid<Rgb>>, cuts: seq<Cut>, at: seq<Offset>,
                                  scene: (int, int) -> Rgb, i: nat, x: int, y: int)
    requires SurfacesFit(frames, corr) && MeasuredBy(pair, frames, corr) && |at| == |frames| == |offsets|
    requires PeaksAtPositions(frames, corr, at) && CutFromScene(scene, frames, at, fw, fh)
    requires Chained(pair, offsets, quality)
    requires IsRun(root, frames, Corners(offsets), quality, fw, fh, canvases, cuts) && |canvases| == |frames| + 1
    requires canvases[0].Has(x, y) && i < |frames| && InFrame(Corners(offsets)[i], fw, fh, x, y)
    ensures var from := Origin(at, offsets);
            && AreMoved(Corners(offsets), at, from)
            && canvases[|frames|].Has(x, y) && canvases[|frames|].At(x, y) == scene(x + from.x, y + from.y)
  {
    assert AreMoved(Corners(offsets), at, Origin(at, offsets)) by {
      PeaksMoveCorners(frames, corr, pair, offsets, quality, at);
    }
    MovedSceneIsReconstructed(root, frames, Corners(offsets), quality, fw, fh, canvases, cuts, at,
                              Origin(at, offsets), scene, i, x, y);
  }

  lemma OverlapIs(prev: Offset, cur: Offset, fw: nat, fh: nat)
    requires Size(cur.x - prev.x) <= fw && Size(cur.y - prev.y) <= fh
    ensures OverlapOf(prev, cur, fw, fh)
         == Overlap(if prev.x < cur.x then cur.x else prev.x, if prev.y < cur.y then cur.y else prev.y,
                    fw - Size(cur.x - prev.x), fh - Size(cur.y - prev.y))
  {
  }

  /** Both sides of a horizontal seam over the whole overlap. */
  ghost predicate JoinedAtRows(after: Grid<Rgb>, before: Grid<Rgb>, frame: Grid<Rgb>, prev: Offset, cur: Offset,
                               fw: nat, fh: nat, seam: seq<int>)
    requires frame.w >= fw && frame.h >= fh
  {
    var left, top := if prev.x < cur.x then cur.x else prev.x, if prev.y < cur.y then cur.y else prev.y;
    && after.w == before.w && after.h == before.h && left + |seam| <= cur.x + fw
    && forall x, y | before.Has(x, y) && left <= x < left + |seam| && top <= y < cur.y + fh && y < prev.y + fh ::
         after.At(x, y) == if (y >= top + seam[x - left]) == (cur.y >= prev.y) then frame.At(x - cur.x, y - cur.y)
                           else before.At(x, y)
  }

  /** And of a vertical one. */
  ghost predicate JoinedAtColumns(after: Grid<Rgb>, before: Grid<Rgb>, frame: Grid<Rgb>, prev: Offset, cur: Offset,
                                  fw: nat, fh: nat, seam: seq<int>)
    requires frame.w >= fw && frame.h >= fh
  {
    var left, top := if prev.x < cur.x then cur.x else prev.x, if prev.y < cur.y then cur.y else prev.y;
    && after.w == before.w && after.h == before.h && top + |seam| <= cur.y + fh
    && forall x, y | before.Has(x, y) && left <= x < cur.x + fw && x < prev.x + fw && top <= y < top + |seam| ::
         after.At(x, y) == if (x >= left + seam[y - top]) == (cur.x >= prev.x) then frame.At(x - cur.x, y - cur.y)
                           else before.At(x, y)
  }

  lemma RowsJoin(after: Grid<Rgb>, before: Grid<Rgb>, frame: Grid<Rgb>, prev: Offset, cur: Offset, fw: nat, fh: nat,
                 seam: seq<int>)
    requires frame.w >= fw && frame.h >= fh && CutFits(Horizontal(seam), OverlapOf(prev, cur, fw, fh)) && seam != []
    requires IsPainted(after, before, frame, prev, cur, fw, fh, Horizontal(seam))
    ensures JoinedAtRows(after, before, frame, prev, cur, fw, fh, seam)
  {
    var left, top := if prev.x < cur.x then cur.x else prev.x, if prev.y < cur.y then cur.y else prev.y;
    forall x, y | before.Has(x, y) && left <= x < left + |seam| && top <= y < cur.y + fh && y < prev.y + fh
      ensures after.At(x, y) == if (y >= top + seam[x - left]) == (cur.y >= prev.y)
                                then frame.At(x - cur.x, y - cur.y) else before.At(x, y)
    {
      SeamIsTheBoundary(after, before, frame, prev, cur, fw, fh, Horizontal(seam), x, y);
    }
  }

  lemma ColumnsJoin(after: Grid<Rgb>, before: Grid<Rgb>, frame: Grid<Rgb>, prev: Offset, cur: Offset, fw: nat,
                    fh: nat, seam: seq<int>)
    requires frame.w >= fw && frame.h >= fh && CutFits(Vertical(seam), OverlapOf(prev, cur, fw, fh)) && seam != []
    requires IsPainted(after, before, frame, prev, cur, fw, fh, Vertical(seam))
    ensures JoinedAtColumns(after, before, frame, prev, cur, fw, fh, seam)
  {
    var left, top := if prev.x < cur.x then cur.x else prev.x, if prev.y < cur.y then cur.y else prev.y;
    forall x, y | before.Has(x, y) && left <= x < cur.x + fw && x < prev.x + fw && top <= y < top + |seam|
      ensures after.At(x, y) == if (x >= left + seam[y - top]) == (cur.x >= prev.x)
                                then frame.At(x - cur.x, y - cur.y) else before.At(x, y)
    {
      SeamIsTheBoundary(after, before, frame, prev, cur, fw, fh, Vertical(seam), x, y);
    }
  }

  /** In step k of a run, over an overlap of more than 4 by 4 pixels and on a good match, a camera that moves at least
      as far down or up as across leaves the frames joined along the topmost cheapest seam. */
  lemma StepJoinsAtTheBestRows(root: RootFn, frames: seq<Grid<Rgb>>, corners: seq<Offset>, quality: seq<real>, fw: nat,
                               fh: nat, canvases: seq<Grid<Rgb>>, cuts: seq<Cut>, k: nat) returns (seam: seq<int>)
    requires IsRun(root, frames, corners, quality, fw, fh, canvases, cuts) && 1 <= k < |cuts|
    requires var dx, dy := corners[k].x - corners[k-1].x, corners[k].y - corners[k-1].y;
             fw - Size(dx) > 4 && fh - Size(dy) > 4 && Size(dy) >= Size(dx) && quality[k-1] >= QUALITY_THRESHOLD
    ensures var prev, cur := corners[k-1], corners[k];
            var left, top := if prev.x < cur.x then cur.x else prev.x, if prev.y < cur.y then cur.y else prev.y;
            && IsHorizontalSeam(root, canvases[k], left, top, frames[k], left - cur.x, top - cur.y,
                                fw - Size(cur.x - prev.x), fh - Size(cur.y - prev.y), seam)
            && |seam| == fw - Size(cur.x - prev.x)
            && JoinedAtRows(canvases[k+1], canvases[k], frames[k], prev, cur, fw, fh, seam)
  {
    assert IsRunStep(root, frames, corners, quality, fw, fh, canvases, cuts, k);
    OverlapIs(corners[k-1], corners[k], fw, fh);
    seam := cuts[k].seam;
    RowsJoin(canvases[k+1], canvases[k], frames[k], corners[k-1], corners[k], fw, fh, seam);
  }

  /** And one that moves further across leaves them joined along the leftmost cheapest seam. */
  lemma StepJoinsAtTheBestColumns(root: RootFn, frames: seq<Grid<Rgb>>, corners: seq<Offset>, quality: seq<real>,
                                  fw: nat, fh: nat, canvases: seq<Grid<Rgb>>, cuts: seq<Cut>, k: nat)
    returns (seam: seq<int>)
    requires IsRun(root, frames, corners, quality, fw, fh, canvases, cuts) && 1 <= k < |cuts|
    requires var dx, dy := corners[k].x - corners[k-1].x, corners[k].y - corners[k-1].y;
             fw - Size(dx) > 4 && fh - Size(dy) > 4 && Size(dy) < Size(dx) && quality[k-1] >= QUALITY_THRESHOLD
    ensures var prev, cur := corners[k-1], corners[k];
            var left, top := if prev.x < cur.x then cur.x else prev.x, if prev.y < cur.y then cur.y else prev.y;
            && IsVerticalSeam(root, canvases[k], left, top, frames[k], left - cur.x, top - cur.y,
                              fw - Size(cur.x - prev.x), fh - Size(cur.y - prev.y), seam)
            && |seam| == fh - Size(cur.y - prev.y)
            && JoinedAtColumns(canvases[k+1], canvases[k], frames[k], prev, cur, fw, fh, seam)
  {
    assert IsRunStep(root, frames, corners, quality, fw, fh, canvases, cuts, k);
    OverlapIs(corners[k-1], corners[k], fw, fh);
    seam := cuts[k].seam;
    ColumnsJoin(canvases[k+1], canvases[k], frames[k], corners[k-1], corners[k], fw, fh, seam);
  }

  /** Without a good match, or over a narrower overlap, a frame is copied whole. */
  lemma StepWithoutSeamCopiesTheFrame(root: RootFn, frames: seq<Grid<Rgb>>, corners: seq<Offset>, quality: seq<real>,
                                      fw: nat, fh: nat, canvases: seq<Grid<Rgb>>, cuts: seq<Cut>, k: nat, x: int,
                                      y: int)
    requires IsRun(root, frames, corners, quality, fw, fh, canvases, cuts) && k < |cuts| && canvases[k].Has(x, y)
    requires k > 0 ==>
               var dx, dy := corners[k].x - corners[k-1].x, corners[k].y - corners[k-1].y;
               fw - Size(dx) <= 4 || fh - Size(dy) <= 4 || quality[k-1] < QUALITY_THRESHOLD
    requires corners[k].x <= x < corners[k].x + fw && corners[k].y <= y < corners[k].y + fh
    ensures canvases[k+1].Has(x, y) && canvases[k+1].At(x, y) == frames[k].At(x - corners[k].x, y - corners[k].y)
  {
    assert IsRunStep(root, frames, corners, quality, fw, fh, canvases, cuts, k);
  }

  /** In every line along the pan, the new frame owns everything from the seam to its leading edge. */
  lemma NewFrameOwnsItsLeadingEdge(prev: Offset, cur: Offset, fw: nat, fh: nat, cut: Cut, x: int, y: int, u: int,
                                   v: int)
    requires CutFits(cut, OverlapOf(prev, cur, fw, fh)) && !cut.NoCut?
    requires InFrame(cur, fw, fh, x, y) && InFrame(cur, fw, fh, u, v)
    requires cut.Horizontal? ==> u == x && if cur.y >= prev.y then v >= y else v <= y
    requires cut.Vertical? ==> v == y && if cur.x >= prev.x then u >= x else u <= x
    requires TakesNew(prev, cur, fw, fh, cut, x, y)
    ensures TakesNew(prev, cur, fw, fh, cut, u, v)
  {
  }

  /** Nothing the new frame alone covers is ever withheld, and without a seam nothing is. */
  lemma OnlyTheOverlapIsGated(prev: Offset, cur: Offset, fw: nat, fh: nat, cut: Cut, x: int, y: int)
    requires CutFits(cut, OverlapOf(prev, cur, fw, fh)) && InFrame(cur, fw, fh, x, y)
    requires !TakesNew(prev, cur, fw, fh, cut, x, y)
    ensures InFrame(prev, fw, fh, x, y) && !cut.NoCut?
  {
  }
}
