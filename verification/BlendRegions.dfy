/** Where the multi-band blend shows what (stitch_landscape.rs): a pixel of the blend depends on the mask only within 28
    pixels of it, and where the mask is uniform there, the pixel is the two images' own mixture.
 */
module BlendRegions {
  import opened Images
  import opened Pyramid
  import opened LandscapeSeam
  import opened LandscapeBlend

  // ---- one level ----

  /** A level of the blend takes of the one image what the mask says at the same place, and of the other the rest; an
      image that ends before the place counts as zero there, and so does the mask. */
  lemma BlendGoesByTheMask(a: FImg, b: FImg, m: FMsk, out: FImg, x: int, y: int)
    requires IsBlend(a, b, m, out) && (a.Has(x, y) || b.Has(x, y))
    ensures out.Has(x, y)
    ensures var p := if a.Has(x, y) then a.At(x, y) else V4(0.0, 0.0, 0.0, 0.0);
            var q := if b.Has(x, y) then b.At(x, y) else V4(0.0, 0.0, 0.0, 0.0);
            var t := if m.Has(x, y) then m.At(x, y) else 0.0;
            && out.At(x, y).r == p.r * t + q.r * (1.0 - t) && out.At(x, y).g == p.g * t + q.g * (1.0 - t)
            && out.At(x, y).b == p.b * t + q.b * (1.0 - t) && out.At(x, y).a == p.a * t + q.a * (1.0 - t)
            && (t == 1.0 ==> out.At(x, y) == p) && (t == 0.0 ==> out.At(x, y) == q)
  {
  }

  /** A detail level and the enlarged coarser level add up to the finer one, channel by channel. */
  lemma DetailAddsUp(fine: FImg, coarse: FImg, x: int, y: int)
    requires fine.Has(x, y)
    ensures Detail(fine, coarse).Has(x, y) && Up(coarse, fine.w, fine.h).Has(x, y)
    ensures var d, u, f := Detail(fine, coarse).At(x, y), Up(coarse, fine.w, fine.h).At(x, y), fine.At(x, y);
            d.r + u.r == f.r && d.g + u.g == f.g && d.b + u.b == f.b && d.a + u.a == f.a
  {
  }

  // ---- which places of the next level a place is enlarged from ----

  predicate IsCorner(x: int, u: int) { -2 <= 2 * u - x <= 2 }

  /** x * m / n, for n about twice m, is about half of x. */
  lemma Halves(x: real, m: real, n: real)
    requires 0.0 <= x <= n && n > 0.0 && (n == 2.0 * m || n == 2.0 * m + 1.0)
    ensures (x - 1.0) * n <= 2.0 * (x * m) <= x * n
  {
    if n == 2.0 * m {
      assert x * n == 2.0 * (x * m) && (x - 1.0) * n == 2.0 * (x * m) - n;
    } else {
      assert x * n == 2.0 * (x * m) + x && (x - 1.0) * n == 2.0 * (x * m) + x - n;
    }
  }

  lemma StrictlyScaled(a: real, b: real, n: real)
    requires a < b && n > 0.0
    ensures a * n < b * n
  {
    assert (b - a) * n > 0.0;
  }

  lemma QuotientBounds(q: real, p: real, n: real, lo: real, hi: real)
    requires n > 0.0 && q * n == p && lo * n <= p <= hi * n
    ensures lo <= q <= hi
  {
    if q < lo { StrictlyScaled(q, lo, n); }
    if q > hi { StrictlyScaled(hi, q, n); }
  }

  lemma HalfOfHalf(x: real, m: real, n: real, lo: real, hi: real)
    requires 0.0 <= x <= n && n > 0.0 && (n == 2.0 * m || n == 2.0 * m + 1.0)
    requires lo + lo == x - 1.0 && hi + hi == x
    ensures lo * n <= x * m <= hi * n
  {
    Halves(x, m, n);
    assert lo * n + lo * n == (x - 1.0) * n && hi * n + hi * n == x * n;
  }

  lemma SourceNearHalf(x: int, from: nat, to: nat)
    requires 0 <= x < to && from == (to + 1) / 2 && to > 2
    ensures x as real - 1.0 <= 2.0 * Source(x, from, to) <= x as real
  {
    var u, m, n := x as real, (from - 1) as real, (to - 1) as real;
    var q, lo, hi := u * m / n, (u - 1.0) / 2.0, u / 2.0;
    HalfOfHalf(u, m, n, lo, hi);
    QuotientBounds(q, u * m, n, lo, hi);
    assert Source(x, from, to) == q;
  }

  lemma FloorOfHalf(s: real, x: int)
    requires x as real - 1.0 <= 2.0 * s <= x as real
    ensures -2 <= 2 * s.Floor - x <= 0
  {
  }

  lemma SourceCorners(x: int, from: nat, to: nat)
    requires 0 <= x < to && from == (to + 1) / 2
    ensures IsCorner(x, Source(x, from, to).Floor) && IsCorner(x, Min(Source(x, from, to).Floor + 1, from - 1))
  {
    if to <= 2 {
      assert Source(x, from, to) == x as real;
    } else {
      SourceNearHalf(x, from, to);
      FloorOfHalf(Source(x, from, to), x);
    }
  }

  // ---- pyramids that are alike around a place ----

  /** Each level is half as large as the one before, rounded up. */
  ghost predicate Shrinking(lp: seq<FImg>) {
    forall k, l | 0 <= k < l < |lp| && l == k + 1 :: lp[l].w == (lp[k].w + 1) / 2 && lp[l].h == (lp[k].h + 1) / 2
  }

  ghost predicate SameSizes(la: seq<FImg>, lb: seq<FImg>) {
    |la| == |lb| && forall k | 0 <= k < |la| :: la[k].w == lb[k].w && la[k].h == lb[k].h
  }

  /** The levels agree at (x, y) and, further down, wherever that place is enlarged from. */
  ghost predicate Alike(la: seq<FImg>, lb: seq<FImg>, k: nat, x: int, y: int)
    requires k < |la| == |lb|
    decreases |la| - k
  {
    && Px(la[k], x, y) == Px(lb[k], x, y)
    && (k + 1 < |la| ==> forall u, v | IsCorner(x, u) && IsCorner(y, v) :: Alike(la, lb, k + 1, u, v))
  }

  lemma UpAtAlike(ca: FImg, cb: FImg, tw: nat, th: nat, x: int, y: int)
    requires 0 <= x < tw && 0 <= y < th && ca.w == cb.w == (tw + 1) / 2 && ca.h == cb.h == (th + 1) / 2
    requires forall u, v | IsCorner(x, u) && IsCorner(y, v) :: Px(ca, u, v) == Px(cb, u, v)
    ensures UpAt(ca, tw, th, x, y) == UpAt(cb, tw, th, x, y)
  {
    SourceCorners(x, ca.w, tw);
    SourceCorners(y, ca.h, th);
  }

  lemma RestoreAlike(da: FImg, db: FImg, ca: FImg, cb: FImg, x: int, y: int)
    requires da.w == db.w && da.h == db.h && Px(da, x, y) == Px(db, x, y)
    requires ca.w == cb.w == (da.w + 1) / 2 && ca.h == cb.h == (da.h + 1) / 2
    requires forall u, v | IsCorner(x, u) && IsCorner(y, v) :: Px(ca, u, v) == Px(cb, u, v)
    ensures Px(Restore(da, ca), x, y) == Px(Restore(db, cb), x, y)
  {
    if da.Has(x, y) {
      UpAtAlike(ca, cb, da.w, da.h, x, y);
      assert Up(ca, da.w, da.h).Has(x, y) && Up(cb, da.w, da.h).Has(x, y);
    }
  }

  /** Then the images they collapse to agree there. */
  lemma {:induction false} CollapseAlike(la: seq<FImg>, lb: seq<FImg>, k: nat, x: int, y: int)
    requires SameSizes(la, lb) && Shrinking(la) && k < |la| && Alike(la, lb, k, x, y)
    ensures Px(Collapsed(la, k), x, y) == Px(Collapsed(lb, k), x, y)
    decreases |la| - k
  {
    if k + 1 < |la| {
      forall u, v | IsCorner(x, u) && IsCorner(y, v)
        ensures Px(Collapsed(la, k + 1), u, v) == Px(Collapsed(lb, k + 1), u, v)
      {
        CollapseAlike(la, lb, k + 1, u, v);
      }
      RestoreAlike(la[k], lb[k], Collapsed(la, k + 1), Collapsed(lb, k + 1), x, y);
    }
  }

  // ---- masks that are uniform around a place ----

  /** Within d of (x, y), along either axis, the mask is t. */
  ghost predicate Uniform(m: FMsk, x: int, y: int, d: int, t: real) {
    forall u, v | m.Has(u, v) && x - d <= u <= x + d && y - d <= v <= y + d :: m.At(u, v) == t
  }

  lemma RowUniform(m: FMsk, x: int, y: int, t: real)
    requires m.Has(x, y) && forall u | m.Has(u, y) && x - 2 <= u <= x + 2 :: m.At(u, y) == t
    ensures BlurRow(m, x, y) == t
  {
  }

  lemma ColumnUniform(m: FMsk, x: int, y: int, t: real)
    requires m.Has(x, y) && forall v | m.Has(x, v) && y - 2 <= v <= y + 2 :: m.At(x, v) == t
    ensures BlurColumn(m, x, y) == t
  {
  }

  lemma BlurUniform(m: FMsk, x: int, y: int, t: real)
    requires m.Has(x, y) && Uniform(m, x, y, 2, t)
    ensures Blur(m).At(x, y) == t
  {
    var rows := RowsBlurred(m);
    forall v | rows.Has(x, v) && y - 2 <= v <= y + 2
      ensures rows.At(x, v) == t
    {
      RowUniform(m, x, v, t);
    }
    ColumnUniform(rows, x, y, t);
  }

  /** Uniformity reaches the next level, 2 pixels narrower and then halved. */
  lemma NextUniform(m: FMsk, x: int, y: int, d: nat, t: real)
    requires Uniform(m, 2 * x, 2 * y, 2 * d + 2, t)
    ensures Uniform(Halved(Blur(m)), x, y, d, t)
  {
    var next := Halved(Blur(m));
    forall u, v | next.Has(u, v) && x - d <= u <= x + d && y - d <= v <= y + d
      ensures next.At(u, v) == t
    {
      assert Uniform(m, 2 * u, 2 * v, 2, t);
      BlurUniform(m, 2 * u, 2 * v, t);
    }
  }

  lemma UniformWithin(m: FMsk, x: int, y: int, d: int, u: int, v: int, e: int, t: real)
    requires Uniform(m, x, y, d, t) && x - d <= u - e && u + e <= x + d && y - d <= v - e && v + e <= y + d
    ensures Uniform(m, u, v, e, t)
  {
  }

  /** How far around a place level k of the mask matters. */
  function Reach(k: nat): nat
    decreases PYR_LEVELS - k
  {
    if k + 1 >= PYR_LEVELS then 0 else 2 * Reach(k + 1) + 4
  }

  lemma CornerUniform(msk: FMsk, k: nat, x: int, y: int, u: int, v: int, t: real)
    requires k + 1 < PYR_LEVELS && Uniform(MaskLevel(msk, k), x, y, Reach(k), t) && IsCorner(x, u) && IsCorner(y, v)
    ensures Uniform(MaskLevel(msk, k + 1), u, v, Reach(k + 1), t)
  {
    ReachStep(k);
    CornerWithin(MaskLevel(msk, k), x, y, u, v, Reach(k + 1), t);
  }

  lemma ReachStep(k: nat)
    requires k + 1 < PYR_LEVELS
    ensures Reach(k) == 2 * Reach(k + 1) + 4
  {
  }

  lemma CornerWithin(m: FMsk, x: int, y: int, u: int, v: int, d: nat, t: real)
    requires Uniform(m, x, y, 2 * d + 4, t) && IsCorner(x, u) && IsCorner(y, v)
    ensures Uniform(Halved(Blur(m)), u, v, d, t)
  {
    UniformWithin(m, x, y, 2 * d + 4, 2 * u, 2 * v, 2 * d + 2, t);
    NextUniform(m, u, v, d, t);
  }

  /** All levels mixed alike, t of the one and 1 - t of the other. */
  ghost predicate AreMixed(t: real, lpa: seq<FImg>, lpb: seq<FImg>, mixed: seq<FImg>) {
    |lpa| == |lpb| == |mixed| == PYR_LEVELS && forall k | 0 <= k < PYR_LEVELS :: IsMix(t, lpa[k], lpb[k], mixed[k])
  }

  lemma LevelAlike(a: FImg, b: FImg, m: FMsk, blended: FImg, mixed: FImg, x: int, y: int, d: nat, t: real)
    requires IsBlend(a, b, m, blended) && IsMix(t, a, b, mixed) && m.w == a.w && m.h == a.h && Uniform(m, x, y, d, t)
    ensures Px(blended, x, y) == Px(mixed, x, y)
  {
  }

  lemma {:induction false} LevelsAlike(lpa: seq<FImg>, lpb: seq<FImg>, msk: FMsk, blended: seq<FImg>,
                                       mixed: seq<FImg>, k: nat, x: int, y: int, t: real)
    requires LevelsBlend(lpa, lpb, MaskLevels(msk), blended) && AreMixed(t, lpa, lpb, mixed)
    requires Halving(lpa, msk.w, msk.h) && k < PYR_LEVELS && Uniform(MaskLevel(msk, k), x, y, Reach(k), t)
    ensures Alike(blended, mixed, k, x, y)
    decreases PYR_LEVELS - k
  {
    assert IsMix(t, lpa[k], lpb[k], mixed[k]) && MaskLevels(msk)[k] == MaskLevel(msk, k);
    LevelAlike(lpa[k], lpb[k], MaskLevel(msk, k), blended[k], mixed[k], x, y, Reach(k), t);
    if k + 1 < PYR_LEVELS {
      forall u, v | IsCorner(x, u) && IsCorner(y, v)
        ensures Alike(blended, mixed, k + 1, u, v)
      {
        CornerUniform(msk, k, x, y, u, v, t);
        LevelsAlike(lpa, lpb, msk, blended, mixed, k + 1, u, v, t);
      }
    }
  }

  lemma LevelsShrink(lpa: seq<FImg>, lpb: seq<FImg>, gpm: seq<FMsk>, blended: seq<FImg>, mixed: seq<FImg>, t: real,
                     w: nat, h: nat)
    requires LevelsBlend(lpa, lpb, gpm, blended) && AreMixed(t, lpa, lpb, mixed) && Halving(lpa, w, h)
    ensures SameSizes(blended, mixed) && Shrinking(blended)
  {
    forall k | 0 <= k < PYR_LEVELS
      ensures blended[k].w == mixed[k].w == LevelSize(w, k) && blended[k].h == mixed[k].h == LevelSize(h, k)
    {
      assert IsMix(t, lpa[k], lpb[k], mixed[k]);
    }
  }

  lemma MixedPyramid(fa: FImg, fb: FImg, lpa: seq<FImg>, lpb: seq<FImg>, t: real) returns (mixed: seq<FImg>)
    requires IsAnalysis(fa, lpa) && IsAnalysis(fb, lpb) && fa.w == fb.w && fa.h == fb.h
    ensures AreMixed(t, lpa, lpb, mixed) && IsMix(t, fa, fb, Collapsed(mixed, 0))
  {
    mixed := seq(PYR_LEVELS, k requires 0 <= k < PYR_LEVELS => Combine(lpa[k], lpb[k], (p, q) => Mix(t, p, q)));
    CollapseIsLinear(t, lpa, lpb, mixed, 0);
    CollapseUndoesAnalyse(fa, lpa);
    CollapseUndoesAnalyse(fb, lpb);
  }

  lemma ReachIs()
    ensures Reach(0) == 28
  {
    assert Reach(3) == 0 && Reach(2) == 4 && Reach(1) == 12;
  }

  /** o is t of p and 1 - t of q in every channel. */
  predicate IsMixture(t: real, p: V4, q: V4, o: V4) {
    && o.r == p.r * t + q.r * (1.0 - t) && o.g == p.g * t + q.g * (1.0 - t)
    && o.b == p.b * t + q.b * (1.0 - t) && o.a == p.a * t + q.a * (1.0 - t)
  }

  lemma MixIs(t: real, p: V4, q: V4, o: V4)
    requires o == Mix(t, p, q)
    ensures IsMixture(t, p, q, o) && (t == 1.0 ==> o == p) && (t == 0.0 ==> o == q)
  {
  }

  lemma {:induction false} BlendedIsMixed(fa: FImg, fb: FImg, msk: FMsk, lpa: seq<FImg>, lpb: seq<FImg>,
                                          blended: seq<FImg>, t: real, x: int, y: int)
    requires fa.w == fb.w == msk.w && fa.h == fb.h == msk.h && AreBlended(fa, fb, msk, lpa, lpb, blended)
    requires fa.Has(x, y) && Uniform(msk, x, y, 28, t)
    ensures Px(Collapsed(blended, 0), x, y) == Mix(t, fa.At(x, y), fb.At(x, y))
    ensures Collapsed(blended, 0).w == fa.w && Collapsed(blended, 0).h == fa.h
  {
    var mixed := MixedPyramid(fa, fb, lpa, lpb, t);
    LevelsShrink(lpa, lpb, MaskLevels(msk), blended, mixed, t, fa.w, fa.h);
    ReachIs();
    LevelsAlike(lpa, lpb, msk, blended, mixed, 0, x, y, t);
    CollapseAlike(blended, mixed, 0, x, y);
  }

  /** Where the mask is t throughout the 28 pixels around a place, the blend of two images is there exactly t of the one
      and 1 - t of the other, whatever the mask is elsewhere: the one where it is 1, the other where it is 0. */
  lemma UniformMaskMixes(fa: FImg, fb: FImg, msk: FMsk, out: FImg, t: real, x: int, y: int)
    requires fa.w == fb.w == msk.w && fa.h == fb.h == msk.h && IsMultiBand(fa, fb, msk, out) && fa.Has(x, y)
    requires Uniform(msk, x, y, 28, t)
    ensures out.w == fa.w && out.h == fa.h
    ensures var o, p, q := out.At(x, y), fa.At(x, y), fb.At(x, y);
            IsMixture(t, p, q, o) && (t == 1.0 ==> o == p) && (t == 0.0 ==> o == q)
  {
    var lpa, lpb, blended := PyramidsOf(fa, fb, msk, out);
    BlendedIsMixed(fa, fb, msk, lpa, lpb, blended, t, x, y);
    MixIs(t, fa.At(x, y), fb.At(x, y), out.At(x, y));
  }

  // ---- bytes ----

  lemma MixtureBounds(p: real, q: real, t: real)
    requires 0.0 <= p <= 255.0 && 0.0 <= q <= 255.0 && 0.0 <= t <= 1.0
    ensures 0.0 <= p * t + q * (1.0 - t) <= 255.0
  {
    assert 0.0 <= p * t <= 255.0 * t;
    assert 0.0 <= q * (1.0 - t) <= 255.0 * (1.0 - t);
  }

  /** A mixture of two bytes, rounded down. */
  function MixedByte(p: U8, q: U8, t: real): int { (p as real * t + q as real * (1.0 - t)).Floor }

  lemma ByteOfMixture(p: U8, q: U8, t: real)
    requires 0.0 <= t <= 1.0
    ensures ToByte(MixReal(t, FromByte(p), FromByte(q))) == MixedByte(p, q, t)
  {
    MixtureBounds(p as real, q as real, t);
    var m := p as real * t + q as real * (1.0 - t);
    assert FromByte(p) * t + FromByte(q) * (1.0 - t) == m / 255.0;
  }

  lemma ByteOfChannel(p: V4, v: real, n: int)
    requires ToByte(v) == n
    ensures p.r == v ==> ToBytes(p).r == n
    ensures p.g == v ==> ToBytes(p).g == n
    ensures p.b == v ==> ToBytes(p).b == n
  {
  }

  /** What the mixture of two pixels comes out as. */
  function MixedPixel(p: Rgba, q: Rgba, t: real): V4 { Mix(t, ToReals(p), ToReals(q)) }

  lemma ChannelsOfMixture(p: Rgba, q: Rgba, t: real)
    ensures MixedPixel(p, q, t).r == MixReal(t, FromByte(p.r), FromByte(q.r))
    ensures MixedPixel(p, q, t).g == MixReal(t, FromByte(p.g), FromByte(q.g))
    ensures MixedPixel(p, q, t).b == MixReal(t, FromByte(p.b), FromByte(q.b))
  {
  }

  lemma MixedPixelBytes(p: Rgba, q: Rgba, t: real, m: V4)
    requires 0.0 <= t <= 1.0 && m == MixedPixel(p, q, t)
    ensures ToBytes(m).r == MixedByte(p.r, q.r, t)
    ensures ToBytes(m).g == MixedByte(p.g, q.g, t)
    ensures ToBytes(m).b == MixedByte(p.b, q.b, t)
  {
    ChannelsOfMixture(p, q, t);
    ByteOfMixture(p.r, q.r, t);
    ByteOfMixture(p.g, q.g, t);
    ByteOfMixture(p.b, q.b, t);
    ByteOfChannel(m, MixReal(t, FromByte(p.r), FromByte(q.r)), MixedByte(p.r, q.r, t));
    ByteOfChannel(m, MixReal(t, FromByte(p.g), FromByte(q.g)), MixedByte(p.g, q.g, t));
    ByteOfChannel(m, MixReal(t, FromByte(p.b), FromByte(q.b)), MixedByte(p.b, q.b, t));
  }

  lemma CollapsedMixes(a: Grid<Rgba>, b: Grid<Rgba>, msk: FMsk, collapsed: FImg, t: real, x: int, y: int)
    requires a.w == b.w == msk.w && a.h == b.h == msk.h && a.Has(x, y)
    requires IsMultiBand(FromRgba(a, msk.w, msk.h), FromRgba(b, msk.w, msk.h), msk, collapsed)
    requires Uniform(msk, x, y, 28, t)
    ensures Px(collapsed, x, y) == MixedPixel(a.At(x, y), b.At(x, y), t)
  {
    var fa, fb := FromRgba(a, msk.w, msk.h), FromRgba(b, msk.w, msk.h);
    var lpa, lpb, blended := PyramidsOf(fa, fb, msk, collapsed);
    BlendedIsMixed(fa, fb, msk, lpa, lpb, blended, t, x, y);
    assert fa.At(x, y) == ToReals(a.At(x, y)) && fb.At(x, y) == ToReals(b.At(x, y));
  }

  lemma BlendShows(a: Grid<Rgba>, b: Grid<Rgba>, ma: Grid<U8>, mb: Grid<U8>, msk: FMsk, collapsed: FImg, x: int, y: int)
    requires Covers(ma, x, y) && Covers(mb, x, y) && 0.001 < Val(msk, x, y) < 0.999
    ensures FinalPixel(a, b, ma, mb, msk, collapsed, x, y) == ToBytes(Px(collapsed, x, y)).(a := 255)
  {
  }

  /** Where both images cover the 28 pixels of a uniform transition, the finished pixel mixes their bytes. */
  lemma TransitionMixesBytes(a: Grid<Rgba>, b: Grid<Rgba>, ma: Grid<U8>, mb: Grid<U8>, msk: FMsk, collapsed: FImg,
                             t: real, x: int, y: int)
    requires a.w == b.w == msk.w && a.h == b.h == msk.h && a.Has(x, y) && Covers(ma, x, y) && Covers(mb, x, y)
    requires IsMultiBand(FromRgba(a, msk.w, msk.h), FromRgba(b, msk.w, msk.h), msk, collapsed)
    requires 0.001 < t < 0.999 && Uniform(msk, x, y, 28, t)
    ensures var r, p, q := FinalPixel(a, b, ma, mb, msk, collapsed, x, y), a.At(x, y), b.At(x, y);
            && r.r == MixedByte(p.r, q.r, t) && r.g == MixedByte(p.g, q.g, t) && r.b == MixedByte(p.b, q.b, t)
            && r.a == 255
  {
    CollapsedMixes(a, b, msk, collapsed, t, x, y);
    assert msk.Has(x, y) && Val(msk, x, y) == t;
    BlendShows(a, b, ma, mb, msk, collapsed, x, y);
    MixedPixelBytes(a.At(x, y), b.At(x, y), t, Px(collapsed, x, y));
  }
}
