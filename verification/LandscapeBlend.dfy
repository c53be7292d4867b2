/** Multi-band blending of two aligned images (stitch_landscape.rs, `blend_two`).

    The right image arrives already exposure-compensated, and the mask comes from either seam finder.
 */
module LandscapeBlend {
  import opened Images
  import opened Pyramid
  import opened LandscapeSeam

  /** Level by level, blended mixes the Laplacian levels of fa and fb with the Gaussian levels of the mask. */
  ghost predicate AreBlended(fa: FImg, fb: FImg, msk: FMsk, lpa: seq<FImg>, lpb: seq<FImg>, blended: seq<FImg>) {
    IsAnalysis(fa, lpa) && IsAnalysis(fb, lpb) && LevelsBlend(lpa, lpb, MaskLevels(msk), blended)
  }

  ghost predicate LevelsBlend(lpa: seq<FImg>, lpb: seq<FImg>, gpm: seq<FMsk>, blended: seq<FImg>) {
    && |lpa| == |lpb| == |gpm| == |blended| == PYR_LEVELS
    && forall k | 0 <= k < PYR_LEVELS :: IsBlend(lpa[k], lpb[k], gpm[k], blended[k])
  }

  ghost function MaskLevels(m: FMsk): (gpm: seq<FMsk>)
    ensures |gpm| == PYR_LEVELS && forall k | 0 <= k < PYR_LEVELS :: gpm[k] == MaskLevel(m, k)
  {
    seq(PYR_LEVELS, k requires 0 <= k => MaskLevel(m, k))
  }

  /** out is the multi-band blend of fa and fb under msk. */
  ghost predicate IsMultiBand(fa: FImg, fb: FImg, msk: FMsk, out: FImg) {
    exists lpa, lpb, blended :: AreBlended(fa, fb, msk, lpa, lpb, blended) && out == Collapsed(blended, 0)
  }

  method BlendPyramids(fa: FImg, fb: FImg, msk: FMsk) returns (out: FImg)
    requires fa.w == fb.w == msk.w && fa.h == fb.h == msk.h
    ensures out.w == fa.w && out.h == fa.h
    ensures IsMultiBand(fa, fb, msk, out)
  {
    var lpa := Analyse(fa);
    var lpb := Analyse(fb);
    var gpm := GaussPyrMsk(msk);
    var blended := BlendLevels(lpa, lpb, gpm, fa.w, fa.h);
    out := CollapseLap(blended);
    MultiBandFrom(fa, fb, msk, lpa, lpb, gpm, blended);
  }

  lemma {:induction false} MultiBandFrom(fa: FImg, fb: FImg, msk: FMsk, lpa: seq<FImg>, lpb: seq<FImg>, gpm: seq<FMsk>,
                                         blended: seq<FImg>)
    requires IsAnalysis(fa, lpa) && IsAnalysis(fb, lpb) && LevelsBlend(lpa, lpb, gpm, blended)
    requires forall k | 0 <= k < |gpm| :: gpm[k] == MaskLevel(msk, k)
    ensures IsMultiBand(fa, fb, msk, Collapsed(blended, 0))
  {
    assert gpm == MaskLevels(msk);
    assert AreBlended(fa, fb, msk, lpa, lpb, blended);
  }

  lemma BlendIsUnique(a: FImg, b: FImg, m: FMsk, out: FImg, other: FImg)
    requires IsBlend(a, b, m, out) && IsBlend(a, b, m, other)
    ensures out == other
  {
    forall x, y | out.Has(x, y)
      ensures out.At(x, y) == other.At(x, y)
    {
      assert out.At(x, y) == BlendPixel(a, b, m, x, y);
    }
    GridsEqual(out, other);
  }

  lemma LevelsBlendIsUnique(lpa: seq<FImg>, lpb: seq<FImg>, gpm: seq<FMsk>, blended: seq<FImg>, other: seq<FImg>)
    requires LevelsBlend(lpa, lpb, gpm, blended) && LevelsBlend(lpa, lpb, gpm, other)
    ensures blended == other
  {
    forall k | 0 <= k < PYR_LEVELS
      ensures blended[k] == other[k]
    {
      BlendIsUnique(lpa[k], lpb[k], gpm[k], blended[k], other[k]);
    }
  }

  lemma PyramidsOf(fa: FImg, fb: FImg, msk: FMsk, out: FImg)
    returns (lpa: seq<FImg>, lpb: seq<FImg>, blended: seq<FImg>)
    requires IsMultiBand(fa, fb, msk, out)
    ensures AreBlended(fa, fb, msk, lpa, lpb, blended) && out == Collapsed(blended, 0)
  {
    lpa, lpb, blended :| AreBlended(fa, fb, msk, lpa, lpb, blended) && out == Collapsed(blended, 0);
  }

  /** The multi-band blend is a function of the two images and the mask. */
  lemma MultiBandIsUnique(fa: FImg, fb: FImg, msk: FMsk, out: FImg, other: FImg)
    requires IsMultiBand(fa, fb, msk, out) && IsMultiBand(fa, fb, msk, other)
    ensures out == other
  {
    var lpa, lpb, blended := PyramidsOf(fa, fb, msk, out);
    var mpa, mpb, rest := PyramidsOf(fa, fb, msk, other);
    BlendedIsUnique(fa, fb, msk, lpa, lpb, blended, mpa, mpb, rest);
  }

  lemma BlendedIsUnique(fa: FImg, fb: FImg, msk: FMsk, lpa: seq<FImg>, lpb: seq<FImg>, blended: seq<FImg>,
                        mpa: seq<FImg>, mpb: seq<FImg>, rest: seq<FImg>)
    requires AreBlended(fa, fb, msk, lpa, lpb, blended) && AreBlended(fa, fb, msk, mpa, mpb, rest)
    ensures blended == rest
  {
    AnalysisIsUnique(fa, lpa, mpa);
    AnalysisIsUnique(fb, lpb, mpb);
    LevelsBlendIsUnique(lpa, lpb, MaskLevels(msk), blended, rest);
  }

  lemma LevelsBlendWithThemselves(lpa: seq<FImg>, gpm: seq<FMsk>, blended: seq<FImg>)
    requires LevelsBlend(lpa, lpa, gpm, blended)
    ensures blended == lpa
  {
    forall k | 0 <= k < PYR_LEVELS
      ensures blended[k] == lpa[k]
    {
      BlendWithItself(lpa[k], gpm[k], blended[k]);
    }
  }

  /** Blending an image with itself gives that image, whatever the mask. */
  lemma SameImagesBlendToThemselves(f: FImg, msk: FMsk, out: FImg)
    requires IsMultiBand(f, f, msk, out)
    ensures out == f
  {
    var lpa, lpb, blended := PyramidsOf(f, f, msk, out);
    AnalysisIsUnique(f, lpa, lpb);
    LevelsBlendWithThemselves(lpa, MaskLevels(msk), blended);
    CollapseUndoesAnalyse(f, lpa);
  }

  lemma ConstantLevelsMix(fa: FImg, fb: FImg, msk: FMsk, lpa: seq<FImg>, lpb: seq<FImg>, blended: seq<FImg>, c: real)
    requires fa.w == fb.w == msk.w && fa.h == fb.h == msk.h && Within(msk, c, c)
    requires AreBlended(fa, fb, msk, lpa, lpb, blended)
    ensures forall k | 0 <= k < PYR_LEVELS :: IsMix(c, lpa[k], lpb[k], blended[k])
  {
    forall k | 0 <= k < PYR_LEVELS
      ensures IsMix(c, lpa[k], lpb[k], blended[k])
    {
      LevelsStayWithin(msk, k, c, c);
      ConstantLevelMixes(lpa[k], lpb[k], MaskLevels(msk)[k], blended[k], c);
    }
  }

  /** Under a constant mask c the blend is c of the one image and 1 - c of the other, exactly. */
  lemma ConstantMaskMixes(fa: FImg, fb: FImg, msk: FMsk, out: FImg, c: real)
    requires fa.w == fb.w == msk.w && fa.h == fb.h == msk.h && Within(msk, c, c)
    requires IsMultiBand(fa, fb, msk, out)
    ensures IsMix(c, fa, fb, out)
  {
    var lpa, lpb, blended := PyramidsOf(fa, fb, msk, out);
    ConstantLevelsMix(fa, fb, msk, lpa, lpb, blended, c);
    CollapseIsLinear(c, lpa, lpb, blended, 0);
    CollapseUndoesAnalyse(fa, lpa);
    CollapseUndoesAnalyse(fb, lpb);
  }

  /** lp is the Laplacian pyramid of f. */
  ghost predicate IsAnalysis(f: FImg, lp: seq<FImg>) {
    && Halving(lp, f.w, f.h)
    && exists gp: seq<FImg> :: IsAnalysisVia(f, lp, gp)
  }

  ghost predicate IsAnalysisVia(f: FImg, lp: seq<FImg>, gp: seq<FImg>) {
    gp == ImageLevels(f) && IsLaplacian(gp, lp)
  }

  method Analyse(f: FImg) returns (lp: seq<FImg>)
    ensures IsAnalysis(f, lp)
  {
    var gp := GaussPyrImg(f);
    ImageLevelsAreHalving(f);
    HalvingIsEnlargeable(gp, f.w, f.h);
    lp := LapPyr(gp);
    assert IsAnalysisVia(f, lp, gp);
    LaplacianSizes(gp, lp, f.w, f.h);
  }

  lemma LaplacianSizes(gp: seq<FImg>, lp: seq<FImg>, w: nat, h: nat)
    requires Halving(gp, w, h) && IsLaplacian(gp, lp)
    ensures Halving(lp, w, h)
  {
    forall k | 0 <= k < PYR_LEVELS
      ensures lp[k].w == gp[k].w && lp[k].h == gp[k].h
    {
      assert k < |gp| - 1 ==> IsDetailLevel(gp, k, lp[k]);
    }
  }

  lemma ImageLevelsAreHalving(f: FImg)
    ensures Halving(ImageLevels(f), f.w, f.h)
  {
  }

  method BlendLevels(lpa: seq<FImg>, lpb: seq<FImg>, gpm: seq<FMsk>, ghost w: nat, ghost h: nat)
    returns (blended: seq<FImg>)
    requires Halving(lpa, w, h) && Halving(lpb, w, h) && Halving(gpm, w, h)
    ensures Halving(blended, w, h) && Enlargeable(blended)
    ensures LevelsBlend(lpa, lpb, gpm, blended)
  {
    blended := [];
    for k := 0 to PYR_LEVELS
      invariant |blended| == k
      invariant forall j | 0 <= j < k :: IsBlend(lpa[j], lpb[j], gpm[j], blended[j])
    {
      var level := BlendLevel(lpa[k], lpb[k], gpm[k]);
      blended := blended + [level];
    }
    HalvingIsEnlargeable(blended, w, h);
  }

  lemma HalvingIsEnlargeable(gp: seq<FImg>, w: nat, h: nat)
    requires Halving(gp, w, h)
    ensures Enlargeable(gp)
  {
    forall k | 0 <= k < PYR_LEVELS
      ensures gp[k].w > 0 <==> w > 0
      ensures gp[k].h > 0 <==> h > 0
    {
      if w > 0 { LevelSizePositive(w, k); } else { LevelSizeZero(k); }
      if h > 0 { LevelSizePositive(h, k); } else { LevelSizeZero(k); }
    }
  }

  /** Analysis is exact: the pyramid collapses to the image it came from. */
  lemma {:induction false} CollapseUndoesAnalyse(f: FImg, lp: seq<FImg>)
    requires IsAnalysis(f, lp)
    ensures Collapsed(lp, 0) == f
  {
    var gp :| IsAnalysisVia(f, lp, gp);
    CollapseUndoesAnalysis(gp, lp, 0);
    assert gp[0] == ImageLevel(f, 0) == f;
  }

  /** The Laplacian pyramid is a function of the image. */
  lemma AnalysisIsUnique(f: FImg, lp: seq<FImg>, lq: seq<FImg>)
    requires IsAnalysis(f, lp) && IsAnalysis(f, lq)
    ensures lp == lq
  {
    var gp :| IsAnalysisVia(f, lp, gp);
    var gq :| IsAnalysisVia(f, lq, gq);
    assert gp == gq;
    forall k | 0 <= k < PYR_LEVELS
      ensures lp[k] == lq[k]
    {
      if k < PYR_LEVELS - 1 {
        assert IsDetailLevel(gp, k, lp[k]) && IsDetailLevel(gp, k, lq[k]);
      }
    }
  }

  lemma ConstantLevelMixes(a: FImg, b: FImg, m: FMsk, out: FImg, c: real)
    requires IsBlend(a, b, m, out) && a.w == b.w == m.w && a.h == b.h == m.h && Within(m, c, c)
    ensures IsMix(c, a, b, out)
  {
    forall x, y | out.Has(x, y)
      ensures out.At(x, y) == Mix(c, a.At(x, y), b.At(x, y))
    {
      assert m.At(x, y) == c;
    }
  }

  // ---- bytes in, bytes out ----

  function FromByte(v: U8): real { v as real / 255.0 }

  function ToByte(v: real): U8 {
    var c := if v < 0.0 then 0.0 else if v > 1.0 then 1.0 else v;
    (c * 255.0).Floor
  }

  /** Bytes survive the trip through reals. */
  lemma ByteRoundTrip(v: U8)
    ensures ToByte(FromByte(v)) == v
  {
    assert FromByte(v) * 255.0 == v as real;
  }

  function ToReals(p: Rgba): V4 { V4(FromByte(p.r), FromByte(p.g), FromByte(p.b), FromByte(p.a)) }
  function ToBytes(p: V4): Rgba { Rgba(ToByte(p.r), ToByte(p.g), ToByte(p.b), ToByte(p.a)) }

  /** An image placed at the top left of a w by h field of zeros. */
  function FromRgba(g: Grid<Rgba>, w: nat, h: nat): (out: FImg)
    ensures out.w == w && out.h == h
    ensures forall x, y | out.Has(x, y) :: out.At(x, y) == if g.Has(x, y) then ToReals(g.At(x, y)) else Zero
  {
    Tabulate(w, h, (x, y) => if g.Has(x, y) then ToReals(g.At(x, y)) else Zero)
  }

  predicate Covers(m: Grid<U8>, x: int, y: int) { m.Has(x, y) && m.At(x, y) > 0 }

  /** a owns the pixel outright: b does not reach it, or the mask is (nearly) 1 there. */
  predicate TakesA(a: Grid<Rgba>, ma: Grid<U8>, mb: Grid<U8>, msk: FMsk, x: int, y: int) {
    Covers(ma, x, y) && (!Covers(mb, x, y) || Val(msk, x, y) >= 0.999) && a.Has(x, y)
  }

  predicate TakesB(b: Grid<Rgba>, ma: Grid<U8>, mb: Grid<U8>, msk: FMsk, x: int, y: int) {
    Covers(mb, x, y) && (!Covers(ma, x, y) || Val(msk, x, y) <= 0.001) && b.Has(x, y)
  }

  /** The pixel of the finished blend at (x, y), given the collapsed pyramid. */
  function FinalPixel(a: Grid<Rgba>, b: Grid<Rgba>, ma: Grid<U8>, mb: Grid<U8>, msk: FMsk, collapsed: FImg, x: int,
                      y: int): Rgba {
    var p :=
      if TakesA(a, ma, mb, msk, x, y) then a.At(x, y)
      else if TakesB(b, ma, mb, msk, x, y) then b.At(x, y)
      else ToBytes(Px(collapsed, x, y));
    if Covers(ma, x, y) || Covers(mb, x, y) then Rgba(p.r, p.g, p.b, 255) else p
  }

  method BlendTwo(a: Grid<Rgba>, b: Grid<Rgba>, ma: Grid<U8>, mb: Grid<U8>, msk: FMsk)
    returns (result: Grid<Rgba>, ghost collapsed: FImg)
    requires msk.w == Max(a.w, b.w) && msk.h == Max(a.h, b.h)
    ensures result.w == msk.w && result.h == msk.h
    ensures forall x, y | result.Has(x, y) :: result.At(x, y) == FinalPixel(a, b, ma, mb, msk, collapsed, x, y)
    ensures IsMultiBand(FromRgba(a, msk.w, msk.h), FromRgba(b, msk.w, msk.h), msk, collapsed)
  {
    var w, h := Max(a.w, b.w), Max(a.h, b.h);
    var out := BlendPyramids(FromRgba(a, w, h), FromRgba(b, w, h), msk);
    collapsed := out;
    result := Finish(a, b, ma, mb, msk, out);
  }

  /** The two closing loops, per pixel: exact colours away from the transition, then opacity. */
  method Finish(a: Grid<Rgba>, b: Grid<Rgba>, ma: Grid<U8>, mb: Grid<U8>, msk: FMsk, out: FImg)
    returns (result: Grid<Rgba>)
    ensures result.w == out.w && result.h == out.h
    ensures forall x, y | result.Has(x, y) :: result.At(x, y) == FinalPixel(a, b, ma, mb, msk, out, x, y)
  {
    var res := new Rgba[out.h, out.w]((_, _) => Clear);
    for y := 0 to out.h
      invariant forall v, u | 0 <= v < y && 0 <= u < out.w :: res[v, u] == FinalPixel(a, b, ma, mb, msk, out, u, v)
    {
      for x := 0 to out.w
        invariant forall v, u | 0 <= v < y && 0 <= u < out.w :: res[v, u] == FinalPixel(a, b, ma, mb, msk, out, u, v)
        invariant forall u | 0 <= u < x :: res[y, u] == FinalPixel(a, b, ma, mb, msk, out, u, y)
      {
        var ia, ib, mv := Covers(ma, x, y), Covers(mb, x, y), Val(msk, x, y);
        var p := ToBytes(Px(out, x, y));
        if ia && (!ib || mv >= 0.999) && a.Has(x, y) {
          p := a.At(x, y);
        } else if ib && (!ia || mv <= 0.001) && b.Has(x, y) {
          p := b.At(x, y);
        }
        res[y, x] := if ia || ib then Rgba(p.r, p.g, p.b, 255) else p;
      }
    }
    result := Freeze(res);
  }

  /** Blending an image with itself gives that image, byte for byte, opaque wherever either mask covers it. */
  lemma BlendingAnImageWithItself(a: Grid<Rgba>, ma: Grid<U8>, mb: Grid<U8>, msk: FMsk, collapsed: FImg, x: int, y: int)
    requires IsMultiBand(FromRgba(a, a.w, a.h), FromRgba(a, a.w, a.h), msk, collapsed) && a.Has(x, y)
    ensures var p := a.At(x, y);
            FinalPixel(a, a, ma, mb, msk, collapsed, x, y) ==
            if Covers(ma, x, y) || Covers(mb, x, y) then Rgba(p.r, p.g, p.b, 255) else p
  {
    var p, f := a.At(x, y), FromRgba(a, a.w, a.h);
    SameImagesBlendToThemselves(f, msk, collapsed);
    ByteRoundTrip(p.r);
    ByteRoundTrip(p.g);
    ByteRoundTrip(p.b);
    ByteRoundTrip(p.a);
    assert f.Has(x, y);
  }

  /** Away from the transition the blend changes no colour: where only one image reaches, and on
      either clean side of the mask, the covering image's own colour comes out. */
  lemma CleanPixelsAreLossless(a: Grid<Rgba>, b: Grid<Rgba>, ma: Grid<U8>, mb: Grid<U8>, msk: FMsk, collapsed: FImg,
                               x: int, y: int)
    requires a.Has(x, y) && b.Has(x, y) && (Covers(ma, x, y) || Covers(mb, x, y))
    requires !(0.001 < Val(msk, x, y) < 0.999) || !(Covers(ma, x, y) && Covers(mb, x, y))
    ensures var source :=
              if !Covers(mb, x, y) || (Covers(ma, x, y) && Val(msk, x, y) >= 0.999) then a.At(x, y) else b.At(x, y);
            FinalPixel(a, b, ma, mb, msk, collapsed, x, y) == Rgba(source.r, source.g, source.b, 255)
  {
  }

  /** Elsewhere the pyramids show: where both images reach and the mask is in between. */
  lemma BlendShowsIff(a: Grid<Rgba>, b: Grid<Rgba>, ma: Grid<U8>, mb: Grid<U8>, msk: FMsk, x: int, y: int)
    requires a.Has(x, y) && b.Has(x, y)
    ensures var ia, ib := ma.Has(x, y) && ma.At(x, y) != 0, mb.Has(x, y) && mb.At(x, y) != 0;
            TakesA(a, ma, mb, msk, x, y) || TakesB(b, ma, mb, msk, x, y) <==>
            (ia || ib) && !(ia && ib && 0.001 < Val(msk, x, y) < 0.999)
  {
  }

  /** a's side of the seam p, seam included. */
  predicate OnTheASide(xMin: int, right: bool, p: seq<int>, x: int, y: int)
    requires 0 <= y < |p|
  {
    if right then x <= xMin + p[y] else x >= xMin + p[y]
  }

  /** What a hard cut shows, opaque: an image alone where only it reaches, and either side of the seam where both do. */
  function CutPixel(a: Grid<Rgba>, b: Grid<Rgba>, ma: Grid<U8>, mb: Grid<U8>, xMin: int, right: bool, p: seq<int>,
                    x: int,
                    y: int): Rgba
    requires a.Has(x, y) && b.Has(x, y) && y < |p|
  {
    var ofA := Covers(ma, x, y) && (!Covers(mb, x, y) || OnTheASide(xMin, right, p, x, y));
    var source := if ofA then a.At(x, y) else b.At(x, y);
    Rgba(source.r, source.g, source.b, 255)
  }

  /** Under a mask that splits at a seam no covered pixel is blended, not even next to the seam:
      the result is the two images cut along it, whatever the pyramids hold. */
  lemma SplitMaskCutsHard(a: Grid<Rgba>, b: Grid<Rgba>, ma: Grid<U8>, mb: Grid<U8>, msk: FMsk, xMin: int, right: bool,
                          p: seq<int>, collapsed: FImg, x: int, y: int)
    requires a.Has(x, y) && b.Has(x, y) && (Covers(ma, x, y) || Covers(mb, x, y))
    requires SplitsAt(msk, a.w, xMin, right, p) && |p| == a.h
    ensures FinalPixel(a, b, ma, mb, msk, collapsed, x, y) == CutPixel(a, b, ma, mb, xMin, right, p, x, y)
  {
    var seam :| Shifted(seam, p, xMin) && forall u, v | msk.Has(u, v) :: msk.At(u, v) == MaskValue(seam, right, u, v);
    assert Val(msk, x, y) == if OnTheASide(xMin, right, p, x, y) then 1.0 else 0.0;
    CleanPixelsAreLossless(a, b, ma, mb, msk, collapsed, x, y);
  }

  /** From two images to the finished one: whenever the finder gives a mask, the result is a hard cut along its seam;
      where some seam runs inside the overlap of at most 513 rows, along the finest. */
  lemma FinderMaskCutsHard(a: Grid<Rgba>, b: Grid<Rgba>, ma: Grid<U8>, mb: Grid<U8>, mask: Option<FMsk>, xMin: int,
                           xMax: int)
    returns (p: seq<int>)
    requires IsSeamMask(a, b, mask) && mask.Some? && a.w == b.w && a.h == b.h && IsZone(a, b, xMin, xMax)
    ensures |p| == a.h && IsFinderSeam(a, b, xMin, xMax, CentroidIsRight(a, b), p)
    ensures a.h <= 513 && HasInsideSeam(a, b, xMin, xMax - xMin + 1) ==>
              IsFinestSeam(a, b, xMin, xMax - xMin + 1, CentroidIsRight(a, b), p)
    ensures forall collapsed, x, y | a.Has(x, y) && (Covers(ma, x, y) || Covers(mb, x, y)) ::
              FinalPixel(a, b, ma, mb, mask.value, collapsed, x, y)
              == CutPixel(a, b, ma, mb, xMin, CentroidIsRight(a, b), p, x, y)
  {
    p := MaskSeam(a, b, mask, xMin, xMax);
    forall collapsed, x, y | a.Has(x, y) && (Covers(ma, x, y) || Covers(mb, x, y))
      ensures FinalPixel(a, b, ma, mb, mask.value, collapsed, x, y)
              == CutPixel(a, b, ma, mb, xMin, CentroidIsRight(a, b), p, x, y)
    {
      SplitMaskCutsHard(a, b, ma, mb, mask.value, xMin, CentroidIsRight(a, b), p, collapsed, x, y);
    }
  }

  lemma MaskSeam(a: Grid<Rgba>, b: Grid<Rgba>, mask: Option<FMsk>, xMin: int, xMax: int) returns (p: seq<int>)
    requires IsSeamMask(a, b, mask) && mask.Some? && a.w == b.w && a.h == b.h && IsZone(a, b, xMin, xMax)
    ensures |p| == a.h && IsFinderSeam(a, b, xMin, xMax, CentroidIsRight(a, b), p)
    ensures SplitsAt(mask.value, a.w, xMin, CentroidIsRight(a, b), p)
    ensures a.h <= 513 && HasInsideSeam(a, b, xMin, xMax - xMin + 1) ==>
              IsFinestSeam(a, b, xMin, xMax - xMin + 1, CentroidIsRight(a, b), p)
  {
    var lo: nat, hi: nat, s :| IsSeamMaskIn(a, b, mask, lo, hi, s);
    ZoneIsUnique(a, b, xMin, xMax, lo, hi);
    ZoneHasRows(a, b, xMin, xMax);
    p := s;
    if a.h <= 513 { FinestIffSomeSeamIsInside(a, b, xMin, xMax - xMin + 1, CentroidIsRight(a, b), p); }
  }
}
