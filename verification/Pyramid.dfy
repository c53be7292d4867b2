/** The Laplacian pyramid blend of the landscape stitcher (stitch_landscape.rs).

    Channels are exact reals.  A buffer is filled in place through an `array2` and frozen when done.
 */
module Pyramid {
  import opened Images

  const PYR_LEVELS := 4

  /** The four channels of a pixel. */
  datatype V4 = V4(r: real, g: real, b: real, a: real)

  const Zero := V4(0.0, 0.0, 0.0, 0.0)

  function Add(p: V4, q: V4): V4 { V4(p.r + q.r, p.g + q.g, p.b + q.b, p.a + q.a) }
  function Sub(p: V4, q: V4): V4 { V4(p.r - q.r, p.g - q.g, p.b - q.b, p.a - q.a) }

  /** t of p and the rest of q. */
  function Mix(t: real, p: V4, q: V4): V4 {
    V4(MixReal(t, p.r, q.r), MixReal(t, p.g, q.g), MixReal(t, p.b, q.b), MixReal(t, p.a, q.a))
  }

  function MixReal(t: real, p: real, q: real): real { p * t + q * (1.0 - t) }

  type FImg = Grid<V4>
  type FMsk = Grid<real>

  /** Reads outside the image are zero. */
  function Px(g: FImg, x: int, y: int): V4 { if g.Has(x, y) then g.At(x, y) else Zero }
  function Val(m: FMsk, x: int, y: int): real { if m.Has(x, y) then m.At(x, y) else 0.0 }

  function Clamp(v: int, lo: int, hi: int): int { if v < lo then lo else if v > hi then hi else v }
  function Min(a: int, b: int): int { if a < b then a else b }
  function Max(a: int, b: int): int { if a < b then b else a }

  // ---- 5-tap blur and halving ----

  /** The [1, 4, 6, 4, 1] / 16 kernel applied to five samples. */
  function Taps(a: real, b: real, c: real, d: real, e: real): real {
    0.0625 * a + 0.25 * b + 0.375 * c + 0.25 * d + 0.0625 * e
  }

  /** The sample k columns (or rows) away, reads past either end taking the edge. */
  function RowTap(m: FMsk, x: int, y: int, k: int): real { Val(m, Clamp(x + k, 0, m.w - 1), y) }
  function ColumnTap(m: FMsk, x: int, y: int, k: int): real { Val(m, x, Clamp(y + k, 0, m.h - 1)) }

  function BlurRow(m: FMsk, x: int, y: int): real {
    Taps(RowTap(m, x, y, -2), RowTap(m, x, y, -1), RowTap(m, x, y, 0), RowTap(m, x, y, 1), RowTap(m, x, y, 2))
  }

  function BlurColumn(m: FMsk, x: int, y: int): real {
    Taps(ColumnTap(m, x, y, -2), ColumnTap(m, x, y, -1), ColumnTap(m, x, y, 0), ColumnTap(m, x, y, 1),
         ColumnTap(m, x, y, 2))
  }

  const K5: seq<real> := [0.0625, 0.25, 0.375, 0.25, 0.0625]

  /** What the accumulator holds after the first k taps. */
  ghost function PartialTaps(k: int, a: real, b: real, c: real, d: real, e: real): real {
    if k <= 0 then 0.0
    else if k == 1 then 0.0625 * a
    else if k == 2 then 0.0625 * a + 0.25 * b
    else if k == 3 then 0.0625 * a + 0.25 * b + 0.375 * c
    else if k == 4 then 0.0625 * a + 0.25 * b + 0.375 * c + 0.25 * d
    else Taps(a, b, c, d, e)
  }

  method AccumulateRow(m: FMsk, x: nat, y: nat) returns (acc: real)
    ensures acc == BlurRow(m, x, y)
  {
    acc := 0.0;
    for k := 0 to 5
      invariant acc == PartialTaps(k, RowTap(m, x, y, -2), RowTap(m, x, y, -1), RowTap(m, x, y, 0), RowTap(m, x, y, 1),
                                   RowTap(m, x, y, 2))
    {
      acc := acc + K5[k] * Val(m, Clamp(x + k - 2, 0, m.w - 1), y);
    }
  }

  method AccumulateColumn(m: FMsk, x: nat, y: nat) returns (acc: real)
    ensures acc == BlurColumn(m, x, y)
  {
    acc := 0.0;
    for k := 0 to 5
      invariant acc == PartialTaps(k, ColumnTap(m, x, y, -2), ColumnTap(m, x, y, -1), ColumnTap(m, x, y, 0),
                                   ColumnTap(m, x, y, 1), ColumnTap(m, x, y, 2))
    {
      acc := acc + K5[k] * Val(m, x, Clamp(y + k - 2, 0, m.h - 1));
    }
  }

  method BlurRows(m: FMsk) returns (out: FMsk)
    ensures out.w == m.w && out.h == m.h
    ensures forall x, y | out.Has(x, y) :: out.At(x, y) == BlurRow(m, x, y)
  {
    var tmp := new real[m.h, m.w]((_, _) => 0.0);
    for y := 0 to m.h
      invariant forall v, u | 0 <= v < y && 0 <= u < m.w :: tmp[v, u] == BlurRow(m, u, v)
    {
      for x := 0 to m.w
        invariant forall v, u | 0 <= v < y && 0 <= u < m.w :: tmp[v, u] == BlurRow(m, u, v)
        invariant forall u | 0 <= u < x :: tmp[y, u] == BlurRow(m, u, y)
      {
        var acc := AccumulateRow(m, x, y);
        tmp[y, x] := acc;
      }
    }
    out := Freeze(tmp);
  }

  method BlurColumns(m: FMsk) returns (out: FMsk)
    ensures out.w == m.w && out.h == m.h
    ensures forall x, y | out.Has(x, y) :: out.At(x, y) == BlurColumn(m, x, y)
  {
    var res := new real[m.h, m.w]((_, _) => 0.0);
    for y := 0 to m.h
      invariant forall v, u | 0 <= v < y && 0 <= u < m.w :: res[v, u] == BlurColumn(m, u, v)
    {
      for x := 0 to m.w
        invariant forall v, u | 0 <= v < y && 0 <= u < m.w :: res[v, u] == BlurColumn(m, u, v)
        invariant forall u | 0 <= u < x :: res[y, u] == BlurColumn(m, u, y)
      {
        var acc := AccumulateColumn(m, x, y);
        res[y, x] := acc;
      }
    }
    out := Freeze(res);
  }

  function RowsBlurred(m: FMsk): (out: FMsk)
    ensures out.w == m.w && out.h == m.h
    ensures forall x, y | out.Has(x, y) :: out.At(x, y) == BlurRow(m, x, y)
  {
    Tabulate(m.w, m.h, (x, y) => BlurRow(m, x, y))
  }

  /** m blurred along its rows and then along its columns. */
  function Blur(m: FMsk): (out: FMsk)
    ensures out.w == m.w && out.h == m.h
    ensures forall x, y | out.Has(x, y) :: out.At(x, y) == BlurColumn(RowsBlurred(m), x, y)
  {
    Tabulate(m.w, m.h, (x, y) => BlurColumn(RowsBlurred(m), x, y))
  }

  method GaussMsk(m: FMsk) returns (out: FMsk)
    ensures out == Blur(m)
  {
    var tmp := BlurRows(m);
    GridsEqual(tmp, RowsBlurred(m));
    out := BlurColumns(tmp);
    GridsEqual(out, Blur(m));
  }

  /** Every second pixel of every second row. */
  function Halved<T>(g: Grid<T>): (out: Grid<T>)
    ensures out.w == (g.w + 1) / 2 && out.h == (g.h + 1) / 2
    ensures forall x, y | out.Has(x, y) :: g.Has(2 * x, 2 * y) && out.At(x, y) == g.At(2 * x, 2 * y)
  {
    Grid((g.w + 1) / 2, (g.h + 1) / 2,
         seq((g.h + 1) / 2, y requires 0 <= y < (g.h + 1) / 2 =>
           seq((g.w + 1) / 2, x requires 0 <= x < (g.w + 1) / 2 => g.At(2 * x, 2 * y))))
  }

  /** Serves images and masks alike. */
  method Down<T(0)>(g: Grid<T>, zero: T) returns (out: Grid<T>)
    ensures out == Halved(g)
  {
    var w, h := (g.w + 1) / 2, (g.h + 1) / 2;
    var res := new T[h, w]((_, _) => zero);
    for y := 0 to h
      invariant forall v, u | 0 <= v < y && 0 <= u < w :: res[v, u] == g.At(2 * u, 2 * v)
    {
      for x := 0 to w
        invariant forall v, u | 0 <= v < y && 0 <= u < w :: res[v, u] == g.At(2 * u, 2 * v)
        invariant forall u | 0 <= u < x :: res[y, u] == g.At(2 * u, 2 * y)
      {
        res[y, x] := g.At(2 * x, 2 * y);
      }
    }
    out := Freeze(res);
    GridsEqual(out, Halved(g));
  }

  // ---- bilinear enlargement ----

  /** Where output position x of `to` positions falls on an axis of `from` positions. */
  function Source(x: int, from: int, to: int): real {
    x as real * Max(from - 1, 1) as real / Max(to - 1, 1) as real
  }

  function Lerp(p: real, q: real, t: real): real { p * (1.0 - t) + q * t }

  function Bilinear(p00: real, p10: real, p01: real, p11: real, tx: real, ty: real): real {
    Lerp(Lerp(p00, p10, tx), Lerp(p01, p11, tx), ty)
  }

  function Bilinear4(p00: V4, p10: V4, p01: V4, p11: V4, tx: real, ty: real): V4 {
    V4(Bilinear(p00.r, p10.r, p01.r, p11.r, tx, ty), Bilinear(p00.g, p10.g, p01.g, p11.g, tx, ty),
       Bilinear(p00.b, p10.b, p01.b, p11.b, tx, ty), Bilinear(p00.a, p10.a, p01.a, p11.a, tx, ty))
  }

  function UpAt(g: FImg, tw: int, th: int, x: int, y: int): V4 {
    var fx, fy := Source(x, g.w, tw), Source(y, g.h, th);
    var x0, y0 := fx.Floor, fy.Floor;
    var x1, y1 := Min(x0 + 1, g.w - 1), Min(y0 + 1, g.h - 1);
    Bilinear4(Px(g, x0, y0), Px(g, x1, y0), Px(g, x0, y1), Px(g, x1, y1), fx - x0 as real, fy - y0 as real)
  }

  function Up(g: FImg, tw: nat, th: nat): (out: FImg)
    ensures out.w == tw && out.h == th
    ensures forall x, y | out.Has(x, y) :: out.At(x, y) == UpAt(g, tw, th, x, y)
  {
    Tabulate(tw, th, (x, y) => UpAt(g, tw, th, x, y))
  }

  /** A non-empty image can be enlarged to any size; an empty one only to an empty one. */
  method UpImg(g: FImg, tw: nat, th: nat) returns (out: FImg)
    requires tw > 0 && th > 0 ==> g.w > 0 && g.h > 0
    ensures out == Up(g, tw, th)
  {
    var res := new V4[th, tw]((_, _) => Zero);
    for y := 0 to th
      invariant forall v, u | 0 <= v < y && 0 <= u < tw :: res[v, u] == UpAt(g, tw, th, u, v)
    {
      for x := 0 to tw
        invariant forall v, u | 0 <= v < y && 0 <= u < tw :: res[v, u] == UpAt(g, tw, th, u, v)
        invariant forall u | 0 <= u < x :: res[y, u] == UpAt(g, tw, th, u, y)
      {
        res[y, x] := UpAt(g, tw, th, x, y);
      }
    }
    out := Freeze(res);
    GridsEqual(out, Up(g, tw, th));
  }

  // ---- analysis, blending, collapse ----

  /** Pixelwise over the size of the first image. */
  function Combine(p: FImg, q: FImg, op: (V4, V4) -> V4): (out: FImg)
    ensures out.w == p.w && out.h == p.h
    ensures forall x, y | out.Has(x, y) :: out.At(x, y) == op(Px(p, x, y), Px(q, x, y))
  {
    Tabulate(p.w, p.h, (x, y) => op(Px(p, x, y), Px(q, x, y)))
  }

  /** What one level holds beyond an enlargement of the next. */
  function Detail(fine: FImg, coarse: FImg): FImg { Combine(fine, Up(coarse, fine.w, fine.h), Sub) }

  function Restore(detail: FImg, coarse: FImg): FImg { Combine(detail, Up(coarse, detail.w, detail.h), Add) }

  /** Levels that exist never follow empty ones. */
  ghost predicate Enlargeable(gp: seq<FImg>) {
    forall k, l | 0 <= k < l < |gp| && l == k + 1 :: gp[k].w > 0 && gp[k].h > 0 ==> gp[l].w > 0 && gp[l].h > 0
  }

  ghost predicate IsLaplacian(gp: seq<FImg>, lp: seq<FImg>) {
    && |gp| == |lp| > 0 && lp[|gp|-1] == gp[|gp|-1]
    && forall k | 0 <= k < |gp| - 1 :: IsDetailLevel(gp, k, lp[k])
  }

  ghost predicate IsDetailLevel(gp: seq<FImg>, k: int, level: FImg)
    requires 0 <= k < |gp| - 1
  {
    level == Detail(gp[k], gp[k+1])
  }

  method Pixelwise(p: FImg, q: FImg, op: (V4, V4) -> V4) returns (out: FImg)
    ensures out == Combine(p, q, op)
  {
    var res := new V4[p.h, p.w]((_, _) => Zero);
    for y := 0 to p.h
      invariant forall v, u | 0 <= v < y && 0 <= u < p.w :: res[v, u] == op(Px(p, u, v), Px(q, u, v))
    {
      for x := 0 to p.w
        invariant forall v, u | 0 <= v < y && 0 <= u < p.w :: res[v, u] == op(Px(p, u, v), Px(q, u, v))
        invariant forall u | 0 <= u < x :: res[y, u] == op(Px(p, u, y), Px(q, u, y))
      {
        res[y, x] := op(Px(p, x, y), Px(q, x, y));
      }
    }
    out := Freeze(res);
    GridsEqual(out, Combine(p, q, op));
  }

  method LapPyr(gp: seq<FImg>) returns (lp: seq<FImg>)
    requires |gp| > 0 && Enlargeable(gp)
    ensures IsLaplacian(gp, lp)
  {
    lp := [];
    for k := 0 to |gp| - 1
      invariant |lp| == k && forall j | 0 <= j < k :: IsDetailLevel(gp, j, lp[j])
    {
      var u := UpImg(gp[k+1], gp[k].w, gp[k].h);
      var l := Pixelwise(gp[k], u, Sub);
      assert IsDetailLevel(gp, k, l);
      lp := lp + [l];
    }
    lp := lp + [gp[|gp|-1]];
  }

  /** The image the levels k, k+1, ... collapse to. */
  function Collapsed(lp: seq<FImg>, k: nat): (out: FImg)
    requires k < |lp|
    ensures out.w == lp[k].w && out.h == lp[k].h
    decreases |lp| - k
  {
    if k == |lp| - 1 then lp[k] else Restore(lp[k], Collapsed(lp, k + 1))
  }

  method CollapseLap(lp: seq<FImg>) returns (res: FImg)
    requires |lp| > 0 && Enlargeable(lp)
    ensures res == Collapsed(lp, 0)
  {
    res := lp[|lp|-1];
    var k := |lp| - 1;
    while k > 0
      invariant 0 <= k < |lp| && res == Collapsed(lp, k)
    {
      k := k - 1;
      var u := UpImg(res, lp[k].w, lp[k].h);
      res := Pixelwise(lp[k], u, Add);
    }
  }

  function BlendPixel(a: FImg, b: FImg, m: FMsk, x: int, y: int): V4 { Mix(Val(m, x, y), Px(a, x, y), Px(b, x, y)) }

  ghost predicate IsBlend(a: FImg, b: FImg, m: FMsk, out: FImg) {
    && out.w == Max(a.w, b.w) && out.h == Max(a.h, b.h)
    && forall x, y | out.Has(x, y) :: out.At(x, y) == BlendPixel(a, b, m, x, y)
  }

  method BlendLevel(a: FImg, b: FImg, m: FMsk) returns (out: FImg)
    ensures IsBlend(a, b, m, out)
  {
    var w, h := Max(a.w, b.w), Max(a.h, b.h);
    var res := new V4[h, w]((_, _) => Zero);
    for y := 0 to h
      invariant forall v, u | 0 <= v < y && 0 <= u < w :: res[v, u] == BlendPixel(a, b, m, u, v)
    {
      for x := 0 to w
        invariant forall v, u | 0 <= v < y && 0 <= u < w :: res[v, u] == BlendPixel(a, b, m, u, v)
        invariant forall u | 0 <= u < x :: res[y, u] == BlendPixel(a, b, m, u, y)
      {
        res[y, x] := BlendPixel(a, b, m, x, y);
      }
    }
    out := Freeze(res);
  }

  // ---- reconstruction ----

  lemma SubThenAdd(g: V4, u: V4)
    ensures Add(Sub(g, u), u) == g
  {
  }

  /** Adding the enlargement back undoes taking it away. */
  lemma RestoreUndoesDetail(fine: FImg, coarse: FImg)
    ensures Restore(Detail(fine, coarse), coarse) == fine
  {
    var d := Detail(fine, coarse);
    var r := Restore(d, coarse);
    forall x, y | fine.Has(x, y)
      ensures r.At(x, y) == fine.At(x, y)
    {
      assert d.Has(x, y) && r.Has(x, y) && Up(coarse, fine.w, fine.h).Has(x, y);
      SubThenAdd(fine.At(x, y), Up(coarse, fine.w, fine.h).At(x, y));
    }
    GridsEqual(r, fine);
  }

  /** Collapsing the Laplacian pyramid of any pyramid gives back its finest level, exactly. */
  lemma {:induction false} CollapseUndoesAnalysis(gp: seq<FImg>, lp: seq<FImg>, k: nat)
    requires IsLaplacian(gp, lp) && k < |gp|
    ensures Collapsed(lp, k) == gp[k]
    decreases |gp| - k
  {
    if k < |gp| - 1 {
      CollapseUndoesAnalysis(gp, lp, k + 1);
      assert IsDetailLevel(gp, k, lp[k]);
      RestoreUndoesDetail(gp[k], gp[k+1]);
    }
  }

  lemma MixSame(t: real, p: V4)
    ensures Mix(t, p, p) == p
  {
    MixRealSame(t, p.r);
    MixRealSame(t, p.g);
    MixRealSame(t, p.b);
    MixRealSame(t, p.a);
  }

  lemma MixRealSame(t: real, p: real)
    ensures MixReal(t, p, p) == p
  {
  }

  /** Blending an image with itself changes nothing, whatever the mask. */
  lemma BlendWithItself(a: FImg, m: FMsk, out: FImg)
    requires IsBlend(a, a, m, out)
    ensures out == a
  {
    forall x, y | out.Has(x, y)
      ensures out.At(x, y) == a.At(x, y)
    {
      MixSame(Val(m, x, y), Px(a, x, y));
    }
    GridsEqual(out, a);
  }

  // ---- linearity ----

  /** out is t of a and the rest of b, all of one size. */
  ghost predicate IsMix(t: real, a: FImg, b: FImg, out: FImg) {
    && a.w == b.w == out.w && a.h == b.h == out.h
    && forall x, y | out.Has(x, y) :: out.At(x, y) == Mix(t, a.At(x, y), b.At(x, y))
  }

  lemma LerpMix(t: real, p: real, q: real, p': real, q': real, s: real)
    ensures Lerp(MixReal(t, p, p'), MixReal(t, q, q'), s) == MixReal(t, Lerp(p, q, s), Lerp(p', q', s))
  {
  }

  lemma BilinearMix(t: real, p00: real, p10: real, p01: real, p11: real, q00: real, q10: real, q01: real, q11: real,
                    tx: real, ty: real)
    ensures Bilinear(MixReal(t, p00, q00), MixReal(t, p10, q10), MixReal(t, p01, q01), MixReal(t, p11, q11), tx, ty)
         == MixReal(t, Bilinear(p00, p10, p01, p11, tx, ty), Bilinear(q00, q10, q01, q11, tx, ty))
  {
    LerpMix(t, p00, p10, q00, q10, tx);
    LerpMix(t, p01, p11, q01, q11, tx);
    LerpMix(t, Lerp(p00, p10, tx), Lerp(p01, p11, tx), Lerp(q00, q10, tx), Lerp(q01, q11, tx), ty);
  }

  lemma Bilinear4Mix(t: real, p00: V4, p10: V4, p01: V4, p11: V4, q00: V4, q10: V4, q01: V4, q11: V4, tx: real,
                     ty: real)
    ensures Bilinear4(Mix(t, p00, q00), Mix(t, p10, q10), Mix(t, p01, q01), Mix(t, p11, q11), tx, ty)
         == Mix(t, Bilinear4(p00, p10, p01, p11, tx, ty), Bilinear4(q00, q10, q01, q11, tx, ty))
  {
    BilinearMix(t, p00.r, p10.r, p01.r, p11.r, q00.r, q10.r, q01.r, q11.r, tx, ty);
    BilinearMix(t, p00.g, p10.g, p01.g, p11.g, q00.g, q10.g, q01.g, q11.g, tx, ty);
    BilinearMix(t, p00.b, p10.b, p01.b, p11.b, q00.b, q10.b, q01.b, q11.b, tx, ty);
    BilinearMix(t, p00.a, p10.a, p01.a, p11.a, q00.a, q10.a, q01.a, q11.a, tx, ty);
  }

  lemma PxMix(t: real, a: FImg, b: FImg, out: FImg, x: int, y: int)
    requires IsMix(t, a, b, out)
    ensures Px(out, x, y) == Mix(t, Px(a, x, y), Px(b, x, y))
  {
    if !out.Has(x, y) { MixSame(t, Zero); }
  }

  lemma UpAtMix(t: real, a: FImg, b: FImg, out: FImg, tw: int, th: int, x: int, y: int)
    requires IsMix(t, a, b, out)
    ensures UpAt(out, tw, th, x, y) == Mix(t, UpAt(a, tw, th, x, y), UpAt(b, tw, th, x, y))
  {
    var fx, fy := Source(x, out.w, tw), Source(y, out.h, th);
    var x0, y0 := fx.Floor, fy.Floor;
    var x1, y1 := Min(x0 + 1, out.w - 1), Min(y0 + 1, out.h - 1);
    PxMix(t, a, b, out, x0, y0);
    PxMix(t, a, b, out, x1, y0);
    PxMix(t, a, b, out, x0, y1);
    PxMix(t, a, b, out, x1, y1);
    Bilinear4Mix(t, Px(a, x0, y0), Px(a, x1, y0), Px(a, x0, y1), Px(a, x1, y1),
                 Px(b, x0, y0), Px(b, x1, y0), Px(b, x0, y1), Px(b, x1, y1), fx - x0 as real, fy - y0 as real);
  }

  /** Enlarging is linear, zero padding included. */
  lemma UpIsLinear(t: real, a: FImg, b: FImg, out: FImg, tw: nat, th: nat)
    requires IsMix(t, a, b, out)
    ensures IsMix(t, Up(a, tw, th), Up(b, tw, th), Up(out, tw, th))
  {
    var ua, ub, uo := Up(a, tw, th), Up(b, tw, th), Up(out, tw, th);
    forall x, y | uo.Has(x, y)
      ensures uo.At(x, y) == Mix(t, ua.At(x, y), ub.At(x, y))
    {
      UpAtMix(t, a, b, out, tw, th, x, y);
      assert ua.Has(x, y) && ub.Has(x, y);
    }
  }

  lemma AddMix(t: real, p: V4, q: V4, p': V4, q': V4)
    ensures Add(Mix(t, p, q), Mix(t, p', q')) == Mix(t, Add(p, p'), Add(q, q'))
  {
    AddMixReal(t, p.r, q.r, p'.r, q'.r);
    AddMixReal(t, p.g, q.g, p'.g, q'.g);
    AddMixReal(t, p.b, q.b, p'.b, q'.b);
    AddMixReal(t, p.a, q.a, p'.a, q'.a);
  }

  lemma AddMixReal(t: real, p: real, q: real, p': real, q': real)
    ensures MixReal(t, p, q) + MixReal(t, p', q') == MixReal(t, p + p', q + q')
  {
  }

  lemma RestoreIsLinear(t: real, a: FImg, b: FImg, out: FImg, ca: FImg, cb: FImg, cout: FImg)
    requires IsMix(t, a, b, out) && IsMix(t, ca, cb, cout)
    ensures IsMix(t, Restore(a, ca), Restore(b, cb), Restore(out, cout))
  {
    var ua, ub, uo := Up(ca, a.w, a.h), Up(cb, b.w, b.h), Up(cout, out.w, out.h);
    UpIsLinear(t, ca, cb, cout, out.w, out.h);
    forall x, y | out.Has(x, y)
      ensures Restore(out, cout).At(x, y) == Mix(t, Restore(a, ca).At(x, y), Restore(b, cb).At(x, y))
    {
      AddMix(t, a.At(x, y), b.At(x, y), ua.At(x, y), ub.At(x, y));
    }
  }

  /** Collapse is linear: blending every level alike blends the images alike. */
  lemma {:induction false} CollapseIsLinear(t: real, la: seq<FImg>, lb: seq<FImg>, lo: seq<FImg>, k: nat)
    requires |la| == |lb| == |lo| && k < |lo|
    requires forall j | 0 <= j < |lo| :: IsMix(t, la[j], lb[j], lo[j])
    ensures IsMix(t, Collapsed(la, k), Collapsed(lb, k), Collapsed(lo, k))
    decreases |lo| - k
  {
    if k < |lo| - 1 {
      CollapseIsLinear(t, la, lb, lo, k + 1);
      RestoreIsLinear(t, la[k], lb[k], lo[k], Collapsed(la, k + 1), Collapsed(lb, k + 1), Collapsed(lo, k + 1));
    }
  }

  // ---- masks ----

  ghost predicate Within(m: FMsk, lo: real, hi: real) {
    forall x, y | m.Has(x, y) :: lo <= m.At(x, y) <= hi
  }

  lemma TapsStayWithin(a: real, b: real, c: real, d: real, e: real, lo: real, hi: real)
    requires lo <= a <= hi && lo <= b <= hi && lo <= c <= hi && lo <= d <= hi && lo <= e <= hi
    ensures lo <= Taps(a, b, c, d, e) <= hi
  {
  }

  lemma BlurRowStaysWithin(m: FMsk, x: int, y: int, lo: real, hi: real)
    requires Within(m, lo, hi) && m.Has(x, y)
    ensures lo <= BlurRow(m, x, y) <= hi
  {
    TapsStayWithin(RowTap(m, x, y, -2), RowTap(m, x, y, -1), RowTap(m, x, y, 0), RowTap(m, x, y, 1),
                   RowTap(m, x, y, 2), lo, hi);
  }

  lemma BlurColumnStaysWithin(m: FMsk, x: int, y: int, lo: real, hi: real)
    requires Within(m, lo, hi) && m.Has(x, y)
    ensures lo <= BlurColumn(m, x, y) <= hi
  {
    TapsStayWithin(ColumnTap(m, x, y, -2), ColumnTap(m, x, y, -1), ColumnTap(m, x, y, 0), ColumnTap(m, x, y, 1),
                   ColumnTap(m, x, y, 2), lo, hi);
  }

  /** Blurring never leaves the range of the mask, borders included; so a constant mask stays constant. */
  lemma BlurStaysWithin(m: FMsk, lo: real, hi: real)
    requires Within(m, lo, hi)
    ensures Within(Blur(m), lo, hi)
  {
    var tmp := RowsBlurred(m);
    forall x, y | tmp.Has(x, y)
      ensures lo <= tmp.At(x, y) <= hi
    {
      BlurRowStaysWithin(m, x, y, lo, hi);
    }
    forall x, y | Blur(m).Has(x, y)
      ensures lo <= Blur(m).At(x, y) <= hi
    {
      BlurColumnStaysWithin(tmp, x, y, lo, hi);
    }
  }

  // ---- Gaussian pyramids ----

  /** The size of level k: halved k times, rounding up. */
  function LevelSize(n: nat, k: nat): nat {
    if k == 0 then n else (LevelSize(n, k - 1) + 1) / 2
  }

  lemma {:induction false} LevelSizePositive(n: nat, k: nat)
    requires n > 0
    ensures LevelSize(n, k) > 0
  {
    if k > 0 { LevelSizePositive(n, k - 1); }
  }

  lemma {:induction false} LevelSizeZero(k: nat)
    ensures LevelSize(0, k) == 0
  {
    if k > 0 { LevelSizeZero(k - 1); }
  }

  /** The levels have the sizes of a pyramid over w by h. */
  ghost predicate Halving<T>(gp: seq<Grid<T>>, w: nat, h: nat) {
    |gp| == PYR_LEVELS && forall k | 0 <= k < |gp| :: gp[k].w == LevelSize(w, k) && gp[k].h == LevelSize(h, k)
  }

  function Pick(p: V4, c: nat): real { if c == 0 then p.r else if c == 1 then p.g else if c == 2 then p.b else p.a }

  /** One of the four channels as a plane of its own. */
  function Channel(g: FImg, c: nat): (m: FMsk)
    ensures m.w == g.w && m.h == g.h
    ensures forall x, y | m.Has(x, y) :: m.At(x, y) == Pick(g.At(x, y), c)
  {
    Tabulate(g.w, g.h, (x, y) => Pick(Px(g, x, y), c))
  }

  function Taps4(a: V4, b: V4, c: V4, d: V4, e: V4): V4 {
    V4(Taps(a.r, b.r, c.r, d.r, e.r), Taps(a.g, b.g, c.g, d.g, e.g),
       Taps(a.b, b.b, c.b, d.b, e.b), Taps(a.a, b.a, c.a, d.a, e.a))
  }

  function RowTap4(g: FImg, x: int, y: int, k: int): V4 { Px(g, Clamp(x + k, 0, g.w - 1), y) }
  function ColumnTap4(g: FImg, x: int, y: int, k: int): V4 { Px(g, x, Clamp(y + k, 0, g.h - 1)) }

  function BlurRow4(g: FImg, x: int, y: int): V4 {
    Taps4(RowTap4(g, x, y, -2), RowTap4(g, x, y, -1), RowTap4(g, x, y, 0), RowTap4(g, x, y, 1), RowTap4(g, x, y, 2))
  }

  function BlurColumn4(g: FImg, x: int, y: int): V4 {
    Taps4(ColumnTap4(g, x, y, -2), ColumnTap4(g, x, y, -1), ColumnTap4(g, x, y, 0), ColumnTap4(g, x, y, 1),
          ColumnTap4(g, x, y, 2))
  }

  function AddTap(acc: V4, kv: real, p: V4): V4 {
    V4(acc.r + kv * p.r, acc.g + kv * p.g, acc.b + kv * p.b, acc.a + kv * p.a)
  }

  /** What the four accumulators hold after the first k of five samples. */
  ghost function Weighted(samples: seq<V4>, k: nat): V4
    requires k <= |samples| == 5
  {
    if k == 0 then Zero else AddTap(Weighted(samples, k - 1), K5[k-1], samples[k-1])
  }

  lemma {:induction false} WeightedIsTaps(a: V4, b: V4, c: V4, d: V4, e: V4)
    ensures Weighted([a, b, c, d, e], 5) == Taps4(a, b, c, d, e)
  {
    var s := [a, b, c, d, e];
    assert Weighted(s, 1) == AddTap(Zero, 0.0625, a);
    assert Weighted(s, 2) == AddTap(Weighted(s, 1), 0.25, b);
    assert Weighted(s, 3) == AddTap(Weighted(s, 2), 0.375, c);
    assert Weighted(s, 4) == AddTap(Weighted(s, 3), 0.25, d);
    assert Weighted(s, 5) == AddTap(Weighted(s, 4), 0.0625, e);
  }

  method AccumulateRow4(g: FImg, x: nat, y: nat) returns (acc: V4)
    ensures acc == BlurRow4(g, x, y)
  {
    ghost var samples :=
      [RowTap4(g, x, y, -2), RowTap4(g, x, y, -1), RowTap4(g, x, y, 0), RowTap4(g, x, y, 1), RowTap4(g, x, y, 2)];
    acc := Zero;
    for k := 0 to 5
      invariant acc == Weighted(samples, k)
    {
      assert samples[k] == RowTap4(g, x, y, k - 2);
      acc := AddTap(acc, K5[k], Px(g, Clamp(x + k - 2, 0, g.w - 1), y));
    }
    WeightedIsTaps(samples[0], samples[1], samples[2], samples[3], samples[4]);
  }

  method AccumulateColumn4(g: FImg, x: nat, y: nat) returns (acc: V4)
    ensures acc == BlurColumn4(g, x, y)
  {
    ghost var samples :=
      [ColumnTap4(g, x, y, -2), ColumnTap4(g, x, y, -1), ColumnTap4(g, x, y, 0), ColumnTap4(g, x, y, 1),
       ColumnTap4(g, x, y, 2)];
    acc := Zero;
    for k := 0 to 5
      invariant acc == Weighted(samples, k)
    {
      assert samples[k] == ColumnTap4(g, x, y, k - 2);
      acc := AddTap(acc, K5[k], Px(g, x, Clamp(y + k - 2, 0, g.h - 1)));
    }
    WeightedIsTaps(samples[0], samples[1], samples[2], samples[3], samples[4]);
  }

  method BlurRowsImg(g: FImg) returns (out: FImg)
    ensures out.w == g.w && out.h == g.h
    ensures forall x, y | out.Has(x, y) :: out.At(x, y) == BlurRow4(g, x, y)
  {
    var tmp := new V4[g.h, g.w]((_, _) => Zero);
    for y := 0 to g.h
      invariant forall v, u | 0 <= v < y && 0 <= u < g.w :: tmp[v, u] == BlurRow4(g, u, v)
    {
      for x := 0 to g.w
        invariant forall v, u | 0 <= v < y && 0 <= u < g.w :: tmp[v, u] == BlurRow4(g, u, v)
        invariant forall u | 0 <= u < x :: tmp[y, u] == BlurRow4(g, u, y)
      {
        var acc := AccumulateRow4(g, x, y);
        tmp[y, x] := acc;
      }
    }
    out := Freeze(tmp);
  }

  method BlurColumnsImg(g: FImg) returns (out: FImg)
    ensures out.w == g.w && out.h == g.h
    ensures forall x, y | out.Has(x, y) :: out.At(x, y) == BlurColumn4(g, x, y)
  {
    var res := new V4[g.h, g.w]((_, _) => Zero);
    for y := 0 to g.h
      invariant forall v, u | 0 <= v < y && 0 <= u < g.w :: res[v, u] == BlurColumn4(g, u, v)
    {
      for x := 0 to g.w
        invariant forall v, u | 0 <= v < y && 0 <= u < g.w :: res[v, u] == BlurColumn4(g, u, v)
        invariant forall u | 0 <= u < x :: res[y, u] == BlurColumn4(g, u, y)
      {
        var acc := AccumulateColumn4(g, x, y);
        res[y, x] := acc;
      }
    }
    out := Freeze(res);
  }

  function RowsBlurredImg(g: FImg): (out: FImg)
    ensures out.w == g.w && out.h == g.h
    ensures forall x, y | out.Has(x, y) :: out.At(x, y) == BlurRow4(g, x, y)
  {
    Tabulate(g.w, g.h, (x, y) => BlurRow4(g, x, y))
  }

  /** An image blurred along its rows and then along its columns. */
  function BlurImg(g: FImg): (out: FImg)
    ensures out.w == g.w && out.h == g.h
    ensures forall x, y | out.Has(x, y) :: out.At(x, y) == BlurColumn4(RowsBlurredImg(g), x, y)
  {
    Tabulate(g.w, g.h, (x, y) => BlurColumn4(RowsBlurredImg(g), x, y))
  }

  method GaussImg(g: FImg) returns (out: FImg)
    ensures out == BlurImg(g)
  {
    var tmp := BlurRowsImg(g);
    GridsEqual(tmp, RowsBlurredImg(g));
    out := BlurColumnsImg(tmp);
    GridsEqual(out, BlurImg(g));
  }

  lemma ReadChannelwise(g: FImg, c: nat, x: int, y: int)
    ensures Val(Channel(g, c), x, y) == Pick(Px(g, x, y), c)
  {
  }

  lemma TapsChannelwise(p: V4, q: V4, r: V4, s: V4, t: V4, c: nat)
    ensures Pick(Taps4(p, q, r, s, t), c) == Taps(Pick(p, c), Pick(q, c), Pick(r, c), Pick(s, c), Pick(t, c))
  {
  }

  lemma RowChannelwise(g: FImg, c: nat, x: int, y: int)
    ensures Pick(BlurRow4(g, x, y), c) == BlurRow(Channel(g, c), x, y)
  {
    forall k: int
      ensures RowTap(Channel(g, c), x, y, k) == Pick(RowTap4(g, x, y, k), c)
    {
      ReadChannelwise(g, c, Clamp(x + k, 0, g.w - 1), y);
    }
    TapsChannelwise(RowTap4(g, x, y, -2), RowTap4(g, x, y, -1), RowTap4(g, x, y, 0), RowTap4(g, x, y, 1),
                    RowTap4(g, x, y, 2), c);
  }

  lemma ColumnChannelwise(g: FImg, c: nat, x: int, y: int)
    ensures Pick(BlurColumn4(g, x, y), c) == BlurColumn(Channel(g, c), x, y)
  {
    forall k: int
      ensures ColumnTap(Channel(g, c), x, y, k) == Pick(ColumnTap4(g, x, y, k), c)
    {
      ReadChannelwise(g, c, x, Clamp(y + k, 0, g.h - 1));
    }
    TapsChannelwise(ColumnTap4(g, x, y, -2), ColumnTap4(g, x, y, -1), ColumnTap4(g, x, y, 0), ColumnTap4(g, x, y, 1),
                    ColumnTap4(g, x, y, 2), c);
  }

  lemma RowsBlurChannelwise(g: FImg, c: nat)
    ensures Channel(RowsBlurredImg(g), c) == RowsBlurred(Channel(g, c))
  {
    forall x, y | RowsBlurredImg(g).Has(x, y)
      ensures Pick(RowsBlurredImg(g).At(x, y), c) == BlurRow(Channel(g, c), x, y)
    {
      RowChannelwise(g, c, x, y);
    }
    GridsEqual(Channel(RowsBlurredImg(g), c), RowsBlurred(Channel(g, c)));
  }

  /** No channel bleeds into another: each is blurred as a mask of its own would be. */
  lemma BlurIsChannelwise(g: FImg, c: nat)
    ensures Channel(BlurImg(g), c) == Blur(Channel(g, c))
  {
    RowsBlurChannelwise(g, c);
    forall x, y | BlurImg(g).Has(x, y)
      ensures Pick(BlurImg(g).At(x, y), c) == BlurColumn(RowsBlurred(Channel(g, c)), x, y)
    {
      ColumnChannelwise(RowsBlurredImg(g), c, x, y);
    }
    GridsEqual(Channel(BlurImg(g), c), Blur(Channel(g, c)));
  }

  lemma HalvedChannelwise(g: FImg, c: nat)
    ensures Channel(Halved(g), c) == Halved(Channel(g, c))
  {
    GridsEqual(Channel(Halved(g), c), Halved(Channel(g, c)));
  }

  /** Level k: blur and halve k times. */
  function ImageLevel(g: FImg, k: nat): (out: FImg)
    ensures out.w == LevelSize(g.w, k) && out.h == LevelSize(g.h, k)
  {
    if k == 0 then g else Halved(BlurImg(ImageLevel(g, k - 1)))
  }

  function MaskLevel(m: FMsk, k: nat): (out: FMsk)
    ensures out.w == LevelSize(m.w, k) && out.h == LevelSize(m.h, k)
  {
    if k == 0 then m else Halved(Blur(MaskLevel(m, k - 1)))
  }

  method NextImageLevel(ghost g: FImg, ghost k: nat, level: FImg) returns (next: FImg)
    requires level == ImageLevel(g, k)
    ensures next == ImageLevel(g, k + 1)
  {
    var b := GaussImg(level);
    next := Down(b, Zero);
  }

  ghost function ImageLevels(g: FImg): (gp: seq<FImg>)
    ensures |gp| == PYR_LEVELS
  {
    seq(PYR_LEVELS, k requires 0 <= k < PYR_LEVELS => ImageLevel(g, k))
  }

  lemma ImageLevelsStep(g: FImg, i: nat)
    requires i + 1 < PYR_LEVELS
    ensures ImageLevels(g)[i] == ImageLevel(g, i)
    ensures ImageLevels(g)[..i+2] == ImageLevels(g)[..i+1] + [ImageLevel(g, i + 1)]
  {
  }

  method GaussPyrImg(g: FImg) returns (gp: seq<FImg>)
    ensures gp == ImageLevels(g)
  {
    ghost var levels := ImageLevels(g);
    gp := [g];
    assert gp == levels[..1];
    while |gp| < PYR_LEVELS
      invariant 0 < |gp| <= PYR_LEVELS && gp == levels[..|gp|]
      decreases PYR_LEVELS - |gp|
    {
      ghost var i := |gp| - 1;
      assert gp[i] == levels[i];
      ImageLevelsStep(g, i);
      var d := NextImageLevel(g, i, gp[|gp|-1]);
      gp := gp + [d];
    }
  }

  method GaussPyrMsk(m: FMsk) returns (gp: seq<FMsk>)
    ensures |gp| == PYR_LEVELS && forall k | 0 <= k < |gp| :: gp[k] == MaskLevel(m, k)
  {
    gp := [m];
    while |gp| < PYR_LEVELS
      invariant 0 < |gp| <= PYR_LEVELS
      invariant forall k | 0 <= k < |gp| :: gp[k] == MaskLevel(m, k)
      decreases PYR_LEVELS - |gp|
    {
      var b := GaussMsk(gp[|gp|-1]);
      var d := Down(b, 0.0);
      gp := gp + [d];
    }
  }

  lemma NextLevelStaysWithin(m: FMsk, k: nat, lo: real, hi: real)
    requires k > 0 && Within(MaskLevel(m, k - 1), lo, hi)
    ensures Within(MaskLevel(m, k), lo, hi)
  {
    BlurStaysWithin(MaskLevel(m, k - 1), lo, hi);
    var blurred, next := Blur(MaskLevel(m, k - 1)), MaskLevel(m, k);
    forall x, y | next.Has(x, y)
      ensures lo <= next.At(x, y) <= hi
    {
      assert blurred.Has(2 * x, 2 * y) && next.At(x, y) == blurred.At(2 * x, 2 * y);
    }
  }

  /** No level of a mask pyramid leaves the range of the mask. */
  lemma {:induction false} LevelsStayWithin(m: FMsk, k: nat, lo: real, hi: real)
    requires Within(m, lo, hi)
    ensures Within(MaskLevel(m, k), lo, hi)
  {
    if k > 0 {
      LevelsStayWithin(m, k - 1, lo, hi);
      NextLevelStaysWithin(m, k, lo, hi);
    }
  }

  lemma NextLevelChannelwise(g: FImg, c: nat)
    ensures Channel(Halved(BlurImg(g)), c) == Halved(Blur(Channel(g, c)))
  {
    BlurIsChannelwise(g, c);
    HalvedChannelwise(BlurImg(g), c);
  }

  /** Each channel of an image has the pyramid a mask of its own would have, and so keeps its range. */
  lemma {:induction false} LevelsAreChannelwise(g: FImg, k: nat, c: nat)
    ensures Channel(ImageLevel(g, k), c) == MaskLevel(Channel(g, c), k)
  {
    if k > 0 {
      LevelsAreChannelwise(g, k - 1, c);
      NextLevelChannelwise(ImageLevel(g, k - 1), c);
    }
  }

  // ---- when enlarging keeps a constant image constant ----

  ghost predicate AllEqual(g: FImg, c: V4) {
    forall x, y | g.Has(x, y) :: g.At(x, y) == c
  }

  ghost predicate KeepsConstants(w: nat, h: nat, tw: nat, th: nat) {
    forall g: FImg, c | g.w == w && g.h == h && AllEqual(g, c) :: AllEqual(Up(g, tw, th), c)
  }

  lemma FractionBound(x: real, p: real, q: real)
    requires 0.0 <= x <= q && p >= 0.0 && q > 0.0
    ensures 0.0 <= x * p / q <= p
  {
    ProductBound(x, q, p);
    QuotientBound(x * p, q, p);
  }

  lemma ProductBound(x: real, q: real, p: real)
    requires 0.0 <= x <= q && p >= 0.0
    ensures 0.0 <= x * p <= q * p
  {
  }

  lemma QuotientBound(n: real, q: real, p: real)
    requires q > 0.0 && 0.0 <= n <= q * p
    ensures 0.0 <= n / q <= p
  {
  }

  /** With at least two source positions, or at most one output position, no read falls off the end. */
  lemma SourceInRange(x: int, from: nat, to: nat)
    requires 0 <= x < to && from > 0 && (from > 1 || to <= 1)
    ensures 0 <= Source(x, from, to).Floor < from
  {
    FractionBound(x as real, Max(from - 1, 1) as real, Max(to - 1, 1) as real);
    if to <= 1 { assert Source(x, from, to) == 0.0; }
  }

  /** A single source position enlarged to several: the last output position reads past the end. */
  lemma SourcePastTheEnd(to: nat)
    requires to > 1
    ensures Source(to - 1, 1, to) == 1.0
  {
  }

  lemma BilinearSame(c: V4, tx: real, ty: real)
    ensures Bilinear4(c, c, c, c, tx, ty) == c
  {
    LerpSame(c.r, tx);
    LerpSame(c.g, tx);
    LerpSame(c.b, tx);
    LerpSame(c.a, tx);
    LerpSame(c.r, ty);
    LerpSame(c.g, ty);
    LerpSame(c.b, ty);
    LerpSame(c.a, ty);
  }

  lemma LerpSame(p: real, t: real)
    ensures Lerp(p, p, t) == p
  {
  }

  const One := V4(1.0, 1.0, 1.0, 1.0)

  function Ones(w: nat, h: nat): (g: FImg)
    ensures g.w == w && g.h == h && AllEqual(g, One)
  {
    Tabulate(w, h, (x, y) => One)
  }

  lemma ZeroTaps(p01: V4, p11: V4)
    ensures Bilinear4(Zero, p01, Zero, p11, 0.0, 0.0) == Zero
    ensures Bilinear4(Zero, Zero, p01, p11, 0.0, 0.0) == Zero
  {
  }

  /** Enlarging a one-pixel-wide (or -high) image darkens its far edge to zero. */
  lemma ThinImagesFade(w: nat, h: nat, tw: nat, th: nat)
    requires w > 0 && h > 0 && tw > 0 && th > 0 && ((w == 1 && tw > 1) || (h == 1 && th > 1))
    ensures !KeepsConstants(w, h, tw, th)
  {
    var g := Ones(w, h);
    var x, y := if w == 1 && tw > 1 then tw - 1 else 0, if w == 1 && tw > 1 then 0 else th - 1;
    var fx, fy := Source(x, w, tw), Source(y, h, th);
    if w == 1 && tw > 1 {
      SourcePastTheEnd(tw);
      assert fx == 1.0 && fy == 0.0;
      ZeroTaps(Px(g, 0, 0), Px(g, 0, Min(1, h - 1)));
    } else {
      SourcePastTheEnd(th);
      assert fy == 1.0 && fx == 0.0;
      ZeroTaps(Px(g, 0, 0), Px(g, Min(1, w - 1), 0));
    }
    assert UpAt(g, tw, th, x, y) == Zero;
    assert Up(g, tw, th).Has(x, y) && Up(g, tw, th).At(x, y) != One;
    assert AllEqual(g, One) && !AllEqual(Up(g, tw, th), One);
  }

  lemma UpKeepsConstant(g: FImg, c: V4, tw: nat, th: nat)
    requires g.w > 0 && g.h > 0 && (g.w > 1 || tw <= 1) && (g.h > 1 || th <= 1) && AllEqual(g, c)
    ensures AllEqual(Up(g, tw, th), c)
  {
    forall x, y | Up(g, tw, th).Has(x, y)
      ensures Up(g, tw, th).At(x, y) == c
    {
      SourceInRange(x, g.w, tw);
      SourceInRange(y, g.h, th);
      var fx, fy := Source(x, g.w, tw), Source(y, g.h, th);
      BilinearSame(c, fx - fx.Floor as real, fy - fy.Floor as real);
    }
  }

  /** Enlarging keeps constants exactly when no axis goes from one position to several. */
  lemma KeepsConstantsIff(w: nat, h: nat, tw: nat, th: nat)
    requires w > 0 && h > 0 && tw > 0 && th > 0
    ensures KeepsConstants(w, h, tw, th) <==> (w > 1 || tw == 1) && (h > 1 || th == 1)
  {
    if (w > 1 || tw == 1) && (h > 1 || th == 1) {
      forall g: FImg, c | g.w == w && g.h == h && AllEqual(g, c)
        ensures AllEqual(Up(g, tw, th), c)
      {
        UpKeepsConstant(g, c, tw, th);
      }
    } else {
      ThinImagesFade(w, h, tw, th);
    }
  }
}
