/** What the pyramid's blur and enlargement do to simple images (stitch_landscape.rs): the blur spreads a single bright
    pixel by the binomial weights, and the enlargement continues a linear slope.
 */
module Resampling {
  import opened Images
  import opened Pyramid

  // ---- the blur ----

  /** 1, 4, 6, 4, 1 sixteenths. */
  function Spread(d: int): real {
    if d == 0 then 6.0 / 16.0
    else if d == 1 || d == -1 then 4.0 / 16.0
    else if d == 2 || d == -2 then 1.0 / 16.0
    else 0.0
  }

  /** All of the mask is 0 but for a 1 at (u, v), which is not on its border. */
  ghost predicate IsImpulse(m: FMsk, u: int, v: int) {
    && 0 < u < m.w - 1 && 0 < v < m.h - 1
    && forall x, y | m.Has(x, y) :: m.At(x, y) == if x == u && y == v then 1.0 else 0.0
  }

  lemma ImpulseRow(m: FMsk, u: int, v: int, x: int, y: int)
    requires IsImpulse(m, u, v) && m.Has(x, y)
    ensures BlurRow(m, x, y) == if y == v then Spread(x - u) else 0.0
  {
    forall k | -2 <= k <= 2
      ensures RowTap(m, x, y, k) == if y == v && x + k == u then 1.0 else 0.0
    {
      assert m.Has(Clamp(x + k, 0, m.w - 1), y);
    }
  }

  /** A column that is 0 but for a value c in row v. */
  lemma SpikeColumn(m: FMsk, x: int, y: int, v: int, c: real)
    requires m.Has(x, y) && 0 < v < m.h - 1
    requires forall j | m.Has(x, j) :: m.At(x, j) == if j == v then c else 0.0
    ensures BlurColumn(m, x, y) == c * Spread(y - v)
  {
    forall k | -2 <= k <= 2
      ensures ColumnTap(m, x, y, k) == if y + k == v then c else 0.0
    {
      assert m.Has(x, Clamp(y + k, 0, m.h - 1));
    }
  }

  /** One bright pixel spreads by the binomial weights, across and down alike. */
  lemma BlurSpreadsAnImpulse(m: FMsk, u: int, v: int, x: int, y: int)
    requires IsImpulse(m, u, v) && m.Has(x, y)
    ensures Blur(m).Has(x, y) && Blur(m).At(x, y) == Spread(x - u) * Spread(y - v)
  {
    var rows := RowsBlurred(m);
    forall j | rows.Has(x, j)
      ensures rows.At(x, j) == if j == v then Spread(x - u) else 0.0
    {
      ImpulseRow(m, u, v, x, j);
    }
    SpikeColumn(rows, x, y, v, Spread(x - u));
  }

  /** Only pixels with the same four channels are the same. */
  lemma ChannelsTellPixelsApart(p: V4, q: V4)
    ensures p == q <==> Pick(p, 0) == Pick(q, 0) && Pick(p, 1) == Pick(q, 1) && Pick(p, 2) == Pick(q, 2)
                        && Pick(p, 3) == Pick(q, 3)
  {
  }

  // ---- the enlargement ----

  /** A linear slope: a for each column, b for each row. */
  function Slope(a: real, b: real, e: real, x: real, y: real): real { a * x + b * y + e }

  ghost predicate IsSlope(g: FImg, c: nat, a: real, b: real, e: real) {
    forall x, y | g.Has(x, y) :: Pick(g.At(x, y), c) == Slope(a, b, e, x as real, y as real)
  }

  lemma LerpSlope(a: real, e: real, u: real, v: real, t: real)
    requires v == u + 1.0 || t == 0.0
    ensures Lerp(a * u + e, a * v + e, t) == a * (u + t) + e
  {
    if v == u + 1.0 { assert a * v == a * u + a; }
    assert a * (u + t) == a * u + a * t;
  }

  lemma BilinearSlope(a: real, b: real, e: real, u: real, v: real, u': real, v': real, s: real, t: real)
    requires (u' == u + 1.0 || s == 0.0) && (v' == v + 1.0 || t == 0.0)
    ensures Bilinear(Slope(a, b, e, u, v), Slope(a, b, e, u', v), Slope(a, b, e, u, v'), Slope(a, b, e, u', v'), s, t)
         == Slope(a, b, e, u + s, v + t)
  {
    LerpSlope(a, b * v + e, u, u', s);
    LerpSlope(a, b * v' + e, u, u', s);
    LerpSlope(b, a * (u + s) + e, v, v', t);
    Reorder(a * u, b * v, e);
    Reorder(a * u', b * v, e);
    Reorder(a * u, b * v', e);
    Reorder(a * u', b * v', e);
    Reorder(b * v, a * (u + s), e);
    Reorder(b * v', a * (u + s), e);
  }

  lemma Reorder(p: real, q: real, e: real)
    ensures p + q + e == p + (q + e) == q + (p + e)
  {
  }

  lemma PickBilinear(p00: V4, p10: V4, p01: V4, p11: V4, s: real, t: real, c: nat)
    ensures Pick(Bilinear4(p00, p10, p01, p11, s, t), c)
         == Bilinear(Pick(p00, c), Pick(p10, c), Pick(p01, c), Pick(p11, c), s, t)
  {
  }

  /** j follows i, or f falls on i. */
  predicate IsPlace(f: real, i: int, j: int, from: nat) {
    0 <= i < from && 0 <= j < from && i == f.Floor && j == Min(i + 1, from - 1) && (j == i + 1 || f == i as real)
  }

  lemma FloorPlace(f: real, from: nat)
    requires 0.0 <= f <= (from - 1) as real && from >= 2
    ensures IsPlace(f, f.Floor, Min(f.Floor + 1, from - 1), from)
  {
  }

  /** f is as far along `from` places as x is along `to` places. */
  predicate IsProportional(f: real, from: nat, x: int, to: nat) {
    f * (to - 1) as real == x as real * (from - 1) as real
  }

  /** Where output place x falls between two source places. */
  lemma SourcePlace(x: int, from: nat, to: nat) returns (f: real)
    requires 0 <= x < to && from >= 2 && to >= 2
    ensures IsProportional(f, from, x, to) && f == Source(x, from, to)
    ensures IsPlace(f, f.Floor, Min(f.Floor + 1, from - 1), from)
  {
    f := x as real * (from - 1) as real / (to - 1) as real;
    FractionBound(x as real, (from - 1) as real, (to - 1) as real);
    FloorPlace(f, from);
    assert f * (to - 1) as real == x as real * (from - 1) as real;
  }

  lemma SlopeAtCorners(p00: V4, p10: V4, p01: V4, p11: V4, c: nat, a: real, b: real, e: real, u: real, v: real,
                       u': real, v': real, s: real, t: real)
    requires Pick(p00, c) == Slope(a, b, e, u, v) && Pick(p10, c) == Slope(a, b, e, u', v)
    requires Pick(p01, c) == Slope(a, b, e, u, v') && Pick(p11, c) == Slope(a, b, e, u', v')
    requires (u' == u + 1.0 || s == 0.0) && (v' == v + 1.0 || t == 0.0)
    ensures Pick(Bilinear4(p00, p10, p01, p11, s, t), c) == Slope(a, b, e, u + s, v + t)
  {
    PickBilinear(p00, p10, p01, p11, s, t, c);
    BilinearSlope(a, b, e, u, v, u', v', s, t);
  }

  lemma UpAtSlope(g: FImg, tw: nat, th: nat, c: nat, a: real, b: real, e: real, x: int, y: int, fx: real, fy: real)
    requires IsSlope(g, c, a, b, e) && fx == Source(x, g.w, tw) && fy == Source(y, g.h, th)
    requires IsPlace(fx, fx.Floor, Min(fx.Floor + 1, g.w - 1), g.w)
    requires IsPlace(fy, fy.Floor, Min(fy.Floor + 1, g.h - 1), g.h)
    ensures Pick(UpAt(g, tw, th, x, y), c) == Slope(a, b, e, fx, fy)
  {
    var x0, y0 := fx.Floor, fy.Floor;
    var x1, y1 := Min(x0 + 1, g.w - 1), Min(y0 + 1, g.h - 1);
    SlopeAtCorners(Px(g, x0, y0), Px(g, x1, y0), Px(g, x0, y1), Px(g, x1, y1), c, a, b, e, x0 as real, y0 as real,
                   x1 as real, y1 as real, fx - x0 as real, fy - y0 as real);
    assert x0 as real + (fx - x0 as real) == fx && y0 as real + (fy - y0 as real) == fy;
  }

  /** Enlarging continues a slope: output place (x, y) shows the slope's value at (fx, fy), which lies between the first
      and the last source places as (x, y) does between the first and the last output places. */
  lemma UpContinuesSlopes(g: FImg, tw: nat, th: nat, c: nat, a: real, b: real, e: real, x: int, y: int)
    returns (fx: real, fy: real)
    requires g.w >= 2 && g.h >= 2 && tw >= 2 && th >= 2 && 0 <= x < tw && 0 <= y < th && IsSlope(g, c, a, b, e)
    ensures IsProportional(fx, g.w, x, tw) && IsProportional(fy, g.h, y, th)
    ensures Up(g, tw, th).Has(x, y) && Pick(Up(g, tw, th).At(x, y), c) == Slope(a, b, e, fx, fy)
  {
    fx := SourcePlace(x, g.w, tw);
    fy := SourcePlace(y, g.h, th);
    UpAtSlope(g, tw, th, c, a, b, e, x, y, fx, fy);
    assert Up(g, tw, th).Has(x, y);
  }
}
