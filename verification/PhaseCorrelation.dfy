/** From a correlation surface to a frame displacement (stitch_anime.rs, `phase_correlate`).

    The surface itself, the product of windowing and Fourier transforms, is an arbitrary grid of reals.
 */
module PhaseCorrelation {
  import opened Images

  datatype Peak = Peak(x: int, y: int, value: real)

  /** A displacement and the height of the peak it was read from. */
  datatype Shift = Shift(dx: int, dy: int, quality: real)

  function Visit(best: Peak, x: int, y: int, v: real): Peak {
    if v > best.value then Peak(x, y, v) else best
  }

  /** The best peak among rows 0..y and the first x cells of row y, scanned in that order. */
  function PeakUpTo(s: Grid<real>, y: nat, x: nat): (p: Peak)
    requires s.w > 0 && x <= s.w && (y < s.h || (y == s.h && x == 0))
    decreases y, x
  {
    if x > 0 then Visit(PeakUpTo(s, y, x - 1), x - 1, y, s.At(x - 1, y))
    else if y > 0 then PeakUpTo(s, y - 1, s.w)
    else Peak(0, 0, 0.0)
  }

  function PeakOf(s: Grid<real>): Peak
    requires s.w > 0
  {
    PeakUpTo(s, s.h, 0)
  }

  function Size(x: int): nat { if x < 0 then -x else x }

  function Abs(x: real): real { if x < 0.0 then -x else x }

  function ParabolaRefine(left: real, center: real, right: real): real {
    var denom := 2.0 * (2.0 * center - left - right);
    if Abs(denom) < 0.0000000001 then 0.0 else (right - left) / denom
  }

  /** Displacements beyond half the size are negative ones. */
  function Wrap(f: real, n: nat): real {
    if f > n as real / 2.0 then f - n as real else f
  }

  /** To the nearest integer, halves away from zero. */
  function Round(x: real): int {
    if x >= 0.0 then (x + 0.5).Floor else -((0.5 - x).Floor)
  }

  function AxisShift(left: real, center: real, right: real, peak: int, n: nat): int {
    Round(Wrap(peak as real + ParabolaRefine(left, center, right), n))
  }

  /** The cells next to x on a cyclic axis of n cells. */
  function Before(x: int, n: nat): (r: int)
    requires 0 <= x < n
    ensures r == if x > 0 then x - 1 else n - 1
  {
    assert x > 0 ==> (x + n - 1) % n == x - 1;
    (x + n - 1) % n
  }

  function After(x: int, n: nat): (r: int)
    requires 0 <= x < n
    ensures r == if x + 1 < n then x + 1 else 0
  {
    (x + 1) % n
  }

  function ShiftOf(s: Grid<real>): Shift
    requires s.w > 0 && s.h > 0
  {
    PeakBounds(s, s.h, 0);
    var p := PeakOf(s);
    Shift(AxisShift(s.At(Before(p.x, s.w), p.y), p.value, s.At(After(p.x, s.w), p.y), p.x, s.w),
          AxisShift(s.At(p.x, Before(p.y, s.h)), p.value, s.At(p.x, After(p.y, s.h)), p.y, s.h),
          p.value)
  }

  lemma {:induction false} PeakBounds(s: Grid<real>, y: nat, x: nat)
    requires s.w > 0 && s.h > 0 && x <= s.w && (y < s.h || (y == s.h && x == 0))
    ensures s.Has(PeakUpTo(s, y, x).x, PeakUpTo(s, y, x).y)
    decreases y, x
  {
    if x > 0 {
      PeakBounds(s, y, x - 1);
    } else if y > 0 {
      PeakBounds(s, y - 1, s.w);
    }
  }

  method PhaseCorrelate(s: Grid<real>) returns (r: Shift)
    requires s.w > 0 && s.h > 0
    ensures r == ShiftOf(s)
  {
    var w, h := s.w, s.h;
    var maxVal, peakX, peakY := 0.0, 0, 0;
    var y := 0;
    while y < h
      invariant 0 <= y <= h && Peak(peakX, peakY, maxVal) == PeakUpTo(s, y, 0)
    {
      var x := 0;
      while x < w
        invariant 0 <= x <= w && Peak(peakX, peakY, maxVal) == PeakUpTo(s, y, x)
      {
        var v := s.At(x, y);
        if v > maxVal {
          maxVal, peakX, peakY := v, x, y;
        }
        x := x + 1;
      }
      y := y + 1;
    }
    PeakBounds(s, h, 0);
    var left := s.At(Before(peakX, w), peakY);
    var right := s.At(After(peakX, w), peakY);
    var up := s.At(peakX, Before(peakY, h));
    var down := s.At(peakX, After(peakY, h));
    var dxf := peakX as real + ParabolaRefine(left, maxVal, right);
    var dyf := peakY as real + ParabolaRefine(up, maxVal, down);
    r := Shift(Round(Wrap(dxf, w)), Round(Wrap(dyf, h)), maxVal);
  }

  /** The peak is the row-major first among the highest cells, or (0, 0) at height 0 when no cell is positive. */
  ghost predicate IsPeak(s: Grid<real>, p: Peak) {
    && (forall x, y | s.Has(x, y) :: s.At(x, y) <= p.value)
    && (if p.value > 0.0
        then s.Has(p.x, p.y) && s.At(p.x, p.y) == p.value
             && forall x, y | s.Has(x, y) && (y < p.y || (y == p.y && x < p.x)) :: s.At(x, y) < p.value
        else p == Peak(0, 0, 0.0))
  }

  lemma {:induction false} PeakUpToIsPeak(s: Grid<real>, y: nat, x: nat)
    requires s.w > 0 && x <= s.w && (y < s.h || (y == s.h && x == 0))
    ensures var p := PeakUpTo(s, y, x);
            && (forall u, v | s.Has(u, v) && (v < y || (v == y && u < x)) :: s.At(u, v) <= p.value)
            && (if p.value > 0.0
                then s.Has(p.x, p.y) && (p.y < y || (p.y == y && p.x < x)) && s.At(p.x, p.y) == p.value
                     && forall u, v | s.Has(u, v) && (v < p.y || (v == p.y && u < p.x)) :: s.At(u, v) < p.value
                else p == Peak(0, 0, 0.0))
    decreases y, x
  {
    if x > 0 {
      PeakUpToIsPeak(s, y, x - 1);
    } else if y > 0 {
      PeakUpToIsPeak(s, y - 1, s.w);
    }
  }

  lemma PeakOfIsPeak(s: Grid<real>)
    requires s.w > 0
    ensures IsPeak(s, PeakOf(s))
  {
    PeakUpToIsPeak(s, s.h, 0);
  }

  lemma QuotientWithinHalf(a: real, d: real)
    requires d > 0.0 && -d <= 2.0 * a <= d
    ensures -0.5 <= a / d <= 0.5
  {
  }

  /** Next to a peak the parabola's vertex is at most half a cell away. */
  lemma RefineStaysWithinHalf(left: real, center: real, right: real)
    requires left <= center && right <= center
    ensures -0.5 <= ParabolaRefine(left, center, right) <= 0.5
  {
    var denom := 2.0 * (2.0 * center - left - right);
    if Abs(denom) >= 0.0000000001 {
      QuotientWithinHalf(right - left, denom);
    }
  }

  function Bend(a: real, d: real): real { a * (d * d) }

  function Parabola(a: real, b: real, c: real, x: real): real { a * (x * x) + b * x + c }

  /** From a parabola through the peak and its two neighbours the vertex v is read, higher than any place v + d; where
      the three cells are all but level there is nothing to read. */
  lemma RefineIsTheVertex(a: real, b: real, c: real, d: real)
    requires a <= 0.0 && d != 0.0
    ensures var v := ParabolaRefine(Parabola(a, b, c, -1.0), Parabola(a, b, c, 0.0), Parabola(a, b, c, 1.0));
            if -4.0 * a < 0.0000000001 then v == 0.0 else Parabola(a, b, c, v + d) < Parabola(a, b, c, v)
  {
    assert Parabola(a, b, c, -1.0) == a - b + c && Parabola(a, b, c, 0.0) == c && Parabola(a, b, c, 1.0) == a + b + c;
    var v := ParabolaRefine(a - b + c, c, a + b + c);
    if -4.0 * a >= 0.0000000001 {
      assert b == -2.0 * (a * v) by {
        assert v == 2.0 * b / (-4.0 * a);
        assert v * (-4.0 * a) == 2.0 * b;
      }
      ParabolaAround(a, b, c, v, d);
      BendsDown(a, d);
      IsBelow(Parabola(a, b, c, v + d), Parabola(a, b, c, v), 2.0 * (a * v) + b, d, Bend(a, d));
    }
  }

  lemma ParabolaAround(a: real, b: real, c: real, v: real, d: real)
    ensures Parabola(a, b, c, v + d) == Parabola(a, b, c, v) + (2.0 * (a * v) + b) * d + Bend(a, d)
  {
  }

  lemma BendsDown(a: real, d: real)
    requires a < 0.0 && d != 0.0
    ensures Bend(a, d) < 0.0
  {
    if d > 0.0 {
      Product(a, d);
      Product(a * d, d);
    } else {
      Product(d, -a);
      Product(d * -a, -d);
    }
    assert Bend(a, d) == (a * d) * d == (d * -a) * -d;
  }

  lemma Product(a: real, b: real)
    requires a < 0.0 < b
    ensures a * b < 0.0
  {
  }

  lemma IsBelow(p: real, q: real, slope: real, d: real, bend: real)
    requires p == q + slope * d + bend && slope == 0.0 && bend < 0.0
    ensures p < q
  {
  }

  /** f with k turns of a cyclic axis of n cells taken off. */
  function Turned(f: real, k: int, n: nat): real { f - k as real * n as real }

  /** t is f rounded to the nearest integer, halves away from zero, on a cyclic axis of n cells whose positions are
      taken between -n/2 and n/2, the latter included. */
  ghost predicate IsReadAs(f: real, n: nat, t: int) {
    exists k: int ::
      && -(n as real) < 2.0 * Turned(f, k, n) <= n as real
      && -0.5 <= t as real - Turned(f, k, n) <= 0.5
      && (t as real - Turned(f, k, n) == 0.5 ==> Turned(f, k, n) > 0.0)
      && (t as real - Turned(f, k, n) == -0.5 ==> Turned(f, k, n) < 0.0)
  }

  lemma RoundIsNearest(x: real)
    ensures -0.5 <= Round(x) as real - x <= 0.5
    ensures Round(x) as real - x == 0.5 ==> x > 0.0
    ensures Round(x) as real - x == -0.5 ==> x < 0.0
  {
  }

  /** Only one integer reads a position so. */
  lemma ReadingIsUnique(f: real, n: nat, t: int, u: int)
    requires IsReadAs(f, n, t) && IsReadAs(f, n, u)
    ensures t == u
  {
    var j: int :| -(n as real) < 2.0 * Turned(f, j, n) <= n as real && -0.5 <= t as real - Turned(f, j, n) <= 0.5
                  && (t as real - Turned(f, j, n) == 0.5 ==> Turned(f, j, n) > 0.0)
                  && (t as real - Turned(f, j, n) == -0.5 ==> Turned(f, j, n) < 0.0);
    var k: int :| -(n as real) < 2.0 * Turned(f, k, n) <= n as real && -0.5 <= u as real - Turned(f, k, n) <= 0.5
                  && (u as real - Turned(f, k, n) == 0.5 ==> Turned(f, k, n) > 0.0)
                  && (u as real - Turned(f, k, n) == -0.5 ==> Turned(f, k, n) < 0.0);
    if j < k { TurnsApart(f, j, k, n); }
    if k < j { TurnsApart(f, k, j, n); }
  }

  lemma TurnsApart(f: real, j: int, k: int, n: nat)
    requires j < k
    ensures Turned(f, j, n) - Turned(f, k, n) >= n as real
  {
    var m, t := n as real, (k - j) as real;
    assert Turned(f, j, n) - Turned(f, k, n) == t * m;
    assert (t - 1.0) * m >= 0.0;
  }

  /** On an axis of at least two cells a shift is the refined peak modulo the size, to the nearest cell. */
  lemma AxisShiftIff(left: real, center: real, right: real, peak: int, n: nat, t: int)
    requires left <= center && right <= center && 0 <= peak < n && n >= 2
    ensures t == AxisShift(left, center, right, peak, n)
       <==> IsReadAs(peak as real + ParabolaRefine(left, center, right), n, t)
  {
    RefineStaysWithinHalf(left, center, right);
    var f, r := peak as real + ParabolaRefine(left, center, right), AxisShift(left, center, right, peak, n);
    var k := if 2.0 * f > n as real then 1 else 0;
    assert r == Round(Turned(f, k, n));
    RoundIsNearest(Turned(f, k, n));
    assert IsReadAs(f, n, r);
    if IsReadAs(f, n, t) { ReadingIsUnique(f, n, t, r); }
  }

  /** An axis shift never exceeds half the size by more than half a cell; on an even axis never at all. */
  lemma AxisShiftIsBounded(left: real, center: real, right: real, peak: int, n: nat)
    requires left <= center && right <= center && 0 <= peak < n
    ensures 2 * Size(AxisShift(left, center, right, peak, n)) <= n + 1
    ensures n % 2 == 0 ==> 2 * Size(AxisShift(left, center, right, peak, n)) <= n
  {
    RefineStaysWithinHalf(left, center, right);
    var f := Wrap(peak as real + ParabolaRefine(left, center, right), n);
    assert -(n as real) / 2.0 <= f <= n as real / 2.0;
    RoundBounds(f, n);
  }

  lemma RoundBounds(f: real, n: nat)
    requires -(n as real) / 2.0 <= f <= n as real / 2.0
    ensures 2 * Size(Round(f)) <= n + 1
    ensures n % 2 == 0 ==> 2 * Size(Round(f)) <= n
  {
    var k := n / 2;
    assert n == 2 * k || n == 2 * k + 1;
    if f >= 0.0 {
      assert Round(f) as real <= f + 0.5;
    } else {
      assert (-Round(f)) as real <= 0.5 - f;
    }
  }

  /** Whatever the surface, a displacement is at most (w+1)/2 across and (h+1)/2 down, or half an even size. */
  lemma ShiftIsBounded(s: Grid<real>)
    requires s.w > 0 && s.h > 0
    ensures var r := ShiftOf(s);
            && 2 * Size(r.dx) <= s.w + 1 && 2 * Size(r.dy) <= s.h + 1
            && (s.w % 2 == 0 ==> 2 * Size(r.dx) <= s.w) && (s.h % 2 == 0 ==> 2 * Size(r.dy) <= s.h)
            && r.quality >= 0.0
  {
    PeakBounds(s, s.h, 0);
    PeakOfIsPeak(s);
    var p := PeakOf(s);
    AxisShiftIsBounded(s.At(Before(p.x, s.w), p.y), p.value, s.At(After(p.x, s.w), p.y), p.x, s.w);
    AxisShiftIsBounded(s.At(p.x, Before(p.y, s.h)), p.value, s.At(p.x, After(p.y, s.h)), p.y, s.h);
  }

  /** The code's comments promise |dx| <= w/2 and |dy| <= h/2 for every surface of w by h cells. */
  ghost predicate HalfWidthBound(w: nat, h: nat)
    requires w > 0 && h > 0
  {
    forall s: Grid<real> | s.w == w && s.h == h :: 2 * Size(ShiftOf(s).dx) <= w
  }

  ghost predicate HalfHeightBound(w: nat, h: nat)
    requires w > 0 && h > 0
  {
    forall s: Grid<real> | s.w == w && s.h == h :: 2 * Size(ShiftOf(s).dy) <= h
  }

  /** Two equal heights around the middle of an odd axis. */
  function TwinPeaks(i: int, n: nat): real { if i == n / 2 || i == n / 2 + 1 then 0.5 else 0.0 }

  /** They stand in the first row of an otherwise flat surface, or in its first column. */
  function PeaksAcross(w: nat, h: nat): Grid<real> {
    Tabulate(w, h, (x, y) => if y == 0 then TwinPeaks(x, w) else 0.0)
  }

  function PeaksDown(w: nat, h: nat): Grid<real> {
    Tabulate(w, h, (x, y) => if x == 0 then TwinPeaks(y, h) else 0.0)
  }

  lemma HalfwayRoundsUp(n: nat)
    requires n % 2 == 1
    ensures AxisShift(0.0, 0.5, 0.5, n / 2, n) == n / 2 + 1
  {
    var k := n / 2;
    assert ParabolaRefine(0.0, 0.5, 0.5) == 0.5;
    assert k as real + 0.5 == n as real / 2.0;
    assert (k as real + 1.0).Floor == k + 1;
  }

  /** A cell is the peak when no cell is higher and every earlier one is lower. */
  lemma PeakIs(s: Grid<real>, x: int, y: int, v: real)
    requires s.w > 0 && s.Has(x, y) && s.At(x, y) == v > 0.0
    requires forall i, j | s.Has(i, j) :: s.At(i, j) <= v
    requires forall i, j | s.Has(i, j) && (j < y || (j == y && i < x)) :: s.At(i, j) < v
    ensures PeakOf(s) == Peak(x, y, v)
  {
    PeakOfIsPeak(s);
    var p := PeakOf(s);
    assert s.At(p.x, p.y) == p.value == v;
    assert !(p.y < y || (p.y == y && p.x < x));
    assert !(y < p.y || (y == p.y && x < p.x));
  }

  lemma FlatRefine(side: real, center: real)
    ensures ParabolaRefine(side, center, side) == 0.0
  {
    var denom := 2.0 * (2.0 * center - side - side);
    if Abs(denom) >= 0.0000000001 { assert 0.0 / denom == 0.0; }
  }

  /** On an axis of one cell both neighbours are the peak itself. */
  lemma NoShiftOnOneCell(side: real, center: real)
    ensures AxisShift(side, center, side, 0, 1) == 0
  {
    FlatRefine(side, center);
    assert Round(0.0) == 0;
  }

  lemma OneCellShift(s: Grid<real>)
    requires s.w > 0 && s.h > 0
    ensures s.w == 1 ==> ShiftOf(s).dx == 0
    ensures s.h == 1 ==> ShiftOf(s).dy == 0
  {
    PeakBounds(s, s.h, 0);
    var p := PeakOf(s);
    if s.w == 1 { NoShiftOnOneCell(s.At(0, p.y), p.value); }
    if s.h == 1 { NoShiftOnOneCell(s.At(p.x, 0), p.value); }
  }

  /** The displacement is the one that the peak, refined along each axis, is read as. */
  lemma ShiftIsTheRefinedPeak(s: Grid<real>, t: Shift)
    requires s.w >= 2 && s.h >= 2
    ensures s.Has(PeakOf(s).x, PeakOf(s).y)
    ensures var p := PeakOf(s);
            var fx := p.x as real + ParabolaRefine(s.At(if p.x > 0 then p.x - 1 else s.w - 1, p.y), p.value,
                                                   s.At(if p.x + 1 < s.w then p.x + 1 else 0, p.y));
            var fy := p.y as real + ParabolaRefine(s.At(p.x, if p.y > 0 then p.y - 1 else s.h - 1), p.value,
                                                   s.At(p.x, if p.y + 1 < s.h then p.y + 1 else 0));
            t == ShiftOf(s) <==> IsReadAs(fx, s.w, t.dx) && IsReadAs(fy, s.h, t.dy) && t.quality == p.value
  {
    PeakBounds(s, s.h, 0);
    PeakOfIsPeak(s);
    var p := PeakOf(s);
    var left, right := s.At(Before(p.x, s.w), p.y), s.At(After(p.x, s.w), p.y);
    var up, down := s.At(p.x, Before(p.y, s.h)), s.At(p.x, After(p.y, s.h));
    AxisShiftIff(left, p.value, right, p.x, s.w, t.dx);
    AxisShiftIff(up, p.value, down, p.y, s.h, t.dy);
  }

  /** The cell where a displacement of d peaks on a cyclic axis of n cells. */
  function Cell(d: int, n: nat): int { if d < 0 then n + d else d }

  /** The only cell that stands out is the one of displacement (d, e), which is negative to the left and upwards. */
  ghost predicate IsSinglePeak(s: Grid<real>, d: int, e: int, v: real)
    requires s.w > 0 && s.h > 0
  {
    && 2 * Size(d) < s.w && 2 * Size(e) < s.h && v > 0.0
    && forall x, y | s.Has(x, y) ::
         if x == Cell(d, s.w) && y == Cell(e, s.h) then s.At(x, y) == v else s.At(x, y) <= 0.0
  }

  lemma SteepRefine(left: real, v: real, right: real)
    requires left <= 0.0 && right <= 0.0 < v
    ensures -0.5 < ParabolaRefine(left, v, right) < 0.5
  {
    var denom := 2.0 * (2.0 * v - left - right);
    if Abs(denom) >= 0.0000000001 {
      assert -denom < 2.0 * (right - left) < denom;
      StrictlyWithinHalf(right - left, denom);
    }
  }

  lemma StrictlyWithinHalf(a: real, d: real)
    requires d > 0.0 && -d < 2.0 * a < d
    ensures -0.5 < a / d < 0.5
  {
    assert a / d * d == a;
  }

  lemma SingleAxisPeak(left: real, v: real, right: real, d: int, n: nat)
    requires n >= 2 && 2 * Size(d) < n && left <= 0.0 && right <= 0.0 < v
    ensures AxisShift(left, v, right, Cell(d, n), n) == d
  {
    SteepRefine(left, v, right);
    RoundTo(d as real + ParabolaRefine(left, v, right), d);
  }

  lemma RoundTo(x: real, d: int)
    requires d as real - 0.5 < x < d as real + 0.5
    ensures Round(x) == d
  {
    RoundIsNearest(x);
  }

  /** A surface with one peak is read exactly, displacements to the left and upwards included. */
  lemma SinglePeakIsReadExactly(s: Grid<real>, d: int, e: int, v: real)
    requires s.w > 0 && s.h > 0 && IsSinglePeak(s, d, e, v)
    ensures ShiftOf(s) == Shift(d, e, v)
  {
    var x, y := Cell(d, s.w), Cell(e, s.h);
    assert s.Has(x, y);
    PeakIs(s, x, y, v);
    OneCellShift(s);
    if s.w >= 2 {
      SingleAxisPeak(s.At(Before(x, s.w), y), v, s.At(After(x, s.w), y), d, s.w);
    }
    if s.h >= 2 {
      SingleAxisPeak(s.At(x, Before(y, s.h)), v, s.At(x, After(y, s.h)), e, s.h);
    }
  }

  lemma PeaksAcrossShift(w: nat, h: nat)
    requires w >= 3 && w % 2 == 1 && h > 0
    ensures 2 * ShiftOf(PeaksAcross(w, h)).dx == w + 1
  {
    var s, k := PeaksAcross(w, h), w / 2;
    PeakIs(s, k, 0, 0.5);
    assert s.At(k - 1, 0) == 0.0 && s.At(k + 1, 0) == 0.5;
    HalfwayRoundsUp(w);
  }

  lemma PeaksDownShift(w: nat, h: nat)
    requires h >= 3 && h % 2 == 1 && w > 0
    ensures 2 * ShiftOf(PeaksDown(w, h)).dy == h + 1
  {
    var s, k := PeaksDown(w, h), h / 2;
    PeakIs(s, 0, k, 0.5);
    assert s.At(0, k - 1) == 0.0 && s.At(0, k + 1) == 0.5;
    HalfwayRoundsUp(h);
  }

  /** The promise holds across exactly for even widths and for a single column, whatever the height. */
  lemma HalfWidthBoundIffEven(w: nat, h: nat)
    requires w > 0 && h > 0
    ensures HalfWidthBound(w, h) <==> w % 2 == 0 || w == 1
  {
    if w % 2 == 1 && w > 1 {
      PeaksAcrossShift(w, h);
      var s := PeaksAcross(w, h);
      assert s.w == w && s.h == h && 2 * Size(ShiftOf(s).dx) > w;
    } else {
      forall s: Grid<real> | s.w == w && s.h == h
        ensures 2 * Size(ShiftOf(s).dx) <= w
      {
        ShiftIsBounded(s);
        OneCellShift(s);
      }
    }
  }

  /** And down exactly for even heights and for a single row, whatever the width. */
  lemma HalfHeightBoundIffEven(w: nat, h: nat)
    requires w > 0 && h > 0
    ensures HalfHeightBound(w, h) <==> h % 2 == 0 || h == 1
  {
    if h % 2 == 1 && h > 1 {
      PeaksDownShift(w, h);
      var s := PeaksDown(w, h);
      assert s.w == w && s.h == h && 2 * Size(ShiftOf(s).dy) > h;
    } else {
      forall s: Grid<real> | s.w == w && s.h == h
        ensures 2 * Size(ShiftOf(s).dy) <= h
      {
        ShiftIsBounded(s);
        OneCellShift(s);
      }
    }
  }

  /** The three cells of a row, each against its cyclic neighbour d places on. */
  function Autocorrelation(a: real, b: real, c: real, d: nat): real {
    if d % 3 == 0 then a * a + b * b + c * c else a * b + b * c + c * a
  }

  /** Such a tie is within reach of the transform, whose spectrum has height 1 everywhere or is 0 there: this row
      correlates with itself alone, so its spectrum is flat, and it is read as 2 cells on a row of 3. */
  lemma AttainableTie(h: nat)
    requires h > 0
    ensures var s := Tabulate(3, h, (x, y) => if y != 0 then 0.0 else if x == 0 then -1.0 / 3.0 else 2.0 / 3.0);
            && (forall d: nat ::
                  Autocorrelation(s.At(0, 0), s.At(1, 0), s.At(2, 0), d) == if d % 3 == 0 then 1.0 else 0.0)
            && ShiftOf(s).dx == 2
  {
    var s := Tabulate(3, h, (x, y) => if y != 0 then 0.0 else if x == 0 then -1.0 / 3.0 else 2.0 / 3.0);
    PeakIs(s, 1, 0, 2.0 / 3.0);
    assert s.At(0, 0) == -1.0 / 3.0 && s.At(2, 0) == 2.0 / 3.0;
    assert ParabolaRefine(-1.0 / 3.0, 2.0 / 3.0, 2.0 / 3.0) == 0.5;
    assert Wrap(1.5, 3) == 1.5 && (2.0 as real).Floor == 2;
  }
}
