/** The saturating seam finder of the landscape stitcher (stitch_landscape.rs).

    Pixel energies are exact reals, so rounding of single-precision sums is not modelled;
    the 1e8 test and the 1e9 penalty are.
 */
module LandscapeSeam {
  import opened Images
  import opened SeamDp

  datatype Rgba = Rgba(r: U8, g: U8, b: U8, a: U8)

  datatype Option<T> = None | Some(value: T)

  const LIMIT := 1.0e8
  const PENALTY := 1.0e9
  /** The largest squared colour distance of two pixels. */
  const MAX_ENERGY := 195075.0

  function SquaredDistance(p: Rgba, q: Rgba): int {
    (p.r - q.r) * (p.r - q.r) + (p.g - q.g) * (p.g - q.g) + (p.b - q.b) * (p.b - q.b)
  }

  predicate InOverlap(a: Grid<Rgba>, b: Grid<Rgba>, x: int, y: int) {
    a.Has(x, y) && b.Has(x, y) && a.At(x, y).a > 0 && b.At(x, y).a > 0
  }

  function PixelEnergy(a: Grid<Rgba>, b: Grid<Rgba>, x: int, y: int): real {
    if InOverlap(a, b, x, y) then SquaredDistance(a.At(x, y), b.At(x, y)) as real else PENALTY
  }

  /** The seam steps over rows; its position is a column counted from xMin. */
  function Energy(a: Grid<Rgba>, b: Grid<Rgba>, xMin: int): CostFn {
    (y: int, cx: int) => PixelEnergy(a, b, xMin + cx, y)
  }

  // ---- the saturating table ----

  function SaturatingSum(ev: real, prev: real): real {
    if ev < LIMIT && prev < LIMIT then ev + prev else PENALTY
  }

  function NextSatRow(c: CostFn, t: nat, prev: seq<real>): (r: seq<real>)
    ensures |r| == |prev|
  {
    seq(|prev|, j requires 0 <= j < |prev| => SaturatingSum(c(t, j), NearMin(prev, j)))
  }

  function SatTable(c: CostFn, m: nat, n: nat): (table: seq<seq<real>>)
    ensures |table| == n && IsTable(table, m)
  {
    if n == 0 then []
    else
      var shorter := SatTable(c, m, n - 1);
      shorter + [if n == 1 then FirstRow(c, m) else NextSatRow(c, n - 1, shorter[n - 2])]
  }

  /** The recurrence of the saturating table, read off the table. */
  ghost predicate IsSatTable(c: CostFn, table: seq<seq<real>>, m: nat) {
    && m > 0 && IsTable(table, m)
    && (|table| > 0 ==> forall j | 0 <= j < m :: table[0][j] == c(0, j))
    && forall t, j | 0 < t < |table| && 0 <= j < m :: SatObeys(c, table, m, t, j)
  }

  ghost predicate SatObeys(c: CostFn, table: seq<seq<real>>, m: nat, t: int, j: int)
    requires 0 < t < |table| && 0 <= j < m && IsTable(table, m)
  {
    table[t][j] == SaturatingSum(c(t, j), NearMin(table[t-1], j))
  }

  lemma ExtendSatTable(c: CostFn, table: seq<seq<real>>, m: nat, row: seq<real>)
    requires IsSatTable(c, table, m) && |row| == m
    requires forall j | 0 <= j < m ::
               row[j] == if table == [] then c(0, j) else SaturatingSum(c(|table|, j), NearMin(table[|table|-1], j))
    ensures IsSatTable(c, table + [row], m)
  {
    var longer := table + [row];
    forall t, j | 0 < t < |longer| && 0 <= j < m
      ensures SatObeys(c, longer, m, t, j)
    {
      if t < |table| {
        assert SatObeys(c, table, m, t, j);
        assert longer[t] == table[t] && longer[t-1] == table[t-1];
      } else {
        assert longer[t] == row && longer[t-1] == table[t-1];
      }
    }
  }

  lemma {:induction false} SatTableIsSatTable(c: CostFn, m: nat, n: nat)
    requires m > 0
    ensures IsSatTable(c, SatTable(c, m, n), m)
  {
    if n > 0 {
      var shorter := SatTable(c, m, n - 1);
      SatTableIsSatTable(c, m, n - 1);
      var row := if n == 1 then FirstRow(c, m) else NextSatRow(c, n - 1, shorter[n - 2]);
      assert SatTable(c, m, n) == shorter + [row];
      ExtendSatTable(c, shorter, m, row);
    }
  }

  /** Below the bound the two rows hold the same costs; elsewhere neither is below it. */
  ghost predicate AgreeBelow(row: seq<real>, sat: seq<real>, bound: real) {
    |row| == |sat| && forall j | 0 <= j < |row| :: if row[j] < bound then sat[j] == row[j] else sat[j] >= bound
  }

  ghost predicate NonNegative(c: CostFn, m: nat, n: nat) {
    forall t, j | 0 <= t < n && 0 <= j < m :: c(t, j) >= 0.0
  }

  /** Every pixel either costs at most MAX_ENERGY or carries the penalty. */
  ghost predicate Graded(c: CostFn, m: nat, n: nat) {
    forall t, j | 0 <= t < n && 0 <= j < m :: 0.0 <= c(t, j) <= MAX_ENERGY || c(t, j) == PENALTY
  }

  /** Rows that agree below a bound have the same preferred cheapest entry, if one is below it. */
  lemma {:induction false} ArgBestAgrees(row: seq<real>, sat: seq<real>, bound: real, lo: int, hi: int, right: bool,
                                         i: int)
    requires AgreeBelow(row, sat, bound) && 0 <= lo <= i <= hi < |row| && row[i] < bound
    ensures ArgBest(sat, lo, hi, right) == ArgBest(row, lo, hi, right)
    ensures row[ArgBest(row, lo, hi, right)] < bound
  {
    var k, k' := ArgBest(sat, lo, hi, right), ArgBest(row, lo, hi, right);
    assert row[k'] <= row[i];
    assert sat[k] <= sat[k'] == row[k'];
    assert row[k] == sat[k];
  }

  lemma NearMinAgrees(row: seq<real>, sat: seq<real>, bound: real, j: int)
    requires AgreeBelow(row, sat, bound) && 0 <= j < |row|
    ensures if NearMin(row, j) < bound then NearMin(sat, j) == NearMin(row, j) else NearMin(sat, j) >= bound
  {
    var k := ArgBest(row, Lo(j), Hi(j, |row|), false);
    if row[k] < bound {
      ArgBestAgrees(row, sat, bound, Lo(j), Hi(j, |row|), false, k);
    } else {
      var k' := ArgBest(sat, Lo(j), Hi(j, |row|), false);
      assert row[k'] >= row[k];
    }
  }

  lemma SumAgrees(ev: real, prev: real, satPrev: real)
    requires ev >= 0.0 && prev >= 0.0
    requires if prev < LIMIT then satPrev == prev else satPrev >= LIMIT
    ensures if ev + prev < LIMIT then SaturatingSum(ev, satPrev) == ev + prev else SaturatingSum(ev, satPrev) >= LIMIT
  {
  }

  /** The exact table and the saturating table of the same strip. */
  ghost predicate Tables(c: CostFn, exact: seq<seq<real>>, sat: seq<seq<real>>, m: nat) {
    |exact| == |sat| && IsDpTable(c, exact, m) && IsSatTable(c, sat, m)
  }

  lemma {:induction false} TableNonNegative(c: CostFn, exact: seq<seq<real>>, m: nat, t: nat)
    requires IsDpTable(c, exact, m) && NonNegative(c, m, |exact|) && t < |exact|
    ensures forall j | 0 <= j < m :: exact[t][j] >= 0.0
  {
    forall j | 0 <= j < m
      ensures exact[t][j] >= 0.0
    {
      assert c(t, j) >= 0.0;
      if t > 0 {
        TableNonNegative(c, exact, m, t - 1);
        assert Obeys(c, exact, m, t, j);
      }
    }
  }

  /** The saturating table is exact wherever the exact cost is below LIMIT. */
  lemma {:induction false} SaturationAgreesBelowLimit(c: CostFn, exact: seq<seq<real>>, sat: seq<seq<real>>, m: nat,
                                                      t: nat)
    requires Tables(c, exact, sat, m) && NonNegative(c, m, |exact|) && t < |exact|
    ensures AgreeBelow(exact[t], sat[t], LIMIT)
  {
    forall j | 0 <= j < m
      ensures if exact[t][j] < LIMIT then sat[t][j] == exact[t][j] else sat[t][j] >= LIMIT
    {
      if t > 0 {
        SaturationAgreesBelowLimit(c, exact, sat, m, t - 1);
        TableNonNegative(c, exact, m, t - 1);
        NearMinAgrees(exact[t-1], sat[t-1], LIMIT, j);
        assert c(t, j) >= 0.0;
        assert Obeys(c, exact, m, t, j) && SatObeys(c, sat, m, t, j);
        SumAgrees(c(t, j), NearMin(exact[t-1], j), NearMin(sat[t-1], j));
      }
    }
  }

  /** A row whose entries are sums of at most `rows` ordinary energies, or carry the penalty. */
  ghost predicate GradedRow(row: seq<real>, rows: nat) {
    forall j | 0 <= j < |row| :: 0.0 <= row[j] <= MAX_ENERGY * rows as real || row[j] >= PENALTY
  }

  lemma GradedSumAgrees(ev: real, prev: real, satPrev: real, t: nat)
    requires 0 < t <= 512
    requires 0.0 <= ev <= MAX_ENERGY || ev == PENALTY
    requires 0.0 <= prev <= MAX_ENERGY * t as real || prev >= PENALTY
    requires if prev < PENALTY then satPrev == prev else satPrev >= PENALTY
    ensures if ev + prev < PENALTY then SaturatingSum(ev, satPrev) == ev + prev
            else SaturatingSum(ev, satPrev) >= PENALTY
    ensures 0.0 <= ev + prev <= MAX_ENERGY * (t + 1) as real || ev + prev >= PENALTY
  {
  }

  /** Up to 513 rows the table is exact for every seam that carries no penalty,
      even though a sum of 513 energies may exceed LIMIT. */
  lemma {:induction false} SaturationAgreesForShortImages(c: CostFn, exact: seq<seq<real>>, sat: seq<seq<real>>,
                                                          m: nat, t: nat)
    requires Tables(c, exact, sat, m) && Graded(c, m, |exact|) && t < |exact| && t <= 512
    ensures AgreeBelow(exact[t], sat[t], PENALTY) && GradedRow(exact[t], t + 1)
  {
    forall j | 0 <= j < m
      ensures if exact[t][j] < PENALTY then sat[t][j] == exact[t][j] else sat[t][j] >= PENALTY
      ensures 0.0 <= exact[t][j] <= MAX_ENERGY * (t + 1) as real || exact[t][j] >= PENALTY
    {
      assert 0.0 <= c(t, j) <= MAX_ENERGY || c(t, j) == PENALTY;
      if t > 0 {
        SaturationAgreesForShortImages(c, exact, sat, m, t - 1);
        NearMinAgrees(exact[t-1], sat[t-1], PENALTY, j);
        assert Obeys(c, exact, m, t, j) && SatObeys(c, sat, m, t, j);
        GradedSumAgrees(c(t, j), NearMin(exact[t-1], j), NearMin(sat[t-1], j), t);
      }
    }
  }

  ghost predicate AllAgreeBelow(exact: seq<seq<real>>, sat: seq<seq<real>>, bound: real) {
    |exact| == |sat| && forall t | 0 <= t < |exact| :: AgreeBelow(exact[t], sat[t], bound)
  }

  /** Below the bound, an entry's preferred cheapest neighbour is the same in both tables, and below the bound. */
  lemma {:induction false} PredecessorAgrees(c: CostFn, exact: seq<seq<real>>, sat: seq<seq<real>>, m: nat, t: nat,
                                             j: int, right: bool, bound: real)
    requires Tables(c, exact, sat, m) && NonNegative(c, m, |exact|) && AllAgreeBelow(exact, sat, bound)
    requires t + 1 < |exact| && 0 <= j < m && exact[t+1][j] < bound
    ensures var k := ArgBest(exact[t], Lo(j), Hi(j, m), right);
            k == ArgBest(sat[t], Lo(j), Hi(j, m), right) && exact[t][k] < bound
  {
    assert Obeys(c, exact, m, t + 1, j) && c(t + 1, j) >= 0.0;
    assert AgreeBelow(exact[t], sat[t], bound);
    ArgBestAgrees(exact[t], sat[t], bound, Lo(j), Hi(j, m), right, ArgBest(exact[t], Lo(j), Hi(j, m), false));
  }

  /** If some entry of the last row is below the bound, both tables are traced back along the same seam. */
  lemma {:induction false} TracebacksAgreeAt(c: CostFn, exact: seq<seq<real>>, sat: seq<seq<real>>, m: nat,
                                             right: bool, bound: real,
                                             p: seq<int>, q: seq<int>, i: int, t: nat)
    requires Tables(c, exact, sat, m) && NonNegative(c, m, |exact|) && AllAgreeBelow(exact, sat, bound)
    requires IsTraceback(exact, m, right, p) && IsTraceback(sat, m, right, q)
    requires 0 <= i < m && exact[|exact|-1][i] < bound && t < |exact|
    ensures p[t] == q[t] && exact[t][p[t]] < bound
    decreases |exact| - t
  {
    if t + 1 == |exact| {
      assert AgreeBelow(exact[t], sat[t], bound);
      ArgBestAgrees(exact[t], sat[t], bound, 0, m - 1, right, i);
    } else {
      TracebacksAgreeAt(c, exact, sat, m, right, bound, p, q, i, t + 1);
      PredecessorAgrees(c, exact, sat, m, t, p[t+1], right, bound);
      assert Follows(exact, m, right, p, t) && Follows(sat, m, right, q, t);
    }
  }

  lemma TracebacksAgree(c: CostFn, exact: seq<seq<real>>, sat: seq<seq<real>>, m: nat, right: bool, bound: real,
                        p: seq<int>, q: seq<int>, i: int)
    requires Tables(c, exact, sat, m) && NonNegative(c, m, |exact|) && AllAgreeBelow(exact, sat, bound)
    requires IsTraceback(exact, m, right, p) && IsTraceback(sat, m, right, q)
    requires 0 <= i < m && exact[|exact|-1][i] < bound
    ensures p == q
  {
    forall t | 0 <= t < |exact|
      ensures p[t] == q[t]
    {
      TracebacksAgreeAt(c, exact, sat, m, right, bound, p, q, i, t);
    }
  }

  /** p, counted from xMin, is what the finder's traceback through its saturating table yields. */
  ghost predicate IsSatSeam(c: CostFn, m: nat, n: nat, right: bool, p: seq<int>) {
    exists sat :: IsSatTraceback(c, m, n, right, p, sat)
  }

  ghost predicate IsSatTraceback(c: CostFn, m: nat, n: nat, right: bool, p: seq<int>, sat: seq<seq<real>>) {
    |sat| == n && IsSatTable(c, sat, m) && IsTraceback(sat, m, right, p)
  }

  /** There is such a seam, and only one. */
  lemma SatSeamExists(c: CostFn, m: nat, n: nat, right: bool) returns (p: seq<int>)
    requires m > 0 && n > 0
    ensures IsSatSeam(c, m, n, right, p)
  {
    var sat := SatTable(c, m, n);
    p := BestTrace(sat, m, right);
    SatTableIsSatTable(c, m, n);
    BestTraceIsTraceback(sat, m, right);
    assert IsSatTraceback(c, m, n, right, p, sat);
  }

  lemma {:induction false} SatTableIsUnique(c: CostFn, m: nat, table: seq<seq<real>>, other: seq<seq<real>>, t: nat)
    requires IsSatTable(c, table, m) && IsSatTable(c, other, m) && t < |table| == |other|
    ensures table[t] == other[t]
  {
    if t > 0 {
      SatTableIsUnique(c, m, table, other, t - 1);
    }
    forall j | 0 <= j < m
      ensures table[t][j] == other[t][j]
    {
      if t > 0 {
        assert SatObeys(c, table, m, t, j) && SatObeys(c, other, m, t, j);
      }
    }
  }

  lemma SatSeamIsUnique(c: CostFn, m: nat, n: nat, right: bool, p: seq<int>, q: seq<int>)
    requires IsSatSeam(c, m, n, right, p) && IsSatSeam(c, m, n, right, q)
    ensures p == q
  {
    var sat :| IsSatTraceback(c, m, n, right, p, sat);
    var other :| IsSatTraceback(c, m, n, right, q, other);
    forall t | 0 <= t < n
      ensures sat[t] == other[t]
    {
      SatTableIsUnique(c, m, sat, other, t);
    }
    assert sat == other;
    forall t | 0 <= t < n
      ensures p[t] == q[t]
    {
      TracebackIsUnique(sat, m, right, p, q, t);
    }
  }

  /** A seam cheaper than the penalty never meets a penalised pixel. */
  lemma {:induction false} CheapSeamAvoidsPenalty(c: CostFn, m: nat, p: seq<int>, t: nat)
    requires IsSeam(p, |p|, m) && NonNegative(c, m, |p|) && t <= |p|
    ensures CostUpTo(c, p, t) >= 0.0
    ensures forall i | 0 <= i < t :: c(i, p[i]) <= CostUpTo(c, p, t)
  {
    if t > 0 {
      CheapSeamAvoidsPenalty(c, m, p, t - 1);
      assert c(t - 1, p[t - 1]) >= 0.0;
    }
  }

  // ---- images ----

  ghost predicate ColumnCovered(a: Grid<Rgba>, b: Grid<Rgba>, x: int) {
    exists y :: InOverlap(a, b, x, y)
  }

  method AnyOverlapInColumn(a: Grid<Rgba>, b: Grid<Rgba>, x: nat) returns (any: bool)
    requires a.w == b.w && a.h == b.h && x < a.w
    ensures any <==> ColumnCovered(a, b, x)
  {
    var y := 0;
    while y < a.h
      invariant 0 <= y <= a.h
      invariant forall v | 0 <= v < y :: !InOverlap(a, b, x, v)
    {
      if a.At(x, y).a > 0 && b.At(x, y).a > 0 {
        assert InOverlap(a, b, x, y);
        return true;
      }
      y := y + 1;
    }
    any := false;
  }

  /** The first and last covered columns; (w, 0) when there is none. */
  method OverlapZone(a: Grid<Rgba>, b: Grid<Rgba>) returns (xMin: nat, xMax: nat)
    requires a.w == b.w && a.h == b.h
    ensures IsZone(a, b, xMin, xMax)
  {
    xMin, xMax := a.w, 0;
    var x := 0;
    while x < a.w
      invariant 0 <= x <= a.w
      invariant (xMin == a.w && xMax == 0 && forall u | 0 <= u < x :: !ColumnCovered(a, b, u))
             || (0 <= xMin <= xMax < x && ColumnCovered(a, b, xMin) && ColumnCovered(a, b, xMax)
                 && forall u | 0 <= u < x && ColumnCovered(a, b, u) :: xMin <= u <= xMax)
    {
      var any := AnyOverlapInColumn(a, b, x);
      if any {
        if x < xMin { xMin := x; }
        if x > xMax { xMax := x; }
      }
      x := x + 1;
    }
  }

  ghost predicate IsZone(a: Grid<Rgba>, b: Grid<Rgba>, xMin: int, xMax: int) {
    || (xMin == a.w && xMax == 0 && forall x | 0 <= x < a.w :: !ColumnCovered(a, b, x))
    || (0 <= xMin <= xMax < a.w && ColumnCovered(a, b, xMin) && ColumnCovered(a, b, xMax)
        && forall x | 0 <= x < a.w && ColumnCovered(a, b, x) :: xMin <= x <= xMax)
  }

  /** Sum of the columns, and number, of the visible pixels in the first `rows` rows of column x. */
  function ColumnMoments(g: Grid<Rgba>, x: nat, rows: nat): (r: (nat, nat))
    requires x < g.w && rows <= g.h
  {
    if rows == 0 then (0, 0)
    else
      var r := ColumnMoments(g, x, rows - 1);
      if g.At(x, rows - 1).a > 0 then (r.0 + x, r.1 + 1) else r
  }

  /** The same over the first `cols` columns. */
  function Moments(g: Grid<Rgba>, cols: nat): (r: (nat, nat))
    requires cols <= g.w
  {
    if cols == 0 then (0, 0)
    else
      var r, c := Moments(g, cols - 1), ColumnMoments(g, cols - 1, g.h);
      (r.0 + c.0, r.1 + c.1)
  }

  method ComputeMoments(g: Grid<Rgba>) returns (sum: nat, count: nat)
    ensures (sum, count) == Moments(g, g.w)
  {
    sum, count := 0, 0;
    var x := 0;
    while x < g.w
      invariant 0 <= x <= g.w && (sum, count) == Moments(g, x)
    {
      var y := 0;
      ghost var before := Moments(g, x);
      while y < g.h
        invariant 0 <= y <= g.h
        invariant sum == before.0 + ColumnMoments(g, x, y).0 && count == before.1 + ColumnMoments(g, x, y).1
      {
        if g.At(x, y).a > 0 {
          sum, count := sum + x, count + 1;
        }
        y := y + 1;
      }
      x := x + 1;
    }
  }

  /** Both images show something, and b's visible pixels lie further right on average. */
  ghost predicate CentroidIsRight(a: Grid<Rgba>, b: Grid<Rgba>) {
    var (sa, na), (sb, nb) := Moments(a, a.w), Moments(b, b.w);
    na > 0 && nb > 0 && (sb as real) / (nb as real) > (sa as real) / (na as real)
  }

  lemma CrossMultiply(sa: nat, na: nat, sb: nat, nb: nat)
    requires na > 0 && nb > 0
    ensures sb * na > sa * nb <==> (sb as real) / (nb as real) > (sa as real) / (na as real)
  {
    var p, q := (sa as real) / (na as real), (sb as real) / (nb as real);
    var k := (na as real) * (nb as real);
    assert k > 0.0;
    assert p * (na as real) == sa as real && q * (nb as real) == sb as real;
    assert (sb * na) as real == (sb as real) * (na as real) == q * k;
    assert (sa * nb) as real == (sa as real) * (nb as real) == p * k;
    if q > p {
      assert (q - p) * k > 0.0;
    } else {
      assert (p - q) * k >= 0.0;
    }
  }

  method CompareCentroids(a: Grid<Rgba>, b: Grid<Rgba>) returns (bRight: bool)
    ensures bRight == CentroidIsRight(a, b)
  {
    var as_, ac := ComputeMoments(a);
    var bs_, bc := ComputeMoments(b);
    bRight := ac > 0 && bc > 0 && bs_ * ac > as_ * bc;
    if ac > 0 && bc > 0 { CrossMultiply(as_, ac, bs_, bc); }
  }

  ghost predicate ColumnShows(g: Grid<Rgba>, x: int, rows: nat) {
    exists y :: 0 <= y < rows && g.Has(x, y) && g.At(x, y).a > 0
  }

  /** Something of the image is visible. */
  ghost predicate Shows(g: Grid<Rgba>) { exists x, y :: g.Has(x, y) && g.At(x, y).a > 0 }

  /** All that is visible of the first `cols` columns is in columns lo to hi. */
  ghost predicate ShowsWithin(g: Grid<Rgba>, cols: nat, lo: int, hi: int) {
    forall x, y | 0 <= x < cols && g.Has(x, y) && g.At(x, y).a > 0 :: lo <= x <= hi
  }

  /** A column's visible pixels each count with its number. */
  lemma {:induction false} ColumnMomentsAre(g: Grid<Rgba>, x: nat, rows: nat)
    requires x < g.w && rows <= g.h
    ensures ColumnMoments(g, x, rows).0 == x * ColumnMoments(g, x, rows).1
  {
    if rows > 0 {
      ColumnMomentsAre(g, x, rows - 1);
      NextTimes(x, ColumnMoments(g, x, rows - 1).1);
    }
  }

  lemma NextTimes(x: nat, n: nat)
    ensures x * (n + 1) == x * n + x
  {
  }

  lemma {:induction false} ColumnCountsIff(g: Grid<Rgba>, x: nat, rows: nat)
    requires x < g.w && rows <= g.h
    ensures ColumnMoments(g, x, rows).1 > 0 <==> ColumnShows(g, x, rows)
  {
    if rows > 0 {
      ColumnCountsIff(g, x, rows - 1);
      assert g.Has(x, rows - 1);
    }
  }

  /** Visible pixels that all lie in columns lo to hi have their mean there. */
  lemma {:induction false} MomentsBetween(g: Grid<Rgba>, cols: nat, lo: nat, hi: nat)
    requires cols <= g.w && ShowsWithin(g, cols, lo, hi)
    ensures lo * Moments(g, cols).1 <= Moments(g, cols).0 <= hi * Moments(g, cols).1
  {
    if cols > 0 {
      var x := cols - 1;
      MomentsBetween(g, x, lo, hi);
      ColumnMomentsAre(g, x, g.h);
      ColumnCountsIff(g, x, g.h);
      SumBetween(lo, hi, Moments(g, x).0, Moments(g, x).1, x, ColumnMoments(g, x, g.h).1);
    }
  }

  lemma SumBetween(lo: nat, hi: nat, s: nat, n: nat, x: nat, k: nat)
    requires lo * n <= s <= hi * n && (k > 0 ==> lo <= x <= hi)
    ensures lo * (n + k) <= s + x * k <= hi * (n + k)
  {
    if k > 0 { ColumnBetween(lo, x, hi, k); }
    assert lo * (n + k) == lo * n + lo * k && hi * (n + k) == hi * n + hi * k;
  }

  /** What is visible is counted. */
  lemma {:induction false} VisibleCounts(g: Grid<Rgba>, cols: nat, x: nat, y: nat)
    requires x < cols <= g.w && y < g.h && g.At(x, y).a > 0
    ensures Moments(g, cols).1 > 0
  {
    if x < cols - 1 {
      VisibleCounts(g, cols - 1, x, y);
    } else {
      ColumnCountsIff(g, x, g.h);
      assert g.Has(x, y);
    }
  }

  lemma ColumnBetween(lo: nat, x: nat, hi: nat, k: nat)
    requires lo <= x <= hi
    ensures lo * k <= x * k <= hi * k
  {
    assert (x - lo) * k >= 0 && (hi - x) * k >= 0;
  }

  /** Of two images with something to show, the one all of whose visible pixels lie further right has the centroid
      further right. */
  lemma CentroidsFollowTheImages(a: Grid<Rgba>, b: Grid<Rgba>, c: nat)
    requires Shows(a) && Shows(b) && ShowsWithin(a, a.w, 0, c) && ShowsWithin(b, b.w, c + 1, b.w + c)
    ensures CentroidIsRight(a, b) && !CentroidIsRight(b, a)
  {
    var (sa, na) := Moments(a, a.w);
    var (sb, nb) := Moments(b, b.w);
    MomentsBetween(a, a.w, 0, c);
    MomentsBetween(b, b.w, c + 1, b.w + c);
    var x, y :| a.Has(x, y) && a.At(x, y).a > 0;
    VisibleCounts(a, a.w, x, y);
    var u, v :| b.Has(u, v) && b.At(u, v).a > 0;
    VisibleCounts(b, b.w, u, v);
    Further(sa, na, sb, nb, c);
    CrossMultiply(sa, na, sb, nb);
    CrossMultiply(sb, nb, sa, na);
  }

  lemma Further(sa: nat, na: nat, sb: nat, nb: nat, c: nat)
    requires na > 0 && nb > 0 && sa <= c * na && (c + 1) * nb <= sb
    ensures sa * nb < sb * na
  {
    ColumnBetween(sa, sa, c * na, nb);
    ColumnBetween((c + 1) * nb, sb, sb, na);
    assert c * na * nb + na * nb == (c + 1) * nb * na;
    assert na * nb > 0;
  }

  /** Mask value 1 keeps a's pixel, 0 keeps b's: a keeps the side its own centroid is on, seam included. */
  function MaskValue(seam: seq<int>, right: bool, x: int, y: int): real
    requires 0 <= y < |seam|
  {
    if right then (if x <= seam[y] then 1.0 else 0.0)
    else (if x >= seam[y] then 1.0 else 0.0)
  }

  /** The zone is at least 3 columns wide and at most half of the canvas. */
  predicate Eligible(w: nat, xMin: int, xMax: int) {
    xMax >= xMin + 2 && (xMax - xMin + 1) * 2 <= w
  }

  ghost predicate Shifted(seam: seq<int>, p: seq<int>, xMin: int) {
    |seam| == |p| && forall y | 0 <= y < |p| :: seam[y] == xMin + p[y]
  }

  method FillSaturating(a: Grid<Rgba>, b: Grid<Rgba>, xMin: nat, cols: nat, ghost c: CostFn,
                        ghost table: seq<seq<real>>)
    returns (dp: array2<real>)
    requires a.w == b.w && a.h == b.h && cols > 0 && xMin + cols <= a.w && a.h > 0
    requires forall y, cx | 0 <= y < a.h && 0 <= cx < cols :: c(y, cx) == PixelEnergy(a, b, xMin + cx, y)
    requires |table| == a.h && IsSatTable(c, table, cols)
    ensures fresh(dp) && dp.Length0 == a.h && dp.Length1 == cols
    ensures forall y, x | 0 <= y < a.h && 0 <= x < cols :: dp[y, x] == table[y][x]
  {
    dp := new real[a.h, cols]((_, _) => 0.0);
    var cx := 0;
    while cx < cols
      invariant 0 <= cx <= cols
      invariant forall u | 0 <= u < cx :: dp[0, u] == table[0][u]
    {
      dp[0, cx] := PixelEnergy(a, b, xMin + cx, 0);
      assert c(0, cx) == PixelEnergy(a, b, xMin + cx, 0);
      cx := cx + 1;
    }
    var y := 1;
    while y < a.h
      invariant 1 <= y <= a.h
      invariant forall v, u | 0 <= v < y && 0 <= u < cols :: dp[v, u] == table[v][u]
    {
      FillSaturatingRow(a, b, xMin, y, dp, c, table);
      y := y + 1;
    }
  }

  /** One row of the table, from the row above. */
  method FillSaturatingRow(a: Grid<Rgba>, b: Grid<Rgba>, xMin: nat, y: nat, dp: array2<real>, ghost c: CostFn,
                           ghost table: seq<seq<real>>)
    requires dp.Length1 > 0 && 0 < y < dp.Length0 == |table|
    requires forall cx | 0 <= cx < dp.Length1 :: c(y, cx) == PixelEnergy(a, b, xMin + cx, y)
    requires IsSatTable(c, table, dp.Length1)
    requires forall v, u | 0 <= v < y && 0 <= u < dp.Length1 :: dp[v, u] == table[v][u]
    modifies dp
    ensures forall v, u | 0 <= v <= y && 0 <= u < dp.Length1 :: dp[v, u] == table[v][u]
  {
    var cols := dp.Length1;
    var cx := 0;
    while cx < cols
      invariant 0 <= cx <= cols
      invariant forall v, u | 0 <= v < y && 0 <= u < cols :: dp[v, u] == table[v][u]
      invariant forall u | 0 <= u < cx :: dp[y, u] == table[y][u]
    {
      var ev := PixelEnergy(a, b, xMin + cx, y);
      assert c(y, cx) == ev;
      var p := y - 1;
      var prev := dp[p, cx];
      if cx > 0 && dp[p, cx - 1] < prev { prev := dp[p, cx - 1]; }
      if cx + 1 < cols && dp[p, cx + 1] < prev { prev := dp[p, cx + 1]; }
      NearMinIs(table[p], cx, prev);
      assert SatObeys(c, table, cols, y, cx);
      dp[y, cx] := if ev < LIMIT && prev < LIMIT then ev + prev else PENALTY;
      cx := cx + 1;
    }
  }

  method TraceSaturating(dp: array2<real>, right: bool, xMin: nat, ghost table: seq<seq<real>>, ghost goal: seq<int>)
    returns (result: seq<int>)
    requires dp.Length0 == |table| && IsTraceback(table, dp.Length1, right, goal)
    requires forall y, x | 0 <= y < dp.Length0 && 0 <= x < dp.Length1 :: dp[y, x] == table[y][x]
    ensures Shifted(result, goal, xMin)
  {
    var h, cols := dp.Length0, dp.Length1;
    var seam := new int[h];
    var last := h - 1;
    var cx := MinInRow(dp, last, 0, cols - 1, right, table[last]);
    seam[last] := xMin + cx;
    var y := last;
    while y > 0
      invariant 0 <= y <= last
      invariant 0 <= cx < cols && cx == goal[y]
      invariant forall v | y <= v <= last :: seam[v] == xMin + goal[v]
    {
      y := y - 1;
      assert Follows(table, cols, right, goal, y);
      cx := MinInRow(dp, y, Lo(cx), Hi(cx, cols), right, table[y]);
      seam[y] := xMin + cx;
    }
    result := seam[..];
  }

  /** The seam the finder settles on, as columns counted from xMin. */
  ghost predicate IsFinderSeam(a: Grid<Rgba>, b: Grid<Rgba>, xMin: int, xMax: int, right: bool, p: seq<int>) {
    xMin <= xMax && IsSatSeam(Energy(a, b, xMin), xMax - xMin + 1, a.h, right, p)
  }

  /** The table and traceback that the two loops below produce. */
  lemma SearchPlan(a: Grid<Rgba>, b: Grid<Rgba>, xMin: nat, xMax: nat, right: bool)
    returns (c: CostFn, table: seq<seq<real>>, goal: seq<int>)
    requires xMin <= xMax && a.h > 0
    ensures forall y, cx | 0 <= y < a.h && 0 <= cx <= xMax - xMin :: c(y, cx) == PixelEnergy(a, b, xMin + cx, y)
    ensures |table| == a.h && IsSatTable(c, table, xMax - xMin + 1)
    ensures IsTraceback(table, xMax - xMin + 1, right, goal)
    ensures IsFinderSeam(a, b, xMin, xMax, right, goal)
  {
    c := Energy(a, b, xMin);
    goal := SatSeamExists(c, xMax - xMin + 1, a.h, right);
    table :| IsSatTraceback(c, xMax - xMin + 1, a.h, right, goal, table);
  }

  /** Table and traceback over the columns xMin .. xMax. */
  method FindSeam(a: Grid<Rgba>, b: Grid<Rgba>, xMin: nat, xMax: nat, right: bool)
    returns (seam: seq<int>, ghost p: seq<int>)
    requires a.w == b.w && a.h == b.h && xMin <= xMax < a.w && a.h > 0
    ensures IsFinderSeam(a, b, xMin, xMax, right, p) && Shifted(seam, p, xMin) && |seam| == a.h
  {
    ghost var c, table, goal := SearchPlan(a, b, xMin, xMax, right);
    var dp := FillSaturating(a, b, xMin, xMax - xMin + 1, c, table);
    seam := TraceSaturating(dp, right, xMin, table, goal);
    p := goal;
  }

  /** One row of the mask per step of the seam. */
  method FillMask(w: nat, seam: seq<int>, bRight: bool) returns (mask: Grid<real>)
    ensures mask.w == w && mask.h == |seam|
    ensures forall x, y | mask.Has(x, y) :: mask.At(x, y) == MaskValue(seam, bRight, x, y)
  {
    var msk := new real[|seam|, w]((_, _) => 0.0);
    var y := 0;
    while y < |seam|
      invariant 0 <= y <= |seam|
      invariant forall v, u | 0 <= v < y && 0 <= u < w :: msk[v, u] == MaskValue(seam, bRight, u, v)
    {
      var sx := seam[y];
      var x := 0;
      while x < w
        invariant 0 <= x <= w
        invariant forall v, u | 0 <= v < y && 0 <= u < w :: msk[v, u] == MaskValue(seam, bRight, u, v)
        invariant forall u | 0 <= u < x :: msk[y, u] == MaskValue(seam, bRight, u, y)
      {
        msk[y, x] := if bRight then (if x <= sx then 1.0 else 0.0) else (if x >= sx then 1.0 else 0.0);
        x := x + 1;
      }
      y := y + 1;
    }
    mask := Freeze(msk);
  }

  /** The mask splits every row of the canvas at the seam p, counted from xMin. */
  ghost predicate SplitsAt(mask: Grid<real>, w: nat, xMin: int, right: bool, p: seq<int>) {
    && mask.w == w && mask.h == |p|
    && exists seam :: Shifted(seam, p, xMin) && forall x, y | mask.Has(x, y) ::
         mask.At(x, y) == MaskValue(seam, right, x, y)
  }

  /** No mask unless the sizes match and the overlap is wide enough but not too wide; otherwise one split at the
      finder's seam. */
  ghost predicate IsSeamMask(a: Grid<Rgba>, b: Grid<Rgba>, mask: Option<Grid<real>>) {
    if a.w != b.w || a.h != b.h then mask.None?
    else exists xMin: nat, xMax: nat, p :: IsSeamMaskIn(a, b, mask, xMin, xMax, p)
  }

  ghost predicate IsSeamMaskIn(a: Grid<Rgba>, b: Grid<Rgba>, mask: Option<Grid<real>>, xMin: nat, xMax: nat,
                               p: seq<int>) {
    && IsZone(a, b, xMin, xMax)
    && (mask.Some? <==> Eligible(a.w, xMin, xMax))
    && (mask.Some? ==>
          && IsFinderSeam(a, b, xMin, xMax, CentroidIsRight(a, b), p)
          && SplitsAt(mask.value, a.w, xMin, CentroidIsRight(a, b), p))
  }

  method TryGraphcutSeam(a: Grid<Rgba>, b: Grid<Rgba>) returns (mask: Option<Grid<real>>)
    ensures IsSeamMask(a, b, mask)
  {
    if a.w != b.w || a.h != b.h { return None; }
    var xMin, xMax := OverlapZone(a, b);
    if xMax < xMin + 2 {
      assert IsSeamMaskIn(a, b, None, xMin, xMax, []);
      return None;
    }
    var cols := xMax - xMin + 1;
    if cols * 2 > a.w {
      assert IsSeamMaskIn(a, b, None, xMin, xMax, []);
      return None;
    }
    ZoneHasRows(a, b, xMin, xMax);
    var bRight := CompareCentroids(a, b);
    var seam;
    ghost var p;
    seam, p := FindSeam(a, b, xMin, xMax, bRight);
    var msk := FillMask(a.w, seam, bRight);
    assert SplitsAt(msk, a.w, xMin, bRight, p);
    mask := Some(msk);
    assert IsSeamMaskIn(a, b, mask, xMin, xMax, p);
  }

  // ---- what the seam means ----

  lemma EnergyIsGraded(a: Grid<Rgba>, b: Grid<Rgba>, xMin: int, m: nat, n: nat)
    ensures Graded(Energy(a, b, xMin), m, n) && NonNegative(Energy(a, b, xMin), m, n)
  {
    var c := Energy(a, b, xMin);
    forall y, cx | 0 <= y < n && 0 <= cx < m
      ensures 0.0 <= c(y, cx) <= MAX_ENERGY || c(y, cx) == PENALTY
    {
      PixelEnergyBounds(a, b, xMin + cx, y);
    }
  }

  lemma PixelEnergyBounds(a: Grid<Rgba>, b: Grid<Rgba>, x: int, y: int)
    ensures if InOverlap(a, b, x, y) then 0.0 <= PixelEnergy(a, b, x, y) <= MAX_ENERGY
            else PixelEnergy(a, b, x, y) == PENALTY
  {
    if InOverlap(a, b, x, y) {
      var p, q := a.At(x, y), b.At(x, y);
      SquareBounds(p.r - q.r);
      SquareBounds(p.g - q.g);
      SquareBounds(p.b - q.b);
    }
  }

  lemma SquareBounds(d: int)
    requires -255 <= d <= 255
    ensures 0 <= d * d <= 65025
  {
  }

  /** A connected top-to-bottom seam through pixels where both images are visible. */
  ghost predicate InsideOverlap(a: Grid<Rgba>, b: Grid<Rgba>, xMin: int, m: nat, p: seq<int>) {
    && |p| == a.h && IsSeam(p, a.h, m)
    && forall y | 0 <= y < |p| :: InOverlap(a, b, xMin + p[y], y)
  }

  /** p is inside the overlap, costs no more than any seam, and lies at or beyond every other
      cheapest seam on the preferred side, row by row. */
  ghost predicate IsFinestSeam(a: Grid<Rgba>, b: Grid<Rgba>, xMin: int, m: nat, right: bool, p: seq<int>) {
    var c := Energy(a, b, xMin);
    && InsideOverlap(a, b, xMin, m, p)
    && (forall q | IsSeam(q, a.h, m) :: SeamCost(c, p) <= SeamCost(c, q))
    && (forall q | IsSeam(q, a.h, m) && SeamCost(c, q) == SeamCost(c, p) :: Preferred(p, q, right))
  }

  lemma TracebackIsFinest(a: Grid<Rgba>, b: Grid<Rgba>, xMin: int, m: nat, right: bool, c: CostFn,
                          exact: seq<seq<real>>, p: seq<int>, q: seq<int>)
    requires m > 0 && |exact| == a.h && c == Energy(a, b, xMin)
    requires IsDpTable(c, exact, m) && IsTraceback(exact, m, right, p)
    requires IsSeam(q, a.h, m) && SeamCost(c, q) < PENALTY
    ensures IsFinestSeam(a, b, xMin, m, right, p)
  {
    TracebackIsOptimal(c, exact, m, right, p);
    EnergyIsGraded(a, b, xMin, m, a.h);
    assert SeamCost(c, p) <= SeamCost(c, q);
    CheapSeamAvoidsPenalty(c, m, p, |p|);
    forall y | 0 <= y < |p|
      ensures InOverlap(a, b, xMin + p[y], y)
    {
      assert c(y, p[y]) < PENALTY;
      PixelEnergyBounds(a, b, xMin + p[y], y);
    }
    forall q' | IsSeam(q', a.h, m) && SeamCost(c, q') == SeamCost(c, p)
      ensures Preferred(p, q', right)
    {
      TracebackIsExtreme(c, exact, m, right, p, q');
    }
  }

  /** Whatever the height: once some seam costs less than 1e8, saturation changes nothing. */
  lemma SeamIsFinestBelowLimit(a: Grid<Rgba>, b: Grid<Rgba>, xMin: int, m: nat, right: bool, p: seq<int>, q: seq<int>)
    requires m > 0 && a.h > 0 && IsSatSeam(Energy(a, b, xMin), m, a.h, right, p)
    requires IsSeam(q, a.h, m) && SeamCost(Energy(a, b, xMin), q) < LIMIT
    ensures IsFinestSeam(a, b, xMin, m, right, p)
  {
    var c := Energy(a, b, xMin);
    EnergyIsGraded(a, b, xMin, m, a.h);
    var sat :| IsSatTraceback(c, m, a.h, right, p, sat);
    var exact, p' := TracebackExists(c, m, a.h, right);
    forall t | 0 <= t < |exact|
      ensures AgreeBelow(exact[t], sat[t], LIMIT)
    {
      SaturationAgreesBelowLimit(c, exact, sat, m, t);
    }
    TableIsLowerBound(c, exact, m, q, a.h - 1);
    TracebacksAgree(c, exact, sat, m, right, LIMIT, p', p, q[a.h-1]);
    TracebackIsFinest(a, b, xMin, m, right, c, exact, p, q);
  }

  /** The finder can tell from its own last row whether that is so. */
  lemma LastRowShowsTheLimit(c: CostFn, sat: seq<seq<real>>, m: nat, last: seq<real>)
    requires IsSatTable(c, sat, m) && |sat| > 0 && NonNegative(c, m, |sat|) && last == sat[|sat|-1]
    ensures (exists j | 0 <= j < m :: last[j] < LIMIT)
        <==> (exists q | IsSeam(q, |sat|, m) :: SeamCost(c, q) < LIMIT)
  {
    var n := |sat|;
    var exact, p := TracebackExists(c, m, n, false);
    SaturationAgreesBelowLimit(c, exact, sat, m, n - 1);
    if j :| 0 <= j < m && last[j] < LIMIT {
      TracebackCost(c, exact, m, false, p, n - 1);
      TracebackIsSeam(exact, m, false, p);
      assert IsSeam(p, n, m) && SeamCost(c, p) < LIMIT;
    }
    if q :| IsSeam(q, n, m) && SeamCost(c, q) < LIMIT {
      TableIsLowerBound(c, exact, m, q, n - 1);
      assert last[q[n-1]] < LIMIT;
    }
  }

  /** A seam inside the overlap of an image of at most 513 rows stays below the penalty. */
  lemma {:induction false} InsideOverlapIsCheap(c: CostFn, p: seq<int>, t: nat)
    requires t <= |p| && forall i | 0 <= i < |p| :: 0.0 <= c(i, p[i]) <= MAX_ENERGY
    ensures CostUpTo(c, p, t) <= MAX_ENERGY * t as real
  {
    if t > 0 {
      InsideOverlapIsCheap(c, p, t - 1);
    }
  }

  lemma InsideOverlapCost(a: Grid<Rgba>, b: Grid<Rgba>, xMin: int, m: nat, q: seq<int>)
    requires a.h <= 513 && InsideOverlap(a, b, xMin, m, q)
    ensures SeamCost(Energy(a, b, xMin), q) < PENALTY
  {
    var c := Energy(a, b, xMin);
    forall y | 0 <= y < |q|
      ensures 0.0 <= c(y, q[y]) <= MAX_ENERGY
    {
      PixelEnergyBounds(a, b, xMin + q[y], y);
    }
    InsideOverlapIsCheap(c, q, |q|);
  }

  /** Up to 513 rows, a seam inside the overlap is all it takes: the finder returns the finest one. */
  lemma SeamIsFinestForShortImages(a: Grid<Rgba>, b: Grid<Rgba>, xMin: int, m: nat, right: bool, p: seq<int>,
                                   q: seq<int>)
    requires m > 0 && 0 < a.h <= 513 && IsSatSeam(Energy(a, b, xMin), m, a.h, right, p)
    requires InsideOverlap(a, b, xMin, m, q)
    ensures IsFinestSeam(a, b, xMin, m, right, p)
  {
    var c := Energy(a, b, xMin);
    EnergyIsGraded(a, b, xMin, m, a.h);
    var sat :| IsSatTraceback(c, m, a.h, right, p, sat);
    var exact, p' := TracebackExists(c, m, a.h, right);
    forall t | 0 <= t < |exact|
      ensures AgreeBelow(exact[t], sat[t], PENALTY)
    {
      SaturationAgreesForShortImages(c, exact, sat, m, t);
    }
    InsideOverlapCost(a, b, xMin, m, q);
    TableIsLowerBound(c, exact, m, q, a.h - 1);
    TracebacksAgree(c, exact, sat, m, right, PENALTY, p', p, q[a.h-1]);
    TracebackIsFinest(a, b, xMin, m, right, c, exact, p, q);
  }

  lemma ZoneIsUnique(a: Grid<Rgba>, b: Grid<Rgba>, xMin: int, xMax: int, yMin: int, yMax: int)
    requires IsZone(a, b, xMin, xMax) && IsZone(a, b, yMin, yMax)
    ensures xMin == yMin && xMax == yMax
  {
  }

  /** From images to mask: where some seam runs inside the overlap and costs less than 1e8, or the images have at most
      513 rows, the mask splits them at the finest seam. */
  lemma MaskSplitsAtTheFinestSeam(a: Grid<Rgba>, b: Grid<Rgba>, mask: Option<Grid<real>>, xMin: int, xMax: int,
                                  q: seq<int>) returns (p: seq<int>)
    requires IsSeamMask(a, b, mask) && HasSeam(a, b, xMin, xMax, q)
    requires a.h <= 513 || SeamCost(Energy(a, b, xMin), q) < LIMIT
    ensures mask.Some? && IsFinestSeam(a, b, xMin, xMax - xMin + 1, CentroidIsRight(a, b), p)
    ensures SplitsAt(mask.value, a.w, xMin, CentroidIsRight(a, b), p)
  {
    var lo: nat, hi: nat, s :| IsSeamMaskIn(a, b, mask, lo, hi, s);
    ZoneIsUnique(a, b, xMin, xMax, lo, hi);
    ZoneHasRows(a, b, xMin, xMax);
    p := s;
    if a.h <= 513 {
      SeamIsFinestForShortImages(a, b, xMin, xMax - xMin + 1, CentroidIsRight(a, b), p, q);
    } else {
      SeamIsFinestBelowLimit(a, b, xMin, xMax - xMin + 1, CentroidIsRight(a, b), p, q);
    }
  }

  /** Two pixels are as far apart as their colour channels together, a channel as far as the square of its difference;
      how opaque they are does not count. */
  lemma DistanceByChannel(p: Rgba, q: Rgba, d: int)
    ensures SquaredDistance(p, q) == SquaredDistance(p, p.(r := q.r)) + SquaredDistance(p, p.(g := q.g))
                                   + SquaredDistance(p, p.(b := q.b))
    ensures q.r == p.r + d ==> SquaredDistance(p, p.(r := q.r)) == d * d
    ensures q.g == p.g + d ==> SquaredDistance(p, p.(g := q.g)) == d * d
    ensures q.b == p.b + d ==> SquaredDistance(p, p.(b := q.b)) == d * d
    ensures SquaredDistance(p, p.(a := q.a)) == 0
  {
  }

  ghost predicate SameColour(p: Rgba, q: Rgba) { p.r == q.r && p.g == q.g && p.b == q.b }

  /** In row y and column x of the zone both images are visible and show the same colour. */
  ghost predicate AgreeAt(a: Grid<Rgba>, b: Grid<Rgba>, xMin: int, x: int, y: int) {
    && a.Has(xMin + x, y) && b.Has(xMin + x, y) && a.At(xMin + x, y).a > 0 && b.At(xMin + x, y).a > 0
    && SameColour(a.At(xMin + x, y), b.At(xMin + x, y))
  }

  lemma FreeIffAgreed(a: Grid<Rgba>, b: Grid<Rgba>, xMin: int, x: int, y: int)
    ensures if AgreeAt(a, b, xMin, x, y) then PixelEnergy(a, b, xMin + x, y) == 0.0
            else PixelEnergy(a, b, xMin + x, y) > 0.0
  {
    if InOverlap(a, b, xMin + x, y) {
      var p, q := a.At(xMin + x, y), b.At(xMin + x, y);
      SquareBounds(p.r - q.r);
      SquareBounds(p.g - q.g);
      SquareBounds(p.b - q.b);
      if p.r != q.r { SquareIsPositive(p.r - q.r); }
      if p.g != q.g { SquareIsPositive(p.g - q.g); }
      if p.b != q.b { SquareIsPositive(p.b - q.b); }
    }
  }

  lemma SquareIsPositive(d: int)
    requires d != 0
    ensures d * d > 0
  {
  }

  /** At any height: where the images agree along one connected path through the zone and nowhere else in it, the path
      is the seam. */
  lemma SeamFollowsTheAgreement(a: Grid<Rgba>, b: Grid<Rgba>, xMin: int, m: nat, right: bool, p: seq<int>,
                                path: seq<int>)
    requires m > 0 && a.h > 0 && IsSatSeam(Energy(a, b, xMin), m, a.h, right, p) && IsSeam(path, a.h, m)
    requires forall x, y | 0 <= x < m && 0 <= y < a.h :: x == path[y] <==> AgreeAt(a, b, xMin, x, y)
    ensures p == path
  {
    var c := Energy(a, b, xMin);
    forall y, x | 0 <= y < a.h && 0 <= x < m
      ensures if x == path[y] then c(y, x) == 0.0 else c(y, x) > 0.0
    {
      FreeIffAgreed(a, b, xMin, x, y);
    }
    assert IsOnlyFreeSeam(c, m, a.h, path);
    FreeSeamCostsNothing(c, path, |path|);
    SeamIsFinestBelowLimit(a, b, xMin, m, right, p, path);
    OnlyFreeSeamIsOptimal(c, m, a.h, path, p);
  }

  /** So the mask is cut along that path: the pixel on it and everything on the first image's side are the first
      image's, the rest is the second's. */
  lemma MaskIsCutAlongTheAgreement(a: Grid<Rgba>, b: Grid<Rgba>, mask: Option<Grid<real>>, xMin: int, xMax: int,
                                   path: seq<int>, x: int, y: int)
    requires IsSeamMask(a, b, mask) && a.w == b.w && a.h == b.h && IsZone(a, b, xMin, xMax)
    requires xMax - xMin >= 2 && 2 * (xMax - xMin + 1) <= a.w && IsSeam(path, a.h, xMax - xMin + 1) && a.Has(x, y)
    requires forall u, v | 0 <= u <= xMax - xMin && 0 <= v < a.h :: u == path[v] <==> AgreeAt(a, b, xMin, u, v)
    ensures mask.Some? && mask.value.w == a.w && mask.value.h == a.h
    ensures CentroidIsRight(a, b) ==> mask.value.At(x, y) == if x <= xMin + path[y] then 1.0 else 0.0
    ensures !CentroidIsRight(a, b) ==> mask.value.At(x, y) == if x >= xMin + path[y] then 1.0 else 0.0
  {
    var p := EligibleZoneIsCut(a, b, mask, xMin, xMax);
    assert p == path by {
      SeamFollowsTheAgreement(a, b, xMin, xMax - xMin + 1, CentroidIsRight(a, b), p, path);
    }
  }

  lemma EligibleZoneIsCut(a: Grid<Rgba>, b: Grid<Rgba>, mask: Option<Grid<real>>, xMin: int, xMax: int)
    returns (p: seq<int>)
    requires IsSeamMask(a, b, mask) && a.w == b.w && a.h == b.h && IsZone(a, b, xMin, xMax)
    requires xMax - xMin >= 2 && 2 * (xMax - xMin + 1) <= a.w
    ensures a.h > 0 && mask.Some? && IsFinderSeam(a, b, xMin, xMax, CentroidIsRight(a, b), p)
    ensures SplitsAt(mask.value, a.w, xMin, CentroidIsRight(a, b), p)
  {
    var lo: nat, hi: nat, s :| IsSeamMaskIn(a, b, mask, lo, hi, s);
    ZoneIsUnique(a, b, xMin, xMax, lo, hi);
    ZoneHasRows(a, b, xMin, xMax);
    p := s;
  }

  // ---- where no seam runs inside the overlap ----

  /** A connected path from the top to row t through pixels where both images are visible. */
  ghost predicate IsInsidePath(a: Grid<Rgba>, b: Grid<Rgba>, xMin: int, m: nat, q: seq<int>, t: nat) {
    IsSeam(q, t + 1, m) && forall y | 0 <= y <= t :: InOverlap(a, b, xMin + q[y], y)
  }

  ghost predicate ReachesRow(a: Grid<Rgba>, b: Grid<Rgba>, xMin: int, m: nat, t: nat) {
    exists q :: IsInsidePath(a, b, xMin, m, q, t)
  }

  lemma PathsStartInTheTopRow(a: Grid<Rgba>, b: Grid<Rgba>, xMin: int, m: nat, t: nat)
    ensures ReachesRow(a, b, xMin, m, t) ==> exists x :: InOverlap(a, b, x, 0)
  {
    if q :| IsInsidePath(a, b, xMin, m, q, t) { assert InOverlap(a, b, xMin + q[0], 0); }
  }

  lemma ReachesHigherRows(a: Grid<Rgba>, b: Grid<Rgba>, xMin: int, m: nat, r: nat, t: nat)
    requires r <= t && ReachesRow(a, b, xMin, m, t)
    ensures ReachesRow(a, b, xMin, m, r)
  {
    var q :| IsInsidePath(a, b, xMin, m, q, t);
    assert IsInsidePath(a, b, xMin, m, q[..r+1], r);
  }

  lemma PathPlus(a: Grid<Rgba>, b: Grid<Rgba>, xMin: int, m: nat, q: seq<int>, t: nat, j: int)
    requires IsInsidePath(a, b, xMin, m, q, t) && 0 <= j < m && -1 <= j - q[t] <= 1 && InOverlap(a, b, xMin + j, t + 1)
    ensures IsInsidePath(a, b, xMin, m, q + [j], t + 1)
  {
  }

  lemma OverlapOrPenalty(a: Grid<Rgba>, b: Grid<Rgba>, xMin: int, t: int, j: int)
    ensures InOverlap(a, b, xMin + j, t) || Energy(a, b, xMin)(t, j) == PENALTY
  {
    var c := Energy(a, b, xMin);
    assert c(t, j) == PixelEnergy(a, b, xMin + j, t);
  }

  /** An entry that is not saturated is the end of such a path. */
  lemma {:induction false} UnsaturatedIsReached(a: Grid<Rgba>, b: Grid<Rgba>, xMin: int, m: nat, sat: seq<seq<real>>,
                                                t: nat, j: int) returns (q: seq<int>)
    requires IsSatTable(Energy(a, b, xMin), sat, m) && t < |sat| && 0 <= j < m && sat[t][j] != PENALTY
    ensures IsInsidePath(a, b, xMin, m, q, t) && q[t] == j
  {
    var c := Energy(a, b, xMin);
    OverlapOrPenalty(a, b, xMin, t, j);
    if t == 0 {
      q := [j];
    } else {
      assert SatObeys(c, sat, m, t, j);
      var k := ArgBest(sat[t-1], Lo(j), Hi(j, m), false);
      assert c(t, j) < LIMIT && sat[t-1][k] < LIMIT;
      var shorter := UnsaturatedIsReached(a, b, xMin, m, sat, t - 1, k);
      q := shorter + [j];
      PathPlus(a, b, xMin, m, shorter, t - 1, j);
    }
  }

  lemma {:induction false} TiesGoToTheEdge(row: seq<real>, lo: int, hi: int, right: bool)
    requires 0 <= lo <= hi < |row| && forall i | lo <= i <= hi :: row[i] == PENALTY
    ensures ArgBest(row, lo, hi, right) == if right then hi else lo
  {
    var k := ArgBest(row, lo, hi, right);
    assert row[k] == row[lo] == row[hi];
  }

  /** From a row that no such path reaches on, the seam runs straight down the edge of the zone on the preferred
      side. */
  lemma {:induction false} SeamHugsTheEdge(a: Grid<Rgba>, b: Grid<Rgba>, xMin: int, m: nat, right: bool, p: seq<int>,
                                           r: nat, t: nat)
    requires IsSatSeam(Energy(a, b, xMin), m, a.h, right, p) && !ReachesRow(a, b, xMin, m, r) && r <= t < a.h
    ensures |p| == a.h && p[t] == if right then m - 1 else 0
    decreases a.h - t
  {
    var sat :| IsSatTraceback(Energy(a, b, xMin), m, a.h, right, p, sat);
    forall j | 0 <= j < m
      ensures sat[t][j] == PENALTY
    {
      if sat[t][j] != PENALTY {
        var q := UnsaturatedIsReached(a, b, xMin, m, sat, t, j);
        ReachesHigherRows(a, b, xMin, m, r, t);
      }
    }
    if t == a.h - 1 {
      TiesGoToTheEdge(sat[t], 0, m - 1, right);
    } else {
      SeamHugsTheEdge(a, b, xMin, m, right, p, r, t + 1);
      assert Follows(sat, m, right, p, t);
      TiesGoToTheEdge(sat[t], Lo(p[t+1]), Hi(p[t+1], m), right);
    }
  }

  ghost predicate HasInsideSeam(a: Grid<Rgba>, b: Grid<Rgba>, xMin: int, m: nat) {
    exists q :: InsideOverlap(a, b, xMin, m, q)
  }

  /** Up to 513 rows the promise is kept for exactly the image pairs that have a seam inside their overlap;
      for the others the seam ends at the edge. */
  lemma FinestIffSomeSeamIsInside(a: Grid<Rgba>, b: Grid<Rgba>, xMin: int, m: nat, right: bool, p: seq<int>)
    requires m > 0 && 0 < a.h <= 513 && IsSatSeam(Energy(a, b, xMin), m, a.h, right, p)
    ensures IsFinestSeam(a, b, xMin, m, right, p) <==> HasInsideSeam(a, b, xMin, m)
    ensures !IsFinestSeam(a, b, xMin, m, right, p) ==> p[a.h-1] == if right then m - 1 else 0
  {
    if q :| InsideOverlap(a, b, xMin, m, q) {
      SeamIsFinestForShortImages(a, b, xMin, m, right, p, q);
    } else {
      if ReachesRow(a, b, xMin, m, a.h - 1) {
        var q :| IsInsidePath(a, b, xMin, m, q, a.h - 1);
        assert InsideOverlap(a, b, xMin, m, q);
      }
      SeamHugsTheEdge(a, b, xMin, m, right, p, a.h - 1, a.h - 1);
    }
  }

  /** Then the mask keeps a's pixels across the whole zone, from that row down. */
  lemma MaskKeepsTheZone(a: Grid<Rgba>, b: Grid<Rgba>, mask: Option<Grid<real>>, xMin: int, xMax: int, r: nat, x: int,
                         y: int)
    requires IsSeamMask(a, b, mask) && mask.Some? && a.w == b.w && a.h == b.h && IsZone(a, b, xMin, xMax)
    requires !ReachesRow(a, b, xMin, xMax - xMin + 1, r) && xMin <= x <= xMax && r <= y < a.h
    ensures mask.value.Has(x, y) && mask.value.At(x, y) == 1.0
  {
    var lo: nat, hi: nat, p :| IsSeamMaskIn(a, b, mask, lo, hi, p);
    ZoneIsUnique(a, b, xMin, xMax, lo, hi);
    SeamHugsTheEdge(a, b, xMin, xMax - xMin + 1, CentroidIsRight(a, b), p, r, y);
  }

  /** The left image shows three dark pixels of its last row only. */
  function ShiftedLeft(h: nat): Grid<Rgba> { Tabulate(6, h, (x, y) => if x < 3 && y == h - 1 then Dark else Clear) }

  lemma {:induction false} ShiftedMoments(g: Grid<Rgba>, h: nat)
    requires g.w == 6 && g.h == h > 0
    requires forall x, y | g.Has(x, y) :: g.At(x, y).a > 0 <==> x < 3 && y == h - 1
    ensures Moments(g, 6) == (3, 3)
  {
    forall x: nat | x < 6
      ensures ColumnMoments(g, x, h) == if x < 3 then (x, 1) else (0, 0)
    {
      ColumnMomentsOf(g, x, h - 1, false);
    }
    assert Moments(g, 1) == (0, 1);
    assert Moments(g, 2) == (1, 2);
    assert Moments(g, 3) == (3, 3);
    assert Moments(g, 4) == (3, 3);
    assert Moments(g, 5) == (3, 3);
  }

  lemma ShiftedCentroids(h: nat)
    requires h > 0
    ensures CentroidIsRight(ShiftedLeft(h), TallRight(h))
  {
    assert Moments(ShiftedLeft(h), 6) == (3, 3) by { ShiftedMoments(ShiftedLeft(h), h); }
    assert Moments(TallRight(h), 6) == (15 * h, 6 * h) by { TallMoments(TallRight(h), 6, h); }
    CrossMultiply(3, 3, 15 * h, 6 * h);
  }

  lemma ShiftedZone(h: nat)
    requires h > 0
    ensures IsZone(ShiftedLeft(h), TallRight(h), 0, 2)
  {
    var a, b := ShiftedLeft(h), TallRight(h);
    var foot := h - 1;
    assert forall x | 0 <= x < 6 :: a.Has(x, foot) && b.Has(x, foot);
    assert InOverlap(a, b, 0, foot) && InOverlap(a, b, 2, foot);
    forall x, y | 0 <= x < 6 && InOverlap(a, b, x, y)
      ensures x <= 2
    {
      assert a.At(x, y).a > 0;
    }
  }

  lemma ShiftedCost(h: nat, y: int, x: int)
    requires 0 <= y < h && 0 <= x < 3
    ensures PixelEnergy(ShiftedLeft(h), TallRight(h), x, y) ==
            if y < h - 1 then PENALTY else if x == 0 then 0.0 else MAX_ENERGY
  {
    var a, b := ShiftedLeft(h), TallRight(h);
    assert a.Has(x, y) && b.Has(x, y);
    if y < h - 1 {
      assert a.At(x, y) == Clear;
    } else if x == 0 {
      assert a.At(x, y) == Dark && b.At(x, y) == Dark;
      DarkEnergy();
    } else {
      assert a.At(x, y) == Dark && b.At(x, y) == White;
      WhiteEnergy();
    }
  }

  lemma ShiftedSeamCost(h: nat, c: CostFn, p: seq<int>, x: int)
    requires h > 1 && c == Energy(ShiftedLeft(h), TallRight(h), 0)
    requires 0 <= x < 3 && |p| == h && forall t | 0 <= t < h :: p[t] == x
    ensures SeamCost(c, p) == PENALTY * (h - 1) as real + if x == 0 then 0.0 else MAX_ENERGY
  {
    forall t | 0 <= t < h
      ensures c(t, p[t]) == if t < h - 1 then PENALTY else if x == 0 then 0.0 else MAX_ENERGY
    {
      ShiftedCost(h, t, x);
      EnergyAt(ShiftedLeft(h), TallRight(h), c, t, x,
               if t < h - 1 then PENALTY else if x == 0 then 0.0 else MAX_ENERGY);
    }
    UniformCost(c, p, PENALTY, h - 1);
  }

  lemma ShiftedRowsAreOut(h: nat)
    requires h > 1
    ensures !ReachesRow(ShiftedLeft(h), TallRight(h), 0, 3, 0)
  {
    var a, b := ShiftedLeft(h), TallRight(h);
    forall x
      ensures !InOverlap(a, b, x, 0)
    {
      if a.Has(x, 0) { assert a.At(x, 0) == Clear; }
    }
    PathsStartInTheTopRow(a, b, 0, 3, 0);
  }

  lemma ShiftedSeam(h: nat, p: seq<int>)
    requires h > 1 && IsSatSeam(Energy(ShiftedLeft(h), TallRight(h), 0), 3, h, true, p)
    ensures |p| == h && forall t | 0 <= t < h :: p[t] == 2
  {
    ShiftedRowsAreOut(h);
    SeamHugsTheEdge(ShiftedLeft(h), TallRight(h), 0, 3, true, p, 0, 0);
    forall t | 0 <= t < h
      ensures p[t] == 2
    {
      SeamHugsTheEdge(ShiftedLeft(h), TallRight(h), 0, 3, true, p, 0, t);
    }
  }

  lemma ShiftedCosts(h: nat, c: CostFn, p: seq<int>, q: seq<int>)
    requires h > 1 && c == Energy(ShiftedLeft(h), TallRight(h), 0) && IsSatSeam(c, 3, h, true, p)
    requires |q| == h && forall t | 0 <= t < h :: q[t] == 0
    ensures IsSeam(q, h, 3) && SeamCost(c, q) < SeamCost(c, p)
  {
    ShiftedSeam(h, p);
    ShiftedSeamCost(h, c, p, 2);
    ShiftedSeamCost(h, c, q, 0);
  }

  /** At any height above one row: the finder accepts the pair, and its seam goes down column 2, though column 0 costs
      less. The rows above the last have no overlap, as with any vertical offset of the two images. */
  lemma ShiftedImagesLoseTheSeam(h: nat) returns (p: seq<int>, q: seq<int>)
    requires h > 1
    ensures var a, b := ShiftedLeft(h), TallRight(h);
            && IsZone(a, b, 0, 2) && Eligible(6, 0, 2) && IsFinderSeam(a, b, 0, 2, CentroidIsRight(a, b), p)
            && IsSeam(q, h, 3) && SeamCost(Energy(a, b, 0), q) < SeamCost(Energy(a, b, 0), p)
  {
    var c := Energy(ShiftedLeft(h), TallRight(h), 0);
    ShiftedZone(h);
    ShiftedCentroids(h);
    q := seq(h, i => 0);
    p := SatSeamExists(c, 3, h, true);
    ShiftedCosts(h, c, p, q);
  }

  // ---- from 514 rows on, saturation can lose the seam ----

  /** An image pair the finder accepts, with a seam q inside its overlap. */
  ghost predicate HasSeam(a: Grid<Rgba>, b: Grid<Rgba>, xMin: int, xMax: int, q: seq<int>) {
    && a.w == b.w && a.h == b.h && IsZone(a, b, xMin, xMax) && Eligible(a.w, xMin, xMax)
    && InsideOverlap(a, b, xMin, xMax - xMin + 1, q)
  }

  /** For every image pair of this height that has a seam inside its overlap, the finder returns the finest one. */
  ghost predicate FinestAtHeight(h: nat) {
    forall a, b, xMin, xMax, q, p | HasSeam(a, b, xMin, xMax, q) && a.h == h
      && IsFinderSeam(a, b, xMin, xMax, CentroidIsRight(a, b), p) ::
      IsFinestSeam(a, b, xMin, xMax - xMin + 1, CentroidIsRight(a, b), p)
  }

  const White := Rgba(255, 255, 255, 255)
  const Dark := Rgba(0, 0, 0, 255)
  const Clear := Rgba(0, 0, 0, 0)

  /** Six columns: the left image shows only the first three, all dark. */
  function TallLeft(h: nat): Grid<Rgba> {
    Tabulate(6, h, (x, y) => if x < 3 then Dark else Clear)
  }

  /** The right image is white everywhere but at the bottom of column 0, where both agree. */
  function TallRight(h: nat): Grid<Rgba> {
    Tabulate(6, h, (x, y) => if x == 0 && y == h - 1 then Dark else White)
  }

  /** In a strip whose every row but the last costs MAX_ENERGY, the table saturates at row 513. */
  lemma {:induction false} TallTable(c: CostFn, sat: seq<seq<real>>, t: nat)
    requires IsSatTable(c, sat, 3) && t < |sat|
    requires forall s, j | 0 <= s < |sat| - 1 && 0 <= j < 3 :: c(s, j) == MAX_ENERGY
    ensures t < |sat| - 1 && t <= 512 ==> forall j | 0 <= j < 3 :: sat[t][j] == MAX_ENERGY * (t + 1) as real
    ensures t >= 513 ==> forall j | 0 <= j < 3 :: sat[t][j] == PENALTY
  {
    if t > 0 {
      TallTable(c, sat, t - 1);
      forall j | 0 <= j < 3
        ensures t < |sat| - 1 && t <= 512 ==> sat[t][j] == MAX_ENERGY * (t + 1) as real
        ensures t >= 513 ==> sat[t][j] == PENALTY
      {
        assert SatObeys(c, sat, 3, t, j);
        assert t < |sat| - 1 ==> c(t, j) == MAX_ENERGY;
      }
    } else if |sat| > 1 {
      assert forall j | 0 <= j < 3 :: c(0, j) == MAX_ENERGY;
    }
  }

  lemma {:induction false} UniformCost(c: CostFn, p: seq<int>, e: real, t: nat)
    requires t <= |p| && forall i | 0 <= i < t :: c(i, p[i]) == e
    ensures CostUpTo(c, p, t) == e * t as real
  {
    if t > 0 {
      UniformCost(c, p, e, t - 1);
    }
  }

  lemma {:induction false} ColumnMomentsOf(g: Grid<Rgba>, x: nat, rows: nat, visible: bool)
    requires x < g.w && rows <= g.h
    requires forall y | 0 <= y < rows :: g.At(x, y).a > 0 <==> visible
    ensures ColumnMoments(g, x, rows) == if visible then (x * rows, rows) else (0, 0)
  {
    if rows > 0 {
      ColumnMomentsOf(g, x, rows - 1, visible);
    }
  }

  lemma {:induction false} TallMoments(g: Grid<Rgba>, shown: nat, h: nat)
    requires g.w == 6 && g.h == h && (shown == 3 || shown == 6)
    requires forall x, y | g.Has(x, y) :: g.At(x, y).a > 0 <==> x < shown
    ensures Moments(g, 6) == if shown == 3 then (3 * h, 3 * h) else (15 * h, 6 * h)
  {
    ColumnMomentsOf(g, 0, h, true);
    ColumnMomentsOf(g, 1, h, true);
    ColumnMomentsOf(g, 2, h, true);
    assert Moments(g, 1) == (0, h);
    assert Moments(g, 2) == (h, 2 * h);
    assert Moments(g, 3) == (3 * h, 3 * h);
    ColumnMomentsOf(g, 3, h, shown == 6);
    ColumnMomentsOf(g, 4, h, shown == 6);
    ColumnMomentsOf(g, 5, h, shown == 6);
    assert Moments(g, 4) == if shown == 3 then (3 * h, 3 * h) else (6 * h, 4 * h);
    assert Moments(g, 5) == if shown == 3 then (3 * h, 3 * h) else (10 * h, 5 * h);
  }

  lemma TallCrossProduct(h: nat)
    requires h > 0
    ensures 15 * h * (3 * h) > 3 * h * (6 * h)
  {
    var s := h * h;
    assert 15 * h * (3 * h) == 45 * s && 3 * h * (6 * h) == 18 * s && s > 0;
  }

  lemma TallCentroids(h: nat)
    requires h > 0
    ensures CentroidIsRight(TallLeft(h), TallRight(h))
  {
    assert Moments(TallLeft(h), 6) == (3 * h, 3 * h) by { TallMoments(TallLeft(h), 3, h); }
    assert Moments(TallRight(h), 6) == (15 * h, 6 * h) by { TallMoments(TallRight(h), 6, h); }
    TallCrossProduct(h);
    CrossMultiply(3 * h, 3 * h, 15 * h, 6 * h);
  }

  lemma WhiteEnergy()
    ensures SquaredDistance(Dark, White) == 195075
  {
  }

  lemma DarkEnergy()
    ensures SquaredDistance(Dark, Dark) == 0
  {
  }

  lemma TallEnergyElsewhere(h: nat, y: int, x: int)
    requires 0 <= y < h && 0 <= x < 3 && !(x == 0 && y == h - 1)
    ensures PixelEnergy(TallLeft(h), TallRight(h), x, y) == MAX_ENERGY
  {
    var a, b := TallLeft(h), TallRight(h);
    assert a.Has(x, y) && b.Has(x, y);
    assert a.At(x, y) == Dark && b.At(x, y) == White;
    WhiteEnergy();
  }

  lemma TallEnergyAtTheFoot(h: nat, y: int, x: int)
    requires 0 < h && x == 0 && y == h - 1
    ensures PixelEnergy(TallLeft(h), TallRight(h), x, y) == 0.0
  {
    var a, b := TallLeft(h), TallRight(h);
    assert a.Has(x, y) && b.Has(x, y);
    assert a.At(x, y) == Dark && b.At(x, y) == Dark;
    assert PixelEnergy(a, b, x, y) == SquaredDistance(Dark, Dark) as real;
    DarkEnergy();
  }

  lemma TallZone(h: nat)
    requires h > 0
    ensures IsZone(TallLeft(h), TallRight(h), 0, 2)
  {
    var a, b := TallLeft(h), TallRight(h);
    assert forall x | 0 <= x < 6 :: a.Has(x, 0) && b.Has(x, 0);
    assert InOverlap(a, b, 0, 0) && InOverlap(a, b, 2, 0);
    forall x, y | 0 <= x < 6 && InOverlap(a, b, x, y)
      ensures x <= 2
    {
      assert a.At(x, y).a > 0;
    }
  }

  lemma EnergyAt(a: Grid<Rgba>, b: Grid<Rgba>, c: CostFn, s: int, j: int, e: real)
    requires c == Energy(a, b, 0) && PixelEnergy(a, b, j, s) == e
    ensures c(s, j) == e
  {
  }

  lemma TallCostAt(h: nat, c: CostFn, s: int, j: int)
    requires 0 <= s < h && 0 <= j < 3 && c == Energy(TallLeft(h), TallRight(h), 0)
    ensures c(s, j) == if j == 0 && s == h - 1 then 0.0 else MAX_ENERGY
  {
    if j == 0 && s == h - 1 {
      TallEnergyAtTheFoot(h, s, j);
      EnergyAt(TallLeft(h), TallRight(h), c, s, j, 0.0);
    } else {
      TallEnergyElsewhere(h, s, j);
      EnergyAt(TallLeft(h), TallRight(h), c, s, j, MAX_ENERGY);
    }
  }

  lemma TallStrip(h: nat)
    requires h > 0
    ensures var c := Energy(TallLeft(h), TallRight(h), 0);
            forall s, j | 0 <= s < h && 0 <= j < 3 :: c(s, j) == if j == 0 && s == h - 1 then 0.0 else MAX_ENERGY
  {
    var c := Energy(TallLeft(h), TallRight(h), 0);
    forall s, j | 0 <= s < h && 0 <= j < 3
      ensures c(s, j) == if j == 0 && s == h - 1 then 0.0 else MAX_ENERGY
    {
      TallCostAt(h, c, s, j);
    }
  }

  /** Saturation ties all three columns of the last row, so the finder takes the rightmost. */
  lemma TallSeamEnd(c: CostFn, h: nat, p: seq<int>)
    requires h >= 514 && IsSatSeam(c, 3, h, true, p)
    requires forall s, j | 0 <= s < h - 1 && 0 <= j < 3 :: c(s, j) == MAX_ENERGY
    ensures IsSeam(p, h, 3) && p[h-1] == 2
  {
    var sat :| IsSatTraceback(c, 3, h, true, p, sat);
    TallTable(c, sat, h - 1);
    TracebackIsSeam(sat, 3, true, p);
  }

  lemma TallSeamCost(c: CostFn, h: nat, p: seq<int>)
    requires IsSeam(p, h, 3) && h > 0 && p[h-1] == 2
    requires forall s, j | 0 <= s < h && 0 <= j < 3 :: c(s, j) == if j == 0 && s == h - 1 then 0.0 else MAX_ENERGY
    ensures SeamCost(c, p) == MAX_ENERGY * h as real
  {
    forall i | 0 <= i < h
      ensures c(i, p[i]) == MAX_ENERGY
    {
      assert 0 <= p[i] < 3;
    }
    UniformCost(c, p, MAX_ENERGY, h);
  }

  /** Straight down column 0 costs one pixel less. */
  lemma TallStraightCost(c: CostFn, h: nat, q: seq<int>)
    requires h > 0 && |q| == h && forall i | 0 <= i < h :: q[i] == 0
    requires forall s, j | 0 <= s < h && 0 <= j < 3 :: c(s, j) == if j == 0 && s == h - 1 then 0.0 else MAX_ENERGY
    ensures IsSeam(q, h, 3)
    ensures SeamCost(c, q) == MAX_ENERGY * (h - 1) as real
  {
    UniformCost(c, q, MAX_ENERGY, h - 1);
  }

  lemma TallHasSeam(h: nat, q: seq<int>)
    requires h > 0 && |q| == h && forall i | 0 <= i < h :: q[i] == 0
    ensures HasSeam(TallLeft(h), TallRight(h), 0, 2, q)
  {
    var a, b := TallLeft(h), TallRight(h);
    TallZone(h);
    forall y | 0 <= y < h
      ensures InOverlap(a, b, 0 + q[y], y)
    {
      assert a.Has(0, y) && b.Has(0, y);
    }
  }

  /** The finder ends its seam at the bottom of column 2, though ending in column 0 costs less. */
  lemma TallSeams(h: nat, c: CostFn) returns (p: seq<int>, q: seq<int>)
    requires h >= 514 && c == Energy(TallLeft(h), TallRight(h), 0)
    ensures IsSatSeam(c, 3, h, true, p)
    ensures HasSeam(TallLeft(h), TallRight(h), 0, 2, q)
    ensures IsSeam(q, h, 3) && SeamCost(c, q) < SeamCost(c, p)
  {
    q := seq(h, i => 0);
    p := SatSeamExists(c, 3, h, true);
    TallHasSeam(h, q);
    TallStrip(h);
    TallSeamEnd(c, h, p);
    TallSeamCost(c, h, p);
    TallStraightCost(c, h, q);
  }

  /** One image pair whose seam is beaten refutes the whole height. */
  lemma BeatenSeam(h: nat, a: Grid<Rgba>, b: Grid<Rgba>, xMin: int, xMax: int, p: seq<int>, q: seq<int>)
    requires a.h == h && HasSeam(a, b, xMin, xMax, q)
    requires IsFinderSeam(a, b, xMin, xMax, CentroidIsRight(a, b), p)
    requires SeamCost(Energy(a, b, xMin), q) < SeamCost(Energy(a, b, xMin), p)
    ensures !FinestAtHeight(h)
  {
    if FinestAtHeight(h) {
      assert false;
    }
  }

  lemma TallImagesLoseTheSeam(h: nat)
    requires h >= 514
    ensures !FinestAtHeight(h)
  {
    var a, b := TallLeft(h), TallRight(h);
    var p, q := TallSeams(h, Energy(a, b, 0));
    assert IsFinderSeam(a, b, 0, 2, CentroidIsRight(a, b), p) by { TallCentroids(h); }
    BeatenSeam(h, a, b, 0, 2, p, q);
  }

  lemma ZoneHasRows(a: Grid<Rgba>, b: Grid<Rgba>, xMin: int, xMax: int)
    requires IsZone(a, b, xMin, xMax) && Eligible(a.w, xMin, xMax)
    ensures a.h > 0
  {
    assert ColumnCovered(a, b, xMin);
    var y :| InOverlap(a, b, xMin, y);
  }

  /** Where a seam runs inside the overlap, the finder can be trusted for exactly the heights up to 513 rows. */
  lemma FinestExactlyUpTo513Rows(h: nat)
    ensures FinestAtHeight(h) <==> h <= 513
  {
    if h > 513 {
      TallImagesLoseTheSeam(h);
    } else {
      forall a, b, xMin, xMax, q, p | HasSeam(a, b, xMin, xMax, q) && a.h == h
        && IsFinderSeam(a, b, xMin, xMax, CentroidIsRight(a, b), p)
        ensures IsFinestSeam(a, b, xMin, xMax - xMin + 1, CentroidIsRight(a, b), p)
      {
        ZoneHasRows(a, b, xMin, xMax);
        SeamIsFinestForShortImages(a, b, xMin, xMax - xMin + 1, CentroidIsRight(a, b), p, q);
      }
    }
  }
}
