/** What overlapping tiles show (upscale.rs): how the predictions of neighbouring tiles fade into each other.

    Stated for the places that, along each axis, one tile reaches or two neighbours a full step apart do.  Two such
    neighbours share ov = overlap * scale places, and at the k-th of them their shares are (ov - k)/(ov + 1) and
    (k + 1)/(ov + 1).
 */
module TileBlending {
  import opened Images
  import opened Upscale

  // ---- one axis ----

  /** The prediction of the tile that starts at x reaches output position o. */
  predicate Reaches(x: int, side: nat, scale: nat, o: int) { x * scale <= o < x * scale + side }

  /** The weight of that tile at o, as far as this axis goes. */
  function AxisWeight(x: int, len: nat, tile: nat, ov: nat, scale: nat, side: nat, o: int): real {
    EdgeRamp(o - x * scale, side, ov, x == 0, x + tile >= len)
  }

  /** Tile i alone reaches o. */
  ghost predicate OneTile(xs: seq<int>, side: nat, scale: nat, o: int, i: nat) {
    i < |xs| && forall b | 0 <= b < |xs| :: Reaches(xs[b], side, scale, o) <==> b == i
  }

  /** o is among the overlap * scale positions that tile i shares with the next, a full step further on; a third tile,
      if there is one, begins later. */
  ghost predicate TwoTiles(xs: seq<int>, tile: nat, overlap: nat, scale: nat, o: int, i: nat) {
    && i + 1 < |xs| && xs[i+1] == xs[i] + tile - overlap
    && 0 <= o - xs[i+1] * scale < overlap * scale <= 999
    && (i + 2 < |xs| ==> o < xs[i+2] * scale)
  }

  /** The share of tile i at o; what is left is the next tile's. */
  ghost predicate HasShare(xs: seq<int>, tile: nat, overlap: nat, scale: nat, o: int, i: nat, s: real) {
    || (OneTile(xs, tile * scale, scale, o, i) && s == 1.0)
    || (TwoTiles(xs, tile, overlap, scale, o, i)
        && s == (overlap * scale - (o - xs[i+1] * scale)) as real / (overlap * scale + 1) as real)
  }

  lemma Scaled(a: int, b: int, c: nat)
    ensures (a + b) * c == a * c + b * c
  {
  }

  /** Two neighbours a full step apart share overlap * scale positions, less than half of either. */
  lemma SharedSpan(x: int, y: int, tile: nat, overlap: nat, scale: nat)
    requires y == x + tile - overlap && tile > 2 * overlap && scale > 0
    ensures y * scale == x * scale + tile * scale - overlap * scale && 2 * (overlap * scale) < tile * scale
  {
    Scaled(x, tile - overlap, scale);
    Scaled(tile - overlap, overlap, scale);
    Scaled(2 * overlap, tile - 2 * overlap, scale);
    Ordered(1, tile - 2 * overlap, scale);
    Scaled(overlap, overlap, scale);
  }

  lemma InnerSides(xs: seq<int>, len: nat, tile: nat, step: nat, i: nat)
    requires IsTiling(xs, len, tile, step) && i + 1 < |xs|
    ensures xs[i] + tile < len && xs[i+1] > 0
  {
    OriginsAscend(xs, len, tile, step, i, |xs| - 1);
    OriginsAscend(xs, len, tile, step, 0, i + 1);
  }

  lemma EarlierTilesEnd(xs: seq<int>, len: nat, tile: nat, overlap: nat, i: nat, b: nat)
    requires tile > 2 * overlap && IsTiling(xs, len, tile, tile - overlap)
    requires i + 1 < |xs| && xs[i+1] == xs[i] + tile - overlap && b < i
    ensures xs[b] + tile <= xs[i+1]
  {
    if b < i - 1 { OriginsAscend(xs, len, tile, tile - overlap, b, i - 1); }
    InnerSides(xs, len, tile, tile - overlap, i);
    assert xs[i] == Min(xs[i-1] + (tile - overlap), len - tile);
  }

  /** No tile but the two reaches a place they share. */
  lemma OnlyTheTwoReach(xs: seq<int>, len: nat, tile: nat, overlap: nat, scale: nat, o: int, i: nat, b: nat)
    requires tile > 2 * overlap && scale > 0 && IsTiling(xs, len, tile, tile - overlap)
    requires TwoTiles(xs, tile, overlap, scale, o, i) && b < |xs|
    ensures Reaches(xs[b], tile * scale, scale, o) <==> b == i || b == i + 1
  {
    SharedSpan(xs[i], xs[i+1], tile, overlap, scale);
    if b < i {
      EarlierTilesEnd(xs, len, tile, overlap, i, b);
      Ordered(xs[b] + tile, xs[i+1], scale);
      Scaled(xs[b], tile, scale);
    } else if b > i + 1 {
      if b > i + 2 { OriginsAscend(xs, len, tile, tile - overlap, i + 2, b); }
      Ordered(xs[i+2], xs[b], scale);
    }
  }

  /** The ramps of two neighbours over the places they share. */
  lemma RampShares(side: int, ov: nat, k: int, start: bool, end: bool)
    requires 0 <= k < ov <= 999 && 2 * ov < side
    ensures EdgeRamp(side - ov + k, side, ov, start, false) == (ov - k) as real / (ov + 1) as real
    ensures EdgeRamp(k, side, ov, false, end) == (k + 1) as real / (ov + 1) as real
    ensures (ov - k) as real / (ov + 1) as real + (k + 1) as real / (ov + 1) as real == 1.0
  {
    var d := ov as real + 1.0;
    assert d == (ov + 1) as real;
    AtLeastOverThousand((ov - k) as real, d);
    AtLeastOverThousand((k + 1) as real, d);
    assert (side - 1 - (side - ov + k)) as real + 1.0 == (ov - k) as real;
    assert k as real + 1.0 == (k + 1) as real;
    assert (ov - k) as real / d + (k + 1) as real / d == ((ov - k) as real + (k + 1) as real) / d;
  }

  lemma PairWeights(xs: seq<int>, len: nat, tile: nat, overlap: nat, scale: nat, o: int, i: nat)
    requires tile > 2 * overlap && scale > 0 && IsTiling(xs, len, tile, tile - overlap)
    requires TwoTiles(xs, tile, overlap, scale, o, i)
    ensures var ov, k := overlap * scale, o - xs[i+1] * scale;
            && AxisWeight(xs[i], len, tile, ov, scale, tile * scale, o) == (ov - k) as real / (ov + 1) as real
            && AxisWeight(xs[i+1], len, tile, ov, scale, tile * scale, o)
            == 1.0 - (ov - k) as real / (ov + 1) as real
  {
    var side, ov, k := tile * scale, overlap * scale, o - xs[i+1] * scale;
    InnerSides(xs, len, tile, tile - overlap, i);
    SharedSpan(xs[i], xs[i+1], tile, overlap, scale);
    RampShares(side, ov, k, xs[i] == 0, xs[i+1] + tile >= len);
    assert o - xs[i] * scale == side - ov + k;
  }

  /** w is the weight at o of tile a along an axis, 0 if there is none that reaches o. */
  predicate IsAxisWeight(xs: seq<int>, len: nat, tile: nat, ov: nat, scale: nat, side: nat, o: int, a: nat, w: real) {
    w == if a < |xs| && Reaches(xs[a], side, scale, o) then AxisWeight(xs[a], len, tile, ov, scale, side, o) else 0.0
  }

  /** No tile but a and a + 1 reaches o. */
  ghost predicate OnlyTwo(xs: seq<int>, side: nat, scale: nat, o: int, a: nat) {
    forall k | 0 <= k < |xs| && Reaches(xs[k], side, scale, o) :: k == a || k == a + 1
  }

  /** v and w are the shares s and 1 - s of u. */
  predicate Splits(u: real, s: real, v: real, w: real) { v == u * s && w == u * (1.0 - s) }

  /** Along an axis the weights are the shares, up to a common factor u. */
  lemma WeightsAreShares(xs: seq<int>, len: nat, tile: nat, overlap: nat, scale: nat, o: int, a: nat, s: real)
    returns (u: real, v: real, w: real)
    requires tile > 2 * overlap && scale > 0 && IsTiling(xs, len, tile, tile - overlap)
    requires HasShare(xs, tile, overlap, scale, o, a, s)
    ensures u >= 0.001 && Splits(u, s, v, w) && a < |xs| && OnlyTwo(xs, tile * scale, scale, o, a)
    ensures IsAxisWeight(xs, len, tile, overlap * scale, scale, tile * scale, o, a, v)
    ensures IsAxisWeight(xs, len, tile, overlap * scale, scale, tile * scale, o, a + 1, w)
  {
    if OneTile(xs, tile * scale, scale, o, a) && s == 1.0 {
      u := AxisWeight(xs[a], len, tile, overlap * scale, scale, tile * scale, o);
      RampBounds(o - xs[a] * scale, tile * scale, overlap * scale, xs[a] == 0, xs[a] + tile >= len);
    } else {
      u := 1.0;
      forall b | 0 <= b < |xs|
        ensures Reaches(xs[b], tile * scale, scale, o) <==> b == a || b == a + 1
      {
        OnlyTheTwoReach(xs, len, tile, overlap, scale, o, a, b);
      }
      PairWeights(xs, len, tile, overlap, scale, o, a);
    }
    v, w := u * s, u * (1.0 - s);
  }

  // ---- sums over the tiles ----

  lemma WeightByAxes(g: Geometry, t: Tile, ox: int, oy: int)
    ensures CoversPixel(g, t, ox, oy) <==> Reaches(t.x0, g.side, g.scale, ox) && Reaches(t.y0, g.side, g.scale, oy)
    ensures Weight(g, t, ox, oy) == AxisWeight(t.x0, g.srcW, g.tile, g.overlap * g.scale, g.scale, g.side, ox)
                                  * AxisWeight(t.y0, g.srcH, g.tile, g.overlap * g.scale, g.scale, g.side, oy)
  {
  }

  /** The weight of the tile in column a and row b at (ox, oy), 0 if there is none that covers it. */
  function WeightAt(g: Geometry, xs: seq<int>, ys: seq<int>, a: nat, b: nat, ox: int, oy: int): real {
    if a < |xs| && b < |ys| && xs[a] >= 0 && ys[b] >= 0 && CoversPixel(g, Tile(xs[a], ys[b]), ox, oy)
    then Weight(g, Tile(xs[a], ys[b]), ox, oy) else 0.0
  }

  /** What tile t predicts at (ox, oy), counted from where it lands; black where it says nothing. */
  function PredictedAt(g: Geometry, p: Prediction, t: Tile, ox: int, oy: int): V3 {
    var x, y := ox - t.x0 * g.scale, oy - t.y0 * g.scale;
    if p(t).Has(x, y) then p(t).At(x, y) else V3(0.0, 0.0, 0.0)
  }

  /** What the tile in column a and row b predicts there. */
  function ValueAt(g: Geometry, p: Prediction, xs: seq<int>, ys: seq<int>, a: nat, b: nat, ox: int, oy: int): V3 {
    if a < |xs| && b < |ys| && xs[a] >= 0 && ys[b] >= 0
    then PredictedAt(g, p, Tile(xs[a], ys[b]), ox, oy) else V3(0.0, 0.0, 0.0)
  }

  /** The weights and predictions of all tiles at one place, by column and row. */
  type Weights = (nat, nat) -> real
  type Values = (nat, nat) -> V3

  ghost predicate AreTerms(g: Geometry, p: Prediction, xs: seq<int>, ys: seq<int>, ox: int, oy: int, weights: Weights,
                           values: Values) {
    && (forall k | 0 <= k < |xs| :: xs[k] >= 0) && (forall k | 0 <= k < |ys| :: ys[k] >= 0)
    && (forall a, b :: weights(a, b) == WeightAt(g, xs, ys, a, b, ox, oy))
    && (forall a, b :: values(a, b) == ValueAt(g, p, xs, ys, a, b, ox, oy))
  }

  /** No other tiles than those in columns a and a + 1 and rows b and b + 1 have any weight. */
  ghost predicate OnlyFour(weights: Weights, a: nat, b: nat) {
    forall u, v | weights(u, v) != 0.0 :: (u == a || u == a + 1) && (v == b || v == b + 1)
  }

  function Times(d: V3, w: real, c: nat): real { Channel(d, c) * w }

  /** Is the tile in column u and row v among the first i tiles of row j and those of all earlier rows? */
  predicate Counts(j: nat, i: nat, u: nat, v: nat) { v < j || (v == j && u < i) }

  /** What it has added so far to the weight, and in channel c to the value. */
  function WeightPart(weights: Weights, j: nat, i: nat, u: nat, v: nat): real {
    if Counts(j, i, u, v) then weights(u, v) else 0.0
  }

  function ValuePart(weights: Weights, values: Values, j: nat, i: nat, u: nat, v: nat, c: nat): real {
    if Counts(j, i, u, v) then Times(values(u, v), weights(u, v), c) else 0.0
  }

  function FourWeights(weights: Weights, j: nat, i: nat, a: nat, b: nat): real {
    WeightPart(weights, j, i, a, b) + WeightPart(weights, j, i, a + 1, b)
    + WeightPart(weights, j, i, a, b + 1) + WeightPart(weights, j, i, a + 1, b + 1)
  }

  function FourValues(weights: Weights, values: Values, j: nat, i: nat, a: nat, b: nat, c: nat): real {
    ValuePart(weights, values, j, i, a, b, c) + ValuePart(weights, values, j, i, a + 1, b, c)
    + ValuePart(weights, values, j, i, a, b + 1, c) + ValuePart(weights, values, j, i, a + 1, b + 1, c)
  }

  lemma FourGain(weights: Weights, values: Values, j: nat, i: nat, a: nat, b: nat, c: nat)
    requires OnlyFour(weights, a, b) && i > 0
    ensures FourWeights(weights, j, i, a, b) == FourWeights(weights, j, i - 1, a, b) + weights(i - 1, j)
    ensures FourValues(weights, values, j, i, a, b, c)
         == FourValues(weights, values, j, i - 1, a, b, c) + Times(values(i - 1, j), weights(i - 1, j), c)
  {
    if !((i - 1 == a || i - 1 == a + 1) && (j == b || j == b + 1)) {
      assert weights(i - 1, j) == 0.0;
      assert Times(values(i - 1, j), 0.0, c) == 0.0;
    }
  }

  lemma NewRow(weights: Weights, values: Values, n: nat, j: nat, a: nat, b: nat, c: nat)
    requires OnlyFour(weights, a, b) && j > 0 && forall u, v | u >= n :: weights(u, v) == 0.0
    ensures FourWeights(weights, j, 0, a, b) == FourWeights(weights, j - 1, n, a, b)
    ensures FourValues(weights, values, j, 0, a, b, c) == FourValues(weights, values, j - 1, n, a, b, c)
  {
    PartsCarry(weights, values, n, j, a, b, c);
    PartsCarry(weights, values, n, j, a + 1, b, c);
    PartsCarry(weights, values, n, j, a, b + 1, c);
    PartsCarry(weights, values, n, j, a + 1, b + 1, c);
  }

  lemma PartsCarry(weights: Weights, values: Values, n: nat, j: nat, u: nat, v: nat, c: nat)
    requires j > 0 && (u >= n ==> weights(u, v) == 0.0)
    ensures WeightPart(weights, j, 0, u, v) == WeightPart(weights, j - 1, n, u, v)
    ensures ValuePart(weights, values, j, 0, u, v, c) == ValuePart(weights, values, j - 1, n, u, v, c)
  {
    if u >= n { assert Times(values(u, v), 0.0, c) == 0.0; }
  }

  lemma ChannelTimes(sum: V3, d: V3, w: real, c: nat)
    ensures Channel(AddScaled(sum, d, w), c) == Channel(sum, c) + Times(d, w, c)
  {
  }

  lemma PredictionIsAt(g: Geometry, p: Prediction, t: Tile, ox: int, oy: int)
    requires CoversPixel(g, t, ox, oy) && p(t).w == g.side && p(t).h == g.side
    ensures Predicted(g, p, t, ox, oy) == PredictedAt(g, p, t, ox, oy)
  {
  }

  lemma {:induction false} SumsGain(g: Geometry, p: Prediction, tiles: seq<Tile>, t: Tile, ox: int, oy: int, c: nat,
                                    w: real)
    requires SquareTiles(g, p, tiles) && p(t).w == g.side && p(t).h == g.side
    requires w == if CoversPixel(g, t, ox, oy) then Weight(g, t, ox, oy) else 0.0
    ensures SquareTiles(g, p, tiles + [t])
    ensures WeightSum(g, tiles + [t], ox, oy) == WeightSum(g, tiles, ox, oy) + w
    ensures Channel(ValueSum(g, p, tiles + [t], ox, oy), c)
         == Channel(ValueSum(g, p, tiles, ox, oy), c) + Times(PredictedAt(g, p, t, ox, oy), w, c)
  {
    SumsSnoc(g, p, tiles, t, ox, oy);
    var d, sum := PredictedAt(g, p, t, ox, oy), ValueSum(g, p, tiles, ox, oy);
    if CoversPixel(g, t, ox, oy) {
      PredictionIsAt(g, p, t, ox, oy);
      ChannelTimes(sum, d, w, c);
    } else {
      assert Times(d, 0.0, c) == 0.0;
    }
  }

  lemma FrontIsSquare(g: Geometry, p: Prediction, front: seq<Tile>, t: Tile)
    requires SquareTiles(g, p, front + [t])
    ensures SquareTiles(g, p, front) && p(t).w == g.side && p(t).h == g.side
  {
    var tiles := front + [t];
    assert forall k | 0 <= k < |front| :: front[k] == tiles[k];
    assert tiles[|front|] == t;
  }

  lemma {:induction false} SumsOfFour(g: Geometry, p: Prediction, xs: seq<int>, ys: seq<int>, weights: Weights,
                                      values: Values, j: nat, i: nat, a: nat, b: nat, ox: int, oy: int, c: nat)
    requires AreTerms(g, p, xs, ys, ox, oy, weights, values) && OnlyFour(weights, a, b)
    requires i <= |xs| && (j < |ys| || (j == |ys| && i == 0)) && SquareTiles(g, p, TilesUpTo(xs, ys, j, i))
    ensures WeightSum(g, TilesUpTo(xs, ys, j, i), ox, oy) == FourWeights(weights, j, i, a, b)
    ensures Channel(ValueSum(g, p, TilesUpTo(xs, ys, j, i), ox, oy), c) == FourValues(weights, values, j, i, a, b, c)
    decreases j, i
  {
    if i > 0 {
      var t, front := Tile(xs[i-1], ys[j]), TilesUpTo(xs, ys, j, i - 1);
      FrontIsSquare(g, p, front, t);
      SumsOfFour(g, p, xs, ys, weights, values, j, i - 1, a, b, ox, oy, c);
      SumsGain(g, p, front, t, ox, oy, c, weights(i - 1, j));
      FourGain(weights, values, j, i, a, b, c);
    } else if j > 0 {
      SumsOfFour(g, p, xs, ys, weights, values, j - 1, |xs|, a, b, ox, oy, c);
      assert forall u, v | u >= |xs| :: weights(u, v) == 0.0;
      NewRow(weights, values, |xs|, j, a, b, c);
    } else {
      NothingYet(weights, values, a, b, c);
    }
  }

  lemma NothingYet(weights: Weights, values: Values, a: nat, b: nat, c: nat)
    ensures FourWeights(weights, 0, 0, a, b) == 0.0 && FourValues(weights, values, 0, 0, a, b, c) == 0.0
  {
  }

  // ---- mixtures ----

  /** Four values mixed with shares s and 1 - s across, t and 1 - t down. */
  function Mix(p: V3, q: V3, m: V3, n: V3, s: real, t: real, c: nat): real {
    Channel(p, c) * (s * t) + Channel(q, c) * ((1.0 - s) * t)
    + Channel(m, c) * (s * (1.0 - t)) + Channel(n, c) * ((1.0 - s) * (1.0 - t))
  }

  lemma Regroup(u: real, s: real, v: real, t: real)
    ensures (u * s) * (v * t) == (u * v) * (s * t)
  {
  }

  lemma SharesOfOne(k: real, s: real, t: real)
    ensures k * (s * t) + k * ((1.0 - s) * t) + k * (s * (1.0 - t)) + k * ((1.0 - s) * (1.0 - t)) == k
  {
    assert s * t + (1.0 - s) * t == t && s * (1.0 - t) + (1.0 - s) * (1.0 - t) == 1.0 - t;
  }

  lemma WeightsAddUp(u: real, s: real, v: real, t: real)
    ensures (u * s) * (v * t) + (u * (1.0 - s)) * (v * t) + (u * s) * (v * (1.0 - t))
            + (u * (1.0 - s)) * (v * (1.0 - t)) == u * v
  {
    Regroup(u, s, v, t);
    Regroup(u, 1.0 - s, v, t);
    Regroup(u, s, v, 1.0 - t);
    Regroup(u, 1.0 - s, v, 1.0 - t);
    SharesOfOne(u * v, s, t);
  }

  lemma TimesFactor(d: V3, u: real, s: real, v: real, t: real, c: nat)
    ensures Times(d, (u * s) * (v * t), c) == (u * v) * (Channel(d, c) * (s * t))
  {
    Regroup(u, s, v, t);
    Swap(Channel(d, c), u * v, s * t);
  }

  lemma Swap(x: real, k: real, y: real)
    ensures x * (k * y) == k * (x * y)
  {
  }

  lemma Factored(k: real, x: real, y: real, z: real, w: real)
    ensures k * x + k * y + k * z + k * w == k * (x + y + z + w)
  {
  }

  lemma ValuesAddUp(p: V3, q: V3, m: V3, n: V3, u: real, s: real, v: real, t: real, c: nat)
    ensures Times(p, (u * s) * (v * t), c) + Times(q, (u * (1.0 - s)) * (v * t), c)
            + Times(m, (u * s) * (v * (1.0 - t)), c) + Times(n, (u * (1.0 - s)) * (v * (1.0 - t)), c)
            == (u * v) * Mix(p, q, m, n, s, t, c)
  {
    TimesFactor(p, u, s, v, t, c);
    TimesFactor(q, u, 1.0 - s, v, t, c);
    TimesFactor(m, u, s, v, 1.0 - t, c);
    TimesFactor(n, u, 1.0 - s, v, 1.0 - t, c);
    Factored(u * v, Channel(p, c) * (s * t), Channel(q, c) * ((1.0 - s) * t), Channel(m, c) * (s * (1.0 - t)),
             Channel(n, c) * ((1.0 - s) * (1.0 - t)));
  }

  /** The four weights are the products of two weights across and two down. */
  predicate AreProducts(weights: Weights, a: nat, b: nat, v: real, w: real, y: real, z: real) {
    && weights(a, b) == v * y && weights(a + 1, b) == w * y
    && weights(a, b + 1) == v * z && weights(a + 1, b + 1) == w * z
  }

  /** If those are shares of two factors, the weights add up to the factors' product, and values so weighted to their
      mixture times that. */
  lemma TermsAreMixed(weights: Weights, values: Values, rows: nat, a: nat, b: nat, u: real, s: real, v: real, w: real,
                      x: real, t: real, y: real, z: real, c: nat) returns (k: real, m: real)
    requires AreProducts(weights, a, b, v, w, y, z) && Splits(u, s, v, w) && Splits(x, t, y, z)
    requires u >= 0.001 && x >= 0.001
    requires b < rows && (b + 1 >= rows ==> weights(a, b + 1) == weights(a + 1, b + 1) == 0.0)
    ensures k >= 0.000001 && FourWeights(weights, rows, 0, a, b) == k
    ensures FourValues(weights, values, rows, 0, a, b, c) == k * m
    ensures m == Mix(values(a, b), values(a + 1, b), values(a, b + 1), values(a + 1, b + 1), s, t, c)
  {
    k := u * x;
    m := Mix(values(a, b), values(a + 1, b), values(a, b + 1), values(a + 1, b + 1), s, t, c);
    ProductReaches(u, x);
    WeightsAddUp(u, s, x, t);
    ValuesAddUp(values(a, b), values(a + 1, b), values(a, b + 1), values(a + 1, b + 1), u, s, x, t, c);
    if b + 1 >= rows {
      assert Times(values(a, b + 1), 0.0, c) == 0.0 && Times(values(a + 1, b + 1), 0.0, c) == 0.0;
    }
  }

  lemma OneWeight(g: Geometry, xs: seq<int>, ys: seq<int>, a: nat, b: nat, ox: int, oy: int, wx: real, wy: real)
    requires a < |xs| ==> xs[a] >= 0
    requires b < |ys| ==> ys[b] >= 0
    requires IsAxisWeight(xs, g.srcW, g.tile, g.overlap * g.scale, g.scale, g.side, ox, a, wx)
    requires IsAxisWeight(ys, g.srcH, g.tile, g.overlap * g.scale, g.scale, g.side, oy, b, wy)
    ensures WeightAt(g, xs, ys, a, b, ox, oy) == wx * wy
  {
    if a < |xs| && b < |ys| {
      WeightByAxes(g, Tile(xs[a], ys[b]), ox, oy);
    }
  }

  lemma TermsOf(g: Geometry, p: Prediction, xs: seq<int>, ys: seq<int>, a: nat, b: nat, ox: int, oy: int)
    returns (weights: Weights, values: Values)
    requires (forall k | 0 <= k < |xs| :: xs[k] >= 0) && (forall k | 0 <= k < |ys| :: ys[k] >= 0)
    requires OnlyTwo(xs, g.side, g.scale, ox, a) && OnlyTwo(ys, g.side, g.scale, oy, b)
    ensures AreTerms(g, p, xs, ys, ox, oy, weights, values) && OnlyFour(weights, a, b)
  {
    weights := (u: nat, v: nat) => WeightAt(g, xs, ys, u, v, ox, oy);
    values := (u: nat, v: nat) => ValueAt(g, p, xs, ys, u, v, ox, oy);
    forall u: nat, v: nat | weights(u, v) != 0.0
      ensures (u == a || u == a + 1) && (v == b || v == b + 1)
    {
      assert CoversPixel(g, Tile(xs[u], ys[v]), ox, oy);
      WeightByAxes(g, Tile(xs[u], ys[v]), ox, oy);
    }
  }

  /** The predictions of the four tiles in columns a and a + 1 and rows b and b + 1, so mixed. */
  function Mixed(g: Geometry, p: Prediction, xs: seq<int>, ys: seq<int>, a: nat, b: nat, ox: int, oy: int, s: real,
                 t: real, c: nat): real {
    Mix(ValueAt(g, p, xs, ys, a, b, ox, oy), ValueAt(g, p, xs, ys, a + 1, b, ox, oy),
        ValueAt(g, p, xs, ys, a, b + 1, ox, oy), ValueAt(g, p, xs, ys, a + 1, b + 1, ox, oy), s, t, c)
  }

  /** A plan of tiles over an image, with what they predict. */
  ghost predicate IsPlan(g: Geometry, p: Prediction, xs: seq<int>, ys: seq<int>) {
    && (forall k | 0 <= k < |xs| :: xs[k] >= 0) && (forall k | 0 <= k < |ys| :: ys[k] >= 0)
    && g.tile > 2 * g.overlap && g.scale > 0 && g.side == g.tile * g.scale
    && IsTiling(xs, g.srcW, g.tile, g.tile - g.overlap) && IsTiling(ys, g.srcH, g.tile, g.tile - g.overlap)
    && SquareTiles(g, p, TilesUpTo(xs, ys, |ys|, 0))
  }

  lemma FourShares(g: Geometry, p: Prediction, xs: seq<int>, ys: seq<int>, ox: int, oy: int, a: nat, s: real, b: nat,
                   t: real)
    returns (weights: Weights, values: Values, u: real, v: real, w: real, x: real, y: real, z: real)
    requires IsPlan(g, p, xs, ys)
    requires HasShare(xs, g.tile, g.overlap, g.scale, ox, a, s) && HasShare(ys, g.tile, g.overlap, g.scale, oy, b, t)
    ensures AreTerms(g, p, xs, ys, ox, oy, weights, values) && OnlyFour(weights, a, b) && b < |ys|
    ensures u >= 0.001 && x >= 0.001 && Splits(u, s, v, w) && Splits(x, t, y, z)
    ensures AreProducts(weights, a, b, v, w, y, z)
  {
    u, v, w := WeightsAreShares(xs, g.srcW, g.tile, g.overlap, g.scale, ox, a, s);
    x, y, z := WeightsAreShares(ys, g.srcH, g.tile, g.overlap, g.scale, oy, b, t);
    weights, values := TermsOf(g, p, xs, ys, a, b, ox, oy);
    OneWeight(g, xs, ys, a, b, ox, oy, v, y);
    OneWeight(g, xs, ys, a + 1, b, ox, oy, w, y);
    OneWeight(g, xs, ys, a, b + 1, ox, oy, v, z);
    OneWeight(g, xs, ys, a + 1, b + 1, ox, oy, w, z);
  }

  lemma NoTermsBelow(g: Geometry, p: Prediction, xs: seq<int>, ys: seq<int>, ox: int, oy: int, weights: Weights,
                     values: Values, a: nat, b: nat)
    requires AreTerms(g, p, xs, ys, ox, oy, weights, values) && b >= |ys|
    ensures weights(a, b) == 0.0
  {
  }

  /** The sums at a place are the mixture of the predictions for it, up to a factor that the weights have in common. */
  lemma SumsAreMixed(g: Geometry, p: Prediction, xs: seq<int>, ys: seq<int>, ox: int, oy: int, a: nat, s: real, b: nat,
                     t: real, c: nat, weights: Weights, values: Values, u: real, v: real, w: real, x: real, y: real,
                     z: real) returns (k: real, m: real)
    requires IsPlan(g, p, xs, ys) && AreTerms(g, p, xs, ys, ox, oy, weights, values) && OnlyFour(weights, a, b)
    requires u >= 0.001 && x >= 0.001 && Splits(u, s, v, w) && Splits(x, t, y, z) && b < |ys|
    requires AreProducts(weights, a, b, v, w, y, z)
    ensures k >= 0.000001 && WeightSum(g, TilesUpTo(xs, ys, |ys|, 0), ox, oy) == k
    ensures Channel(ValueSum(g, p, TilesUpTo(xs, ys, |ys|, 0), ox, oy), c) == k * m
    ensures m == Mix(values(a, b), values(a + 1, b), values(a, b + 1), values(a + 1, b + 1), s, t, c)
  {
    if b + 1 >= |ys| {
      NoTermsBelow(g, p, xs, ys, ox, oy, weights, values, a, b + 1);
      NoTermsBelow(g, p, xs, ys, ox, oy, weights, values, a + 1, b + 1);
    }
    k, m := TermsAreMixed(weights, values, |ys|, a, b, u, s, v, w, x, t, y, z, c);
    SumsOfFour(g, p, xs, ys, weights, values, |ys|, 0, a, b, ox, oy, c);
  }

  lemma Quotient(k: real, x: real)
    requires k > 0.0
    ensures (k * x) / k == x
  {
  }

  lemma MeanOfSums(sum: V3, w: real, x: real, c: nat)
    requires w >= 0.000001 && Channel(sum, c) == w * x
    ensures Channel(Normalised(sum, w), c) == x
  {
    MeanByChannel(sum, w, c);
    Quotient(w, x);
  }

  lemma {:induction false} MeanOfTiles(g: Geometry, p: Prediction, tiles: seq<Tile>, ox: int, oy: int, c: nat, k: real,
                                       x: real)
    requires SquareTiles(g, p, tiles) && WeightSum(g, tiles, ox, oy) == k >= 0.000001
    requires Channel(ValueSum(g, p, tiles, ox, oy), c) == k * x
    ensures Channel(Mean(g, p, tiles, ox, oy), c) == x
  {
    MeanOfSums(ValueSum(g, p, tiles, ox, oy), k, x, c);
  }

  lemma {:induction false} MeanIsMixed(g: Geometry, p: Prediction, xs: seq<int>, ys: seq<int>, ox: int, oy: int,
                                       a: nat, s: real, b: nat, t: real, c: nat)
    requires IsPlan(g, p, xs, ys)
    requires HasShare(xs, g.tile, g.overlap, g.scale, ox, a, s) && HasShare(ys, g.tile, g.overlap, g.scale, oy, b, t)
    ensures Channel(Mean(g, p, TilesUpTo(xs, ys, |ys|, 0), ox, oy), c)
         == Mixed(g, p, xs, ys, a, b, ox, oy, s, t, c)
  {
    var weights, values, u, v, w, x, y, z := FourShares(g, p, xs, ys, ox, oy, a, s, b, t);
    var k, m := SumsAreMixed(g, p, xs, ys, ox, oy, a, s, b, t, c, weights, values, u, v, w, x, y, z);
    MeanOfTiles(g, p, TilesUpTo(xs, ys, |ys|, 0), ox, oy, c, k, m);
  }

  // ---- what a finished run shows ----

  /** What the tile in column a and row b predicts for output pixel (ox, oy). */
  function TilePrediction(r: Run, a: nat, b: nat, ox: int, oy: int): V3
    requires r.rgb.w > 0 && r.rgb.h > 0
  {
    ValueAt(r.Geo(), r.Answers(), r.xs, r.ys, a, b, ox, oy)
  }

  lemma RunIsPlan(r: Run, out: Grid<Rgb>)
    requires IsUpscaled(r, out)
    ensures IsPlan(r.Geo(), r.Answers(), r.xs, r.ys)
  {
  }

  /** Each pixel that one tile or two neighbours a full step apart reach along either axis is the mixture of their
      predictions, brought to bytes. */
  lemma PixelIsMixed(r: Run, out: Grid<Rgb>, ox: nat, oy: nat, a: nat, s: real, b: nat, t: real) returns (v: V3)
    requires IsUpscaled(r, out) && out.Has(ox, oy)
    requires HasShare(r.xs, r.tile, r.overlap, r.scale, ox, a, s)
    requires HasShare(r.ys, r.tile, r.overlap, r.scale, oy, b, t)
    ensures out.At(ox, oy) == QuantisePixel(v)
    ensures forall c: nat :: Channel(v, c) == Mixed(r.Geo(), r.Answers(), r.xs, r.ys, a, b, ox, oy, s, t, c)
  {
    RunIsPlan(r, out);
    v := Mean(r.Geo(), r.Answers(), r.Tiles(), ox, oy);
    forall c: nat
      ensures Channel(v, c) == Mixed(r.Geo(), r.Answers(), r.xs, r.ys, a, b, ox, oy, s, t, c)
    {
      MeanIsMixed(r.Geo(), r.Answers(), r.xs, r.ys, ox, oy, a, s, b, t, c);
    }
  }

  lemma NoShare(x: real, t: real)
    ensures x * (t * (1.0 - 1.0)) == 0.0
  {
  }

  lemma MixAcross(p: V3, q: V3, m: V3, n: V3, s: real, c: nat)
    ensures Mix(p, q, m, n, s, 1.0, c) == Channel(p, c) * s + Channel(q, c) * (1.0 - s)
  {
    NoShare(Channel(m, c), s);
    NoShare(Channel(n, c), 1.0 - s);
  }

  lemma MixDown(p: V3, q: V3, m: V3, n: V3, t: real, c: nat)
    ensures Mix(p, q, m, n, 1.0, t, c) == Channel(p, c) * t + Channel(m, c) * (1.0 - t)
  {
  }

  lemma MixedAcross(g: Geometry, p: Prediction, xs: seq<int>, ys: seq<int>, a: nat, b: nat, ox: int, oy: int, s: real,
                    c: nat)
    ensures Mixed(g, p, xs, ys, a, b, ox, oy, s, 1.0, c)
         == Channel(ValueAt(g, p, xs, ys, a, b, ox, oy), c) * s
            + Channel(ValueAt(g, p, xs, ys, a + 1, b, ox, oy), c) * (1.0 - s)
  {
    MixAcross(ValueAt(g, p, xs, ys, a, b, ox, oy), ValueAt(g, p, xs, ys, a + 1, b, ox, oy),
              ValueAt(g, p, xs, ys, a, b + 1, ox, oy), ValueAt(g, p, xs, ys, a + 1, b + 1, ox, oy), s, c);
  }

  lemma MixedDown(g: Geometry, p: Prediction, xs: seq<int>, ys: seq<int>, a: nat, b: nat, ox: int, oy: int, t: real,
                  c: nat)
    ensures Mixed(g, p, xs, ys, a, b, ox, oy, 1.0, t, c)
         == Channel(ValueAt(g, p, xs, ys, a, b, ox, oy), c) * t
            + Channel(ValueAt(g, p, xs, ys, a, b + 1, ox, oy), c) * (1.0 - t)
  {
    MixDown(ValueAt(g, p, xs, ys, a, b, ox, oy), ValueAt(g, p, xs, ys, a + 1, b, ox, oy),
            ValueAt(g, p, xs, ys, a, b + 1, ox, oy), ValueAt(g, p, xs, ys, a + 1, b + 1, ox, oy), t, c);
  }

  /** s is what a tile keeps at place k of the ov places it shares with the next. */
  predicate IsFadingOut(s: real, k: nat, ov: nat) { k < ov && s == (ov - k) as real / (ov + 1) as real }

  lemma NeighboursShare(xs: seq<int>, tile: nat, overlap: nat, scale: nat, o: int, i: nat, k: nat) returns (s: real)
    requires k < overlap * scale <= 999 && i + 1 < |xs| && xs[i+1] == xs[i] + tile - overlap
    requires o == xs[i+1] * scale + k && (i + 2 < |xs| ==> o < xs[i+2] * scale)
    ensures HasShare(xs, tile, overlap, scale, o, i, s) && IsFadingOut(s, k, overlap * scale)
  {
    s := (overlap * scale - k) as real / (overlap * scale + 1) as real;
  }

  /** At place k of ov shared places, p fades out and q fades in. */
  function CrossFade(p: V3, q: V3, k: nat, ov: nat, c: nat): real
    requires k < ov
  {
    Channel(p, c) * ((ov - k) as real / (ov + 1) as real) + Channel(q, c) * ((k + 1) as real / (ov + 1) as real)
  }

  lemma FadeIs(p: V3, q: V3, k: nat, ov: nat, s: real, c: nat)
    requires IsFadingOut(s, k, ov)
    ensures CrossFade(p, q, k, ov, c) == Channel(p, c) * s + Channel(q, c) * (1.0 - s)
  {
    var d := (ov + 1) as real;
    assert (ov - k) as real / d + (k + 1) as real / d == ((ov - k) as real + (k + 1) as real) / d == 1.0;
  }

  lemma FadesAcross(g: Geometry, p: Prediction, xs: seq<int>, ys: seq<int>, a: nat, b: nat, ox: int, oy: int, k: nat,
                    ov: nat, s: real, c: nat)
    requires IsFadingOut(s, k, ov)
    ensures Mixed(g, p, xs, ys, a, b, ox, oy, s, 1.0, c)
         == CrossFade(ValueAt(g, p, xs, ys, a, b, ox, oy), ValueAt(g, p, xs, ys, a + 1, b, ox, oy), k, ov, c)
  {
    FadeIs(ValueAt(g, p, xs, ys, a, b, ox, oy), ValueAt(g, p, xs, ys, a + 1, b, ox, oy), k, ov, s, c);
    MixedAcross(g, p, xs, ys, a, b, ox, oy, s, c);
  }

  lemma FadesDown(g: Geometry, p: Prediction, xs: seq<int>, ys: seq<int>, a: nat, b: nat, ox: int, oy: int, k: nat,
                  ov: nat, t: real, c: nat)
    requires IsFadingOut(t, k, ov)
    ensures Mixed(g, p, xs, ys, a, b, ox, oy, 1.0, t, c)
         == CrossFade(ValueAt(g, p, xs, ys, a, b, ox, oy), ValueAt(g, p, xs, ys, a, b + 1, ox, oy), k, ov, c)
  {
    FadeIs(ValueAt(g, p, xs, ys, a, b, ox, oy), ValueAt(g, p, xs, ys, a, b + 1, ox, oy), k, ov, t, c);
    MixedDown(g, p, xs, ys, a, b, ox, oy, t, c);
  }

  lemma WholeShare(xs: seq<int>, tile: nat, overlap: nat, scale: nat, o: int, i: nat)
    requires OneTile(xs, tile * scale, scale, o, i)
    ensures HasShare(xs, tile, overlap, scale, o, i, 1.0)
  {
  }

  /** Two neighbours in a row of tiles fade into each other over their overlap * scale shared columns: at column k of
      them the left one keeps (ov - k)/(ov + 1) and the right one has (k + 1)/(ov + 1). */
  lemma NeighboursFadeAcross(r: Run, out: Grid<Rgb>, i: nat, j: nat, k: nat, ox: nat, oy: nat) returns (v: V3)
    requires IsUpscaled(r, out) && out.Has(ox, oy) && k < r.overlap * r.scale <= 999
    requires i + 1 < |r.xs| && r.xs[i+1] == r.xs[i] + r.tile - r.overlap && ox == r.xs[i+1] * r.scale + k
    requires i + 2 < |r.xs| ==> ox < r.xs[i+2] * r.scale
    requires OneTile(r.ys, r.tile * r.scale, r.scale, oy, j)
    ensures out.At(ox, oy) == QuantisePixel(v)
    ensures forall c: nat ::
              Channel(v, c) == CrossFade(TilePrediction(r, i, j, ox, oy), TilePrediction(r, i + 1, j, ox, oy), k,
                                         r.overlap * r.scale, c)
  {
    var s := NeighboursShare(r.xs, r.tile, r.overlap, r.scale, ox, i, k);
    WholeShare(r.ys, r.tile, r.overlap, r.scale, oy, j);
    v := PixelIsMixed(r, out, ox, oy, i, s, j, 1.0);
    forall c: nat
      ensures Channel(v, c) == CrossFade(TilePrediction(r, i, j, ox, oy), TilePrediction(r, i + 1, j, ox, oy), k,
                                         r.overlap * r.scale, c)
    {
      FadesAcross(r.Geo(), r.Answers(), r.xs, r.ys, i, j, ox, oy, k, r.overlap * r.scale, s, c);
    }
  }

  /** And so do two neighbours in a column of tiles over their shared rows. */
  lemma NeighboursFadeDown(r: Run, out: Grid<Rgb>, i: nat, j: nat, k: nat, ox: nat, oy: nat) returns (v: V3)
    requires IsUpscaled(r, out) && out.Has(ox, oy) && k < r.overlap * r.scale <= 999
    requires j + 1 < |r.ys| && r.ys[j+1] == r.ys[j] + r.tile - r.overlap && oy == r.ys[j+1] * r.scale + k
    requires j + 2 < |r.ys| ==> oy < r.ys[j+2] * r.scale
    requires OneTile(r.xs, r.tile * r.scale, r.scale, ox, i)
    ensures out.At(ox, oy) == QuantisePixel(v)
    ensures forall c: nat ::
              Channel(v, c) == CrossFade(TilePrediction(r, i, j, ox, oy), TilePrediction(r, i, j + 1, ox, oy), k,
                                         r.overlap * r.scale, c)
  {
    var t := NeighboursShare(r.ys, r.tile, r.overlap, r.scale, oy, j, k);
    WholeShare(r.xs, r.tile, r.overlap, r.scale, ox, i);
    v := PixelIsMixed(r, out, ox, oy, i, 1.0, j, t);
    forall c: nat
      ensures Channel(v, c) == CrossFade(TilePrediction(r, i, j, ox, oy), TilePrediction(r, i, j + 1, ox, oy), k,
                                         r.overlap * r.scale, c)
    {
      FadesDown(r.Geo(), r.Answers(), r.xs, r.ys, i, j, ox, oy, k, r.overlap * r.scale, t, c);
    }
  }

  /** What a single tile reaches is that tile's prediction, counted from the tile's place in the output. */
  lemma OneTileIsCopied(r: Run, out: Grid<Rgb>, i: nat, j: nat, ox: nat, oy: nat)
    requires IsUpscaled(r, out) && out.Has(ox, oy)
    requires OneTile(r.xs, r.tile * r.scale, r.scale, ox, i) && OneTile(r.ys, r.tile * r.scale, r.scale, oy, j)
    ensures out.At(ox, oy) == QuantisePixel(TilePrediction(r, i, j, ox, oy))
  {
    var v := PixelIsMixed(r, out, ox, oy, i, 1.0, j, 1.0);
    forall c: nat
      ensures Channel(v, c) == Channel(TilePrediction(r, i, j, ox, oy), c)
    {
      MixedAcross(r.Geo(), r.Answers(), r.xs, r.ys, i, j, ox, oy, 1.0, c);
    }
    SameChannels(v, TilePrediction(r, i, j, ox, oy));
  }

  lemma SameChannels(p: V3, q: V3)
    requires forall c: nat :: Channel(p, c) == Channel(q, c)
    ensures p == q
  {
    assert Channel(p, 0) == Channel(q, 0) && Channel(p, 1) == Channel(q, 1) && Channel(p, 2) == Channel(q, 2);
  }

  /** That prediction is what the model answers for the tile, read where the pixel lies in it. */
  lemma PredictionIsTheModels(r: Run, out: Grid<Rgb>, i: nat, j: nat, ox: nat, oy: nat)
    requires IsUpscaled(r, out) && i < |r.xs| && j < |r.ys|
    requires Reaches(r.xs[i], r.tile * r.scale, r.scale, ox) && Reaches(r.ys[j], r.tile * r.scale, r.scale, oy)
    ensures var answer := r.model(Extracted(r.rgb, r.xs[i], r.ys[j], r.tile));
            var x, y := ox - r.xs[i] * r.scale, oy - r.ys[j] * r.scale;
            answer.Some? && answer.value.Has(x, y) && TilePrediction(r, i, j, ox, oy) == answer.value.At(x, y)
  {
    var k := TileOfAxes(r.xs, r.ys, i, j);
    assert r.Tiles()[k] == Tile(r.xs[i], r.ys[j]);
  }

  /** Between 0 and 1 a value becomes the last byte that is no more than it; below that the first, beyond it the
      last. */
  lemma QuantiseIs(v: real, n: U8)
    ensures n == Quantise(v)
       <==> (n as real <= 255.0 * v || n == 0) && (255.0 * v < n as real + 1.0 || n == 255)
  {
  }
}
