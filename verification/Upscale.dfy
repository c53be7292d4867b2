/** Tiled super-resolution (upscale.rs).

    The neural model is an arbitrary partial function from a tile to its prediction; a failed run is None.
    Weights and predictions are exact reals.
 */
module Upscale {
  import opened Images

  datatype Option<T> = None | Some(value: T)
  datatype Result<T> = Ok(value: T) | Err(error: string)

  /** A predicted pixel, one real per channel. */
  datatype V3 = V3(r: real, g: real, b: real)

  function AddScaled(p: V3, d: V3, w: real): V3 { V3(p.r + d.r * w, p.g + d.g * w, p.b + d.b * w) }
  function Channel(p: V3, c: nat): real { if c == 0 then p.r else if c == 1 then p.g else p.b }

  function Min(a: int, b: int): int { if a < b then a else b }

  // ---- tile origins ----

  /** Each origin is one step after the one before, or the last possible origin if that is nearer. */
  ghost predicate IsTiling(xs: seq<int>, len: nat, tile: nat, step: nat) {
    && |xs| > 0 && xs[0] == 0
    && (len <= tile ==> |xs| == 1)
    && (len > tile ==> xs[|xs|-1] == len - tile)
    && forall i, k | 0 <= i < k < |xs| && k == i + 1 :: xs[i] < xs[k] && xs[k] == Min(xs[i] + step, len - tile)
  }

  method TileOrigins(len: nat, tile: nat, step: nat) returns (origins: seq<int>)
    requires step > 0
    ensures IsTiling(origins, len, tile, step)
  {
    if len <= tile {
      return [0];
    }
    origins := [];
    var x := 0;
    while true
      invariant 0 <= x <= len - tile
      invariant |origins| == 0 ==> x == 0
      invariant |origins| > 0 ==>
                  origins[0] == 0 && origins[|origins|-1] < x && x == Min(origins[|origins|-1] + step, len - tile)
      invariant forall i, k | 0 <= i < k < |origins| && k == i + 1 ::
                  origins[i] < origins[k] && origins[k] == Min(origins[i] + step, len - tile)
      decreases len - tile - x
    {
      origins := origins + [x];
      if x + tile >= len { break; }
      x := Min(x + step, len - tile);
    }
  }

  lemma {:induction false} OriginsAscend(xs: seq<int>, len: nat, tile: nat, step: nat, i: nat, k: nat)
    requires IsTiling(xs, len, tile, step) && i < k < |xs|
    ensures xs[i] < xs[k]
    decreases k - i
  {
    if i + 1 < k {
      OriginsAscend(xs, len, tile, step, i, k - 1);
    }
  }

  /** No tile hangs over the far edge unless the image is smaller than one tile. */
  lemma OriginsFit(xs: seq<int>, len: nat, tile: nat, step: nat, i: nat)
    requires IsTiling(xs, len, tile, step) && i < |xs|
    ensures 0 <= xs[i] && (len > tile ==> xs[i] + tile <= len)
  {
    if 0 < i { OriginsAscend(xs, len, tile, step, 0, i); }
    if i < |xs| - 1 { OriginsAscend(xs, len, tile, step, i, |xs| - 1); }
  }

  /** Steps no longer than a tile leave no gaps: every position lies in some tile. */
  lemma {:induction false} OriginsCover(xs: seq<int>, len: nat, tile: nat, step: nat, p: nat, last: nat)
    returns (i: nat)
    requires IsTiling(xs, len, tile, step) && 0 < step <= tile && p < len
    requires last < |xs| && p < xs[last] + tile
    ensures i < |xs| && xs[i] <= p < xs[i] + tile
    decreases last
  {
    if xs[last] <= p {
      i := last;
    } else {
      i := OriginsCover(xs, len, tile, step, p, last - 1);
    }
  }

  // ---- tiles and weights ----

  function ExtractedPixel(rgb: Grid<Rgb>, x0: int, y0: int, dx: int, dy: int): Rgb
    requires rgb.w > 0 && rgb.h > 0 && 0 <= x0 && 0 <= y0 && 0 <= dx && 0 <= dy
  {
    rgb.At(Min(x0 + dx, rgb.w - 1), Min(y0 + dy, rgb.h - 1))
  }

  /** The tile at (x0, y0), reads past the edge taking the edge pixel. */
  function Extracted(rgb: Grid<Rgb>, x0: int, y0: int, tile: nat): (out: Grid<Rgb>)
    requires rgb.w > 0 && rgb.h > 0 && 0 <= x0 && 0 <= y0
    ensures out.w == tile && out.h == tile
    ensures forall dx, dy | out.Has(dx, dy) :: out.At(dx, dy) == ExtractedPixel(rgb, x0, y0, dx, dy)
  {
    Tabulate(tile, tile, (dx, dy) => if 0 <= dx && 0 <= dy then ExtractedPixel(rgb, x0, y0, dx, dy) else Black)
  }

  method ExtractTile(rgb: Grid<Rgb>, x0: int, y0: int, tile: nat) returns (out: Grid<Rgb>)
    requires rgb.w > 0 && rgb.h > 0 && 0 <= x0 && 0 <= y0
    ensures out == Extracted(rgb, x0, y0, tile)
  {
    var buf := new Rgb[tile, tile]((_, _) => Black);
    for dy := 0 to tile
      invariant forall v, u | 0 <= v < dy && 0 <= u < tile :: buf[v, u] == ExtractedPixel(rgb, x0, y0, u, v)
    {
      var sy := Min(y0 + dy, rgb.h - 1);
      for dx := 0 to tile
        invariant forall v, u | 0 <= v < dy && 0 <= u < tile :: buf[v, u] == ExtractedPixel(rgb, x0, y0, u, v)
        invariant forall u | 0 <= u < dx :: buf[dy, u] == ExtractedPixel(rgb, x0, y0, u, dy)
      {
        var sx := Min(x0 + dx, rgb.w - 1);
        buf[dy, dx] := rgb.At(sx, sy);
      }
    }
    out := Freeze(buf);
    GridsEqual(out, Extracted(rgb, x0, y0, tile));
  }

  /** Full weight inside; towards a neighbouring tile the weight falls off linearly over the overlap. */
  function EdgeRamp(pos: int, len: int, overlap: int, touchesStart: bool, touchesEnd: bool): real
    requires overlap >= 0
  {
    if overlap == 0 then 1.0
    else
      var w := if !touchesStart && pos < overlap then (pos as real + 1.0) / (overlap as real + 1.0) else 1.0;
      var v := if !touchesEnd && pos + overlap >= len
        then w * (((len - 1 - pos) as real + 1.0) / (overlap as real + 1.0)) else w;
      if v < 0.001 then 0.001 else v
  }

  lemma FractionAtMostOne(p: real, q: real)
    requires 0.0 <= p <= q && q > 0.0
    ensures 0.0 <= p / q <= 1.0
  {
  }

  /** Weights are positive and at most 1, and exactly 1 away from both ends. */
  lemma RampBounds(pos: int, len: int, overlap: int, touchesStart: bool, touchesEnd: bool)
    requires overlap >= 0 && 0 <= pos < len
    ensures 0.001 <= EdgeRamp(pos, len, overlap, touchesStart, touchesEnd) <= 1.0
    ensures overlap <= pos < len - overlap ==> EdgeRamp(pos, len, overlap, touchesStart, touchesEnd) == 1.0
  {
    if overlap > 0 {
      var d := overlap as real + 1.0;
      var w := if !touchesStart && pos < overlap then (pos as real + 1.0) / d else 1.0;
      var f := ((len - 1 - pos) as real + 1.0) / d;
      if pos < overlap { FractionAtMostOne(pos as real + 1.0, d); }
      assert 0.0 <= w <= 1.0;
      var v := if !touchesEnd && pos + overlap >= len then w * f else w;
      if pos + overlap >= len {
        FractionAtMostOne((len - 1 - pos) as real + 1.0, d);
        ProductAtMostOne(w, f);
      }
      assert EdgeRamp(pos, len, overlap, touchesStart, touchesEnd) == if v < 0.001 then 0.001 else v;
    }
  }

  lemma ProductAtMostOne(w: real, f: real)
    requires 0.0 <= w <= 1.0 && 0.0 <= f <= 1.0
    ensures 0.0 <= w * f
    ensures w * f <= f
    ensures w * f <= 1.0
  {
    ProductNonNegative(w, f);
    ProductNonNegative(1.0 - w, f);
    assert (1.0 - w) * f == f - w * f;
  }

  lemma ProductNonNegative(a: real, b: real)
    requires a >= 0.0 && b >= 0.0
    ensures a * b >= 0.0
  {
  }

  /** Where one tile fades out and the next fades in over the same overlap, the two weights add up to 1. */
  lemma RampsAreComplementary(len: int, overlap: int, k: int, start: bool, end: bool)
    requires 0 <= k < overlap <= 999 && 2 * overlap < len
    ensures EdgeRamp(len - overlap + k, len, overlap, start, false) + EdgeRamp(k, len, overlap, false, end) == 1.0
  {
    var d := overlap as real + 1.0;
    var out, into := (overlap - k) as real / d, (k + 1) as real / d;
    AtLeastOverThousand((overlap - k) as real, d);
    AtLeastOverThousand((k + 1) as real, d);
    assert out + into == ((overlap - k) as real + (k + 1) as real) / d == 1.0;
    assert (len - 1 - (len - overlap + k)) as real + 1.0 == (overlap - k) as real;
    assert k as real + 1.0 == (k + 1) as real;
  }

  lemma AtLeastOverThousand(p: real, d: real)
    requires p >= 1.0 && 0.0 < d <= 1000.0
    ensures p / d >= 0.001
  {
  }

  // ---- accumulation ----

  /** Everything about a run that does not change from tile to tile; `side` is the edge of a predicted tile. */
  datatype Geometry = Geometry(srcW: nat, srcH: nat, tile: nat, overlap: nat, scale: nat, side: nat)

  datatype Tile = Tile(x0: nat, y0: nat)

  /** Where a predicted tile lands in the output, and which of its sides border no other tile. */
  datatype Placement = Placement(left: nat, top: nat, side: nat, overlap: nat,
                                 touchesLeft: bool, touchesRight: bool, touchesTop: bool, touchesBottom: bool) {
    predicate Covers(ox: int, oy: int) {
      left <= ox < left + side && top <= oy < top + side
    }

    function WeightX(ox: int): real { EdgeRamp(ox - left, side, overlap, touchesLeft, touchesRight) }
    function WeightY(oy: int): real { EdgeRamp(oy - top, side, overlap, touchesTop, touchesBottom) }
    function Weight(ox: int, oy: int): real { WeightX(ox) * WeightY(oy) }
  }

  function Place(g: Geometry, t: Tile): Placement {
    Placement(t.x0 * g.scale, t.y0 * g.scale, g.side, g.overlap * g.scale,
              t.x0 == 0, t.x0 + g.tile >= g.srcW, t.y0 == 0, t.y0 + g.tile >= g.srcH)
  }

  predicate CoversPixel(g: Geometry, t: Tile, ox: int, oy: int) { Place(g, t).Covers(ox, oy) }
  function Weight(g: Geometry, t: Tile, ox: int, oy: int): real { Place(g, t).Weight(ox, oy) }

  type Prediction = Tile -> Grid<V3>

  /** What tile t predicts for output pixel (ox, oy). */
  function Predicted(g: Geometry, p: Prediction, t: Tile, ox: int, oy: int): V3
    requires CoversPixel(g, t, ox, oy) && p(t).w == g.side && p(t).h == g.side
  {
    p(t).At(ox - Place(g, t).left, oy - Place(g, t).top)
  }

  ghost predicate SquareTiles(g: Geometry, p: Prediction, tiles: seq<Tile>) {
    forall i | 0 <= i < |tiles| :: p(tiles[i]).w == g.side && p(tiles[i]).h == g.side
  }

  /** Total weight and weighted sum at (ox, oy) after the given tiles. */
  ghost function WeightSum(g: Geometry, tiles: seq<Tile>, ox: int, oy: int): real {
    if tiles == [] then 0.0
    else
      var t := tiles[|tiles|-1];
      WeightSum(g, tiles[..|tiles|-1], ox, oy) + if CoversPixel(g, t, ox, oy) then Weight(g, t, ox, oy) else 0.0
  }

  ghost function ValueSum(g: Geometry, p: Prediction, tiles: seq<Tile>, ox: int, oy: int): V3
    requires SquareTiles(g, p, tiles)
  {
    if tiles == [] then V3(0.0, 0.0, 0.0)
    else
      var t, before := tiles[|tiles|-1], ValueSum(g, p, tiles[..|tiles|-1], ox, oy);
      if CoversPixel(g, t, ox, oy) then AddScaled(before, Predicted(g, p, t, ox, oy), Weight(g, t, ox, oy)) else before
  }

  lemma {:induction false} SumsSnoc(g: Geometry, p: Prediction, tiles: seq<Tile>, t: Tile, ox: int, oy: int)
    requires SquareTiles(g, p, tiles) && p(t).w == g.side && p(t).h == g.side
    ensures SquareTiles(g, p, tiles + [t])
    ensures WeightSum(g, tiles + [t], ox, oy)
         == WeightSum(g, tiles, ox, oy) + if CoversPixel(g, t, ox, oy) then Weight(g, t, ox, oy) else 0.0
    ensures ValueSum(g, p, tiles + [t], ox, oy)
         == if CoversPixel(g, t, ox, oy)
           then AddScaled(ValueSum(g, p, tiles, ox, oy), Predicted(g, p, t, ox, oy), Weight(g, t, ox, oy))
            else ValueSum(g, p, tiles, ox, oy)
  {
    assert (tiles + [t])[..|tiles|] == tiles;
  }

  /** One output pixel after a tile gave it value d with weight w. */
  ghost predicate Gained(w0: real, a0: V3, w1: real, a1: V3, d: V3, w: real) {
    w1 == w0 + w && a1 == AddScaled(a0, d, w)
  }

  /** One row of the innermost loop; `weight` is the tile's weight as a function of the output pixel. */
  method AccumulateRow(acc: array2<V3>, wsum: array2<real>, data: Grid<V3>, pl: Placement, dy: nat, oy: nat,
                       ghost weight: (int, int) -> real)
    requires acc.Length0 == wsum.Length0 && acc.Length1 == wsum.Length1
    requires data.w == pl.side && data.h == pl.side && dy < pl.side && oy == pl.top + dy < acc.Length0
    requires forall ox | 0 <= ox < acc.Length1 && pl.Covers(ox, oy) :: weight(ox, oy) == pl.Weight(ox, oy)
    modifies acc, wsum
    ensures forall v, ox | 0 <= v < acc.Length0 && 0 <= ox < acc.Length1
            && !(v == oy && pl.left <= ox < pl.left + pl.side) ::
              wsum[v, ox] == old(wsum[v, ox]) && acc[v, ox] == old(acc[v, ox])
    ensures forall ox | 0 <= ox < acc.Length1 && pl.left <= ox < pl.left + pl.side ::
              Gained(old(wsum[oy, ox]), old(acc[oy, ox]), wsum[oy, ox], acc[oy, ox], data.At(ox - pl.left, dy),
                     weight(ox, oy))
  {
    var wy := EdgeRamp(dy, pl.side, pl.overlap, pl.touchesTop, pl.touchesBottom);
    for dx := 0 to pl.side
      invariant forall v, ox | 0 <= v < acc.Length0 && 0 <= ox < acc.Length1
                && !(v == oy && pl.left <= ox < pl.left + dx) ::
                  wsum[v, ox] == old(wsum[v, ox]) && acc[v, ox] == old(acc[v, ox])
      invariant forall ox | 0 <= ox < acc.Length1 && pl.left <= ox < pl.left + dx ::
                  Gained(old(wsum[oy, ox]), old(acc[oy, ox]), wsum[oy, ox], acc[oy, ox], data.At(ox - pl.left, dy),
                         weight(ox, oy))
    {
      var ox := pl.left + dx;
      if ox < acc.Length1 {
        var wx := EdgeRamp(dx, pl.side, pl.overlap, pl.touchesLeft, pl.touchesRight);
        var w := wx * wy;
        WeightAt(pl, dx, dy, ox, oy);
        assert pl.Covers(ox, oy);
        assert w == weight(ox, oy);
        acc[oy, ox] := AddScaled(acc[oy, ox], data.At(dx, dy), w);
        wsum[oy, ox] := wsum[oy, ox] + w;
      }
    }
  }

  lemma WeightAt(pl: Placement, dx: int, dy: int, ox: int, oy: int)
    requires ox == pl.left + dx && oy == pl.top + dy
    ensures pl.Weight(ox, oy) == EdgeRamp(dx, pl.side, pl.overlap, pl.touchesLeft, pl.touchesRight)
                                 * EdgeRamp(dy, pl.side, pl.overlap, pl.touchesTop, pl.touchesBottom)
  {
  }

  /** One tile's prediction is added with its weights, pixel by pixel. */
  method AccumulateTile(acc: array2<V3>, wsum: array2<real>, data: Grid<V3>, pl: Placement,
                        ghost weight: (int, int) -> real)
    requires acc.Length0 == wsum.Length0 && acc.Length1 == wsum.Length1
    requires data.w == pl.side && data.h == pl.side
    requires forall ox, oy | pl.Covers(ox, oy) :: weight(ox, oy) == pl.Weight(ox, oy)
    modifies acc, wsum
    ensures forall oy, ox | 0 <= oy < acc.Length0 && 0 <= ox < acc.Length1 && !pl.Covers(ox, oy) ::
              wsum[oy, ox] == old(wsum[oy, ox]) && acc[oy, ox] == old(acc[oy, ox])
    ensures forall oy, ox | 0 <= oy < acc.Length0 && 0 <= ox < acc.Length1 && pl.Covers(ox, oy) ::
              Gained(old(wsum[oy, ox]), old(acc[oy, ox]), wsum[oy, ox], acc[oy, ox],
                     data.At(ox - pl.left, oy - pl.top), weight(ox, oy))
  {
    for dy := 0 to pl.side
      invariant forall oy, ox | 0 <= oy < acc.Length0 && 0 <= ox < acc.Length1
                && !(pl.Covers(ox, oy) && oy - pl.top < dy) ::
                  wsum[oy, ox] == old(wsum[oy, ox]) && acc[oy, ox] == old(acc[oy, ox])
      invariant forall oy, ox | 0 <= oy < acc.Length0 && 0 <= ox < acc.Length1 && pl.Covers(ox, oy)
                && oy - pl.top < dy ::
                  Gained(old(wsum[oy, ox]), old(acc[oy, ox]), wsum[oy, ox], acc[oy, ox],
                         data.At(ox - pl.left, oy - pl.top), weight(ox, oy))
    {
      if pl.top + dy < acc.Length0 {
        AccumulateRow(acc, wsum, data, pl, dy, pl.top + dy, weight);
      }
    }
  }

  // ---- a whole run ----

  /** The model run on the tile at t. */
  type Model = Grid<Rgb> -> Option<Grid<V3>>

  /** The first i tiles of row j, after all tiles of earlier rows: the order of the nested loops. */
  function TilesUpTo(xs: seq<int>, ys: seq<int>, j: nat, i: nat): (tiles: seq<Tile>)
    requires i <= |xs| && (j < |ys| || (j == |ys| && i == 0))
    requires (forall k | 0 <= k < |xs| :: xs[k] >= 0) && (forall k | 0 <= k < |ys| :: ys[k] >= 0)
    decreases j, i
  {
    if i > 0 then TilesUpTo(xs, ys, j, i - 1) + [Tile(xs[i-1], ys[j])]
    else if j > 0 then TilesUpTo(xs, ys, j - 1, |xs|)
    else []
  }

  lemma {:induction false} TilesContain(xs: seq<int>, ys: seq<int>, j: nat, i: nat, b: nat, a: nat)
    requires i <= |xs| && (j < |ys| || (j == |ys| && i == 0))
    requires (forall k | 0 <= k < |xs| :: xs[k] >= 0) && (forall k | 0 <= k < |ys| :: ys[k] >= 0)
    requires a < |xs| && b < |ys| && (b < j || (b == j && a < i))
    ensures Tile(xs[a], ys[b]) in TilesUpTo(xs, ys, j, i)
    decreases j, i
  {
    if i > 0 {
      if !(b == j && a == i - 1) { TilesContain(xs, ys, j, i - 1, b, a); }
    } else if j > 0 {
      TilesContain(xs, ys, j - 1, |xs|, b, a);
    }
  }

  function Clamp01(v: real): real { if v < 0.0 then 0.0 else if v > 1.0 then 1.0 else v }
  function Quantise(v: real): U8 { (Clamp01(v) * 255.0).Floor }
  function QuantisePixel(p: V3): Rgb { Rgb(Quantise(p.r), Quantise(p.g), Quantise(p.b)) }

  function Normalised(sum: V3, w: real): V3 {
    var d := if w > 0.000001 then w else 0.000001;
    V3(sum.r / d, sum.g / d, sum.b / d)
  }

  /** The closing loop: divide by the total weight and quantise. */
  method Normalise(acc: array2<V3>, wsum: array2<real>) returns (out: Grid<Rgb>)
    requires acc.Length0 == wsum.Length0 && acc.Length1 == wsum.Length1
    ensures out.w == acc.Length1 && out.h == acc.Length0
    ensures forall x, y | out.Has(x, y) :: out.At(x, y) == QuantisePixel(Normalised(acc[y, x], wsum[y, x]))
  {
    var w, h := acc.Length1, acc.Length0;
    var buf := new Rgb[h, w]((_, _) => Black);
    for y := 0 to h
      invariant forall v, u | 0 <= v < y && 0 <= u < w :: buf[v, u] == QuantisePixel(Normalised(acc[v, u], wsum[v, u]))
    {
      for x := 0 to w
        invariant forall v, u | 0 <= v < y && 0 <= u < w ::
                    buf[v, u] == QuantisePixel(Normalised(acc[v, u], wsum[v, u]))
        invariant forall u | 0 <= u < x :: buf[y, u] == QuantisePixel(Normalised(acc[y, u], wsum[y, u]))
      {
        buf[y, x] := QuantisePixel(Normalised(acc[y, x], wsum[y, x]));
      }
    }
    out := Freeze(buf);
  }

  /** The weighted mean of the predictions at an output pixel, with the code's guard on the divisor. */
  ghost function Mean(g: Geometry, p: Prediction, tiles: seq<Tile>, ox: int, oy: int): V3
    requires SquareTiles(g, p, tiles)
  {
    Normalised(ValueSum(g, p, tiles, ox, oy), WeightSum(g, tiles, ox, oy))
  }

  ghost predicate Accumulated(g: Geometry, p: Prediction, tiles: seq<Tile>, acc: array2<V3>, wsum: array2<real>)
    reads acc, wsum
  {
    && acc.Length0 == wsum.Length0 && acc.Length1 == wsum.Length1 && SquareTiles(g, p, tiles)
    && (forall oy, ox | 0 <= oy < acc.Length0 && 0 <= ox < acc.Length1 :: acc[oy, ox] == ValueSum(g, p, tiles, ox, oy))
    && (forall oy, ox | 0 <= oy < acc.Length0 && 0 <= ox < acc.Length1 :: wsum[oy, ox] == WeightSum(g, tiles, ox, oy))
  }

  method AddTile(acc: array2<V3>, wsum: array2<real>, data: Grid<V3>, g: Geometry, ghost p: Prediction,
                 ghost tiles: seq<Tile>, t: Tile)
    requires acc.Length0 == wsum.Length0 && acc.Length1 == wsum.Length1
    requires Accumulated(g, p, tiles, acc, wsum)
    requires data == p(t) && data.w == g.side && data.h == g.side
    modifies acc, wsum
    ensures Accumulated(g, p, tiles + [t], acc, wsum)
  {
    AccumulateTile(acc, wsum, data, Place(g, t), (ox: int, oy: int) => Weight(g, t, ox, oy));
    forall oy, ox | 0 <= oy < acc.Length0 && 0 <= ox < acc.Length1
      ensures acc[oy, ox] == ValueSum(g, p, tiles + [t], ox, oy) && wsum[oy, ox] == WeightSum(g, tiles + [t], ox, oy)
    {
      SumsSnoc(g, p, tiles, t, ox, oy);
      if CoversPixel(g, t, ox, oy) {
        assert Gained(old(wsum[oy, ox]), old(acc[oy, ox]), wsum[oy, ox], acc[oy, ox],
                      data.At(ox - Place(g, t).left, oy - Place(g, t).top), Weight(g, t, ox, oy));
      }
    }
  }

  predicate IsTile(input: Grid<Rgb>, tile: nat) { input.w == tile && input.h == tile }

  /** Every run of the model on a tile that succeeds predicts an image of one size. */
  ghost predicate UniformModel(run: Model, tile: nat, side: nat, height: nat) {
    forall input: Grid<Rgb> | IsTile(input, tile) && run(input).Some? ::
      run(input).value.w == side && run(input).value.h == height
  }

  /** No run on a tile fails; on any other size a model may well fail. */
  ghost predicate SucceedsOnTiles(run: Model, tile: nat) {
    forall input: Grid<Rgb> | IsTile(input, tile) :: run(input).Some?
  }

  /** One call: its model, its image, the tile size and overlap it was asked for, and what it derives from them. */
  datatype Run = Run(model: Model, rgb: Grid<Rgb>, tile: nat, overlap: nat, scale: nat, side: nat, xs: seq<int>,
                     ys: seq<int>) {
    ghost predicate Valid() {
      && tile > 2 * overlap && rgb.w > 0 && rgb.h > 0
      && IsTiling(xs, rgb.w, tile, tile - overlap) && IsTiling(ys, rgb.h, tile, tile - overlap)
      && (forall k | 0 <= k < |xs| :: xs[k] >= 0) && (forall k | 0 <= k < |ys| :: ys[k] >= 0)
    }

    function Geo(): Geometry { Geometry(rgb.w, rgb.h, tile, overlap, scale, side) }

    function Predicts(t: Tile): Grid<V3>
      requires rgb.w > 0 && rgb.h > 0
    {
      match model(Extracted(rgb, t.x0, t.y0, tile)) case Some(v) => v case None => Grid(0, 0, [])
    }

    function Answers(): Prediction
      requires rgb.w > 0 && rgb.h > 0
    {
      (t: Tile) => Predicts(t)
    }

    /** The tiles in the order they are added. */
    function Tiles(): seq<Tile>
      requires (forall k | 0 <= k < |xs| :: xs[k] >= 0) && (forall k | 0 <= k < |ys| :: ys[k] >= 0)
    {
      TilesUpTo(xs, ys, |ys|, 0)
    }
  }

  predicate IsMultiple(side: nat, tile: nat, scale: nat) { side == tile * scale }

  /** Each pixel of `out` is the quantised mean of what the model predicts for it. */
  ghost predicate IsUpscaled(r: Run, out: Grid<Rgb>) {
    && r.Valid() && r.scale > 0 && IsMultiple(r.side, r.tile, r.scale)
    && out.w == r.rgb.w * r.scale && out.h == r.rgb.h * r.scale
    && AllRunsSucceed(r, r.Tiles())
    && SquareTiles(r.Geo(), r.Answers(), r.Tiles())
    && forall x, y | out.Has(x, y) :: out.At(x, y) == QuantisePixel(Mean(r.Geo(), r.Answers(), r.Tiles(), x, y))
  }

  ghost predicate AllRunsSucceed(r: Run, tiles: seq<Tile>)
    requires r.rgb.w > 0 && r.rgb.h > 0
  {
    forall i | 0 <= i < |tiles| :: r.model(Extracted(r.rgb, tiles[i].x0, tiles[i].y0, r.tile)).Some?
  }

  /** The call with these arguments, whose model predicts `side` by `height` images. */
  ghost predicate IsFor(r: Run, run: Model, rgb: Grid<Rgb>, tile: nat, overlap: nat, height: nat) {
    && r.Valid() && r.model == run && r.rgb == rgb && r.tile == tile && r.overlap == overlap
    && UniformModel(run, tile, r.side, height) && r.scale == r.side / r.tile
  }

  /** The state between two tiles: nothing is allocated before the first one. */
  ghost predicate Progress(r: Run, done: seq<Tile>, scale: nat, acc: array2<V3>, wsum: array2<real>)
    requires r.Valid()
    reads acc, wsum
  {
    && AllRunsSucceed(r, done)
    && (scale == 0 ==> done == [] || r.side == 0)
    && (scale > 0 ==>
          && scale == r.scale && IsMultiple(r.side, r.tile, scale)
          && acc.Length0 == r.rgb.h * scale && acc.Length1 == r.rgb.w * scale
          && Accumulated(r.Geo(), r.Answers(), done, acc, wsum))
  }

  /** The output buffers for the first prediction, all zero. */
  method NewBuffers(g: Geometry, ghost p: Prediction) returns (acc: array2<V3>, wsum: array2<real>)
    ensures fresh(acc) && fresh(wsum)
    ensures acc.Length0 == g.srcH * g.scale && acc.Length1 == g.srcW * g.scale
    ensures Accumulated(g, p, [], acc, wsum)
  {
    acc := new V3[g.srcH * g.scale, g.srcW * g.scale]((_, _) => V3(0.0, 0.0, 0.0));
    wsum := new real[g.srcH * g.scale, g.srcW * g.scale]((_, _) => 0.0);
  }

  lemma MultipleOfQuotient(side: nat, tile: nat)
    requires tile > 0 && side % tile == 0
    ensures IsMultiple(side, tile, side / tile)
    ensures side / tile == 0 ==> side == 0
  {
  }

  /** The body of the tile loop: run the model on one tile and add what it predicts. */
  method RunTile(run: Model, rgb: Grid<Rgb>, tile: nat, overlap: nat, t: Tile,
                 scale0: nat, acc0: array2<V3>, wsum0: array2<real>, ghost r: Run, ghost height: nat,
                 ghost done: seq<Tile>)
    returns (error: Option<string>, scale: nat, acc: array2<V3>, wsum: array2<real>)
    requires IsFor(r, run, rgb, tile, overlap, height)
    requires Progress(r, done, scale0, acc0, wsum0)
    requires scale0 > 0 ==> r.side == height
    modifies acc0, wsum0
    ensures (acc == acc0 && wsum == wsum0) || (fresh(acc) && fresh(wsum))
    ensures error.None? ==> r.side == height && Progress(r, done + [t], scale, acc, wsum)
    ensures (run(Extracted(rgb, t.x0, t.y0, tile)).Some? && r.side == height && r.side % tile == 0) ==> error.None?
  {
    scale, acc, wsum := scale0, acc0, wsum0;
    var tileImg := ExtractTile(rgb, t.x0, t.y0, tile);
    var outputs := run(tileImg);
    if outputs.None? { return Some("upscale session.run failed"), scale, acc, wsum; }
    var data := outputs.value;
    assert data == r.Predicts(t) && data.w == r.side && data.h == height;
    if scale == 0 {
      if !(data.w % tile == 0 && data.h == data.w) { return Some("unexpected upscale output size"), scale, acc, wsum; }
      MultipleOfQuotient(data.w, tile);
      scale := data.w / tile;
      acc, wsum := NewBuffers(Geometry(rgb.w, rgb.h, tile, overlap, scale, data.w), r.Answers());
      if scale == 0 {
        assert r.side == 0;
        return None, scale, acc, wsum;
      }
      assert done == [];
    }
    AddTile(acc, wsum, data, Geometry(rgb.w, rgb.h, tile, overlap, scale, data.w), r.Answers(), done, t);
    error := None;
  }

  /** The body of the inner loop: tile i of row j, unless the call was cancelled. */
  method RunNext(run: Model, rgb: Grid<Rgb>, tile: nat, overlap: nat, cancelled: nat -> bool, runs0: nat,
                 cols: seq<int>, rows: seq<int>, j: nat,
                 i: nat, scale0: nat, acc0: array2<V3>, wsum0: array2<real>, ghost r: Run, ghost height: nat)
    returns (error: Option<string>, runs: nat, scale: nat, acc: array2<V3>, wsum: array2<real>)
    requires IsFor(r, run, rgb, tile, overlap, height) && r.xs == cols && r.ys == rows
    requires i < |cols| && j < |rows| && runs0 == |TilesUpTo(cols, rows, j, i)|
    requires Progress(r, TilesUpTo(cols, rows, j, i), scale0, acc0, wsum0)
    requires scale0 > 0 ==> r.side == height
    modifies acc0, wsum0
    ensures (acc == acc0 && wsum == wsum0) || (fresh(acc) && fresh(wsum))
    ensures error.None? ==> runs == runs0 + 1 == |TilesUpTo(cols, rows, j, i + 1)| && !cancelled(runs0)
    ensures error.None? ==> r.side == height && Progress(r, TilesUpTo(cols, rows, j, i + 1), scale, acc, wsum)
    ensures !cancelled(runs0) && SucceedsOnTiles(run, tile) && r.side == height && r.side % tile == 0 ==> error.None?
  {
    scale, acc, wsum, runs := scale0, acc0, wsum0, runs0;
    if cancelled(runs) { return Some("upscale cancelled"), runs, scale, acc, wsum; }
    runs := runs + 1;
    ghost var done := TilesUpTo(cols, rows, j, i);
    assert done + [Tile(cols[i], rows[j])] == TilesUpTo(cols, rows, j, i + 1);
    error, scale, acc, wsum :=
      RunTile(run, rgb, tile, overlap, Tile(cols[i], rows[j]), scale, acc, wsum, r, height, done);
  }

  /** The inner tile loop: the tiles of row j. */
  method RunRow(run: Model, rgb: Grid<Rgb>, tile: nat, overlap: nat, cancelled: nat -> bool, runs0: nat,
                cols: seq<int>, rows: seq<int>, j: nat,
                scale0: nat, acc0: array2<V3>, wsum0: array2<real>, ghost r: Run, ghost height: nat)
    returns (error: Option<string>, runs: nat, scale: nat, acc: array2<V3>, wsum: array2<real>)
    requires IsFor(r, run, rgb, tile, overlap, height) && r.xs == cols && r.ys == rows
    requires j < |rows|
    requires Progress(r, TilesUpTo(cols, rows, j, 0), scale0, acc0, wsum0)
    requires (j == 0 && scale0 == 0) || r.side == height
    requires runs0 == |TilesUpTo(cols, rows, j, 0)|
    modifies acc0, wsum0
    ensures (acc == acc0 && wsum == wsum0) || (fresh(acc) && fresh(wsum))
    ensures error.None? ==> runs == |TilesUpTo(cols, rows, j + 1, 0)| && forall k | runs0 <= k < runs :: !cancelled(k)
    ensures error.None? ==> r.side == height && Progress(r, TilesUpTo(cols, rows, j + 1, 0), scale, acc, wsum)
    ensures ((forall k :: !cancelled(k)) && SucceedsOnTiles(run, tile) && r.side == height && r.side % tile == 0) ==>
              error.None?
  {
    scale, acc, wsum, runs := scale0, acc0, wsum0, runs0;
    for i := 0 to |cols|
      invariant (acc == acc0 && wsum == wsum0) || (fresh(acc) && fresh(wsum))
      invariant Progress(r, TilesUpTo(cols, rows, j, i), scale, acc, wsum)
      invariant (j == 0 && i == 0 && scale == 0) || r.side == height
      invariant runs == |TilesUpTo(cols, rows, j, i)| && forall k | runs0 <= k < runs :: !cancelled(k)
    {
      error, runs, scale, acc, wsum :=
        RunNext(run, rgb, tile, overlap, cancelled, runs, cols, rows, j, i, scale, acc, wsum, r, height);
      if error.Some? { return error, runs, scale, acc, wsum; }
    }
    error := None;
  }

  lemma RunIsComplete(r: Run, scale: nat, acc: array2<V3>, wsum: array2<real>, out: Grid<Rgb>)
    requires r.Valid() && scale > 0
    requires Progress(r, r.Tiles(), scale, acc, wsum)
    requires out.w == acc.Length1 && out.h == acc.Length0
    requires forall x, y | out.Has(x, y) :: out.At(x, y) == QuantisePixel(Normalised(acc[y, x], wsum[y, x]))
    ensures IsUpscaled(r, out)
  {
    var g, p, tiles := r.Geo(), r.Answers(), r.Tiles();
    forall x, y | out.Has(x, y)
      ensures out.At(x, y) == QuantisePixel(Mean(g, p, tiles, x, y))
    {
      assert acc[y, x] == ValueSum(g, p, tiles, x, y) && wsum[y, x] == WeightSum(g, tiles, x, y);
    }
  }

  /** The outer tile loop and the closing pass. */
  method RunAll(run: Model, rgb: Grid<Rgb>, tile: nat, overlap: nat, cancelled: nat -> bool, cols: seq<int>,
                rows: seq<int>, ghost r: Run, ghost height: nat)
    returns (result: Result<Grid<Rgb>>)
    requires IsFor(r, run, rgb, tile, overlap, height) && r.xs == cols && r.ys == rows
    ensures result.Ok? ==> IsUpscaled(r, result.value) && r.side == height
    ensures result.Ok? ==> forall k | 0 <= k < |r.Tiles()| :: !cancelled(k)
    ensures (&& (forall k :: !cancelled(k)) && SucceedsOnTiles(run, tile)
             && r.side == height > 0 && r.side % tile == 0) ==> result.Ok?
  {
    var scale := 0;
    var acc, wsum := new V3[0, 0], new real[0, 0];
    var runs := 0;
    for j := 0 to |rows|
      invariant fresh(acc) && fresh(wsum)
      invariant Progress(r, TilesUpTo(cols, rows, j, 0), scale, acc, wsum)
      invariant (j == 0 && scale == 0) || r.side == height
      invariant runs == |TilesUpTo(cols, rows, j, 0)| && forall k | 0 <= k < runs :: !cancelled(k)
    {
      var error: Option<string>;
      error, runs, scale, acc, wsum :=
        RunRow(run, rgb, tile, overlap, cancelled, runs, cols, rows, j, scale, acc, wsum, r, height);
      if error.Some? { return Err(error.value); }
    }
    if scale == 0 {
      TilesContain(cols, rows, |rows|, 0, 0, 0);
      return Err("upscale produced no tiles");
    }
    var out := Normalise(acc, wsum);
    RunIsComplete(r, scale, acc, wsum, out);
    result := Ok(out);
  }

  /** Runs the model tile by tile; `cancelled(k)` is the flag as read before the k-th run.
      The model's outputs are `side` wide and `height` high. */
  method UpscaleImage(run: Model, rgb: Grid<Rgb>, tile: nat, overlap: nat, cancelled: nat -> bool, ghost side: nat,
                      ghost height: nat)
    returns (result: Result<Grid<Rgb>>, ghost r: Run)
    requires UniformModel(run, tile, side, height)
    ensures (tile <= 2 * overlap || rgb.w == 0 || rgb.h == 0) ==> result.Err?
    ensures result.Ok? ==>
              IsUpscaled(r, result.value) && r.model == run && r.rgb == rgb && r.tile == tile && r.overlap == overlap
    ensures result.Ok? ==> r.side == side == height && forall k | 0 <= k < |r.Tiles()| :: !cancelled(k)
    ensures (&& (forall k :: !cancelled(k)) && SucceedsOnTiles(run, tile)
             && tile > 2 * overlap && rgb.w > 0 && rgb.h > 0 && side == height > 0 && side % tile == 0) ==> result.Ok?
  {
    r := Run(run, rgb, tile, overlap, 0, side, [], []);
    if tile <= 2 * overlap { return Err("tile must exceed 2x overlap"), r; }
    if rgb.w == 0 || rgb.h == 0 { return Err("empty input image"), r; }
    var step := tile - overlap;
    var cols := TileOrigins(rgb.w, tile, step);
    var rows := TileOrigins(rgb.h, tile, step);
    OriginsNonNegative(cols, rgb.w, tile, step);
    OriginsNonNegative(rows, rgb.h, tile, step);
    r := Run(run, rgb, tile, overlap, side / tile, side, cols, rows);
    assert IsFor(r, run, rgb, tile, overlap, height);
    result := RunAll(run, rgb, tile, overlap, cancelled, cols, rows, r, height);
  }

  lemma OriginsNonNegative(xs: seq<int>, len: nat, tile: nat, step: nat)
    requires IsTiling(xs, len, tile, step)
    ensures forall k | 0 <= k < |xs| :: xs[k] >= 0
  {
    forall k | 0 <= k < |xs|
      ensures xs[k] >= 0
    {
      OriginsFit(xs, len, tile, step, k);
    }
  }

  // ---- what a finished run guarantees ----

  lemma ProductReaches(a: real, b: real)
    requires a >= 0.001 && b >= 0.001
    ensures a * b >= 0.000001
  {
    ProductNonNegative(a - 0.001, b - 0.001);
    assert (a - 0.001) * (b - 0.001) == a * b - 0.001 * a - 0.001 * b + 0.000001;
  }

  lemma WeightReaches(g: Geometry, t: Tile, ox: int, oy: int)
    requires CoversPixel(g, t, ox, oy)
    ensures Weight(g, t, ox, oy) >= 0.000001
  {
    var pl := Place(g, t);
    RampBounds(ox - pl.left, pl.side, pl.overlap, pl.touchesLeft, pl.touchesRight);
    RampBounds(oy - pl.top, pl.side, pl.overlap, pl.touchesTop, pl.touchesBottom);
    ProductReaches(pl.WeightX(ox), pl.WeightY(oy));
  }

  lemma {:induction false} WeightSumReaches(g: Geometry, tiles: seq<Tile>, ox: int, oy: int)
    ensures WeightSum(g, tiles, ox, oy) >= 0.0
    ensures (exists k :: 0 <= k < |tiles| && CoversPixel(g, tiles[k], ox, oy)) ==>
              WeightSum(g, tiles, ox, oy) >= 0.000001
  {
    if tiles != [] {
      var t, front := tiles[|tiles|-1], tiles[..|tiles|-1];
      WeightSumReaches(g, front, ox, oy);
      if CoversPixel(g, t, ox, oy) {
        WeightReaches(g, t, ox, oy);
      } else if k :| 0 <= k < |tiles| && CoversPixel(g, tiles[k], ox, oy) {
        assert front[k] == tiles[k];
      }
    }
  }

  lemma Ordered(a: int, b: int, c: nat)
    requires a <= b
    ensures a * c <= b * c
  {
  }

  lemma QuotientBelow(n: nat, w: nat, d: nat)
    requires d > 0 && n < w * d
    ensures n / d < w
  {
    if n / d >= w { Ordered(w, n / d, d); }
  }

  lemma ScaledInterval(x0: nat, p: nat, tile: nat, scale: nat, side: nat, ox: nat)
    requires scale > 0 && IsMultiple(side, tile, scale) && p == ox / scale
    requires x0 <= p < x0 + tile
    ensures x0 * scale <= ox < x0 * scale + side
  {
    assert p * scale <= ox < p * scale + scale;
    Ordered(x0, p, scale);
    Ordered(p + 1, x0 + tile, scale);
    assert (p + 1) * scale == p * scale + scale && (x0 + tile) * scale == x0 * scale + tile * scale;
  }

  /** Every output position along one axis lies in some tile. */
  lemma AxisIsCovered(xs: seq<int>, len: nat, tile: nat, overlap: nat, scale: nat, side: nat, ox: nat) returns (i: nat)
    requires tile > 2 * overlap && IsTiling(xs, len, tile, tile - overlap)
    requires scale > 0 && IsMultiple(side, tile, scale) && ox < len * scale
    ensures i < |xs| && 0 <= xs[i] && xs[i] * scale <= ox < xs[i] * scale + side
  {
    var p := ox / scale;
    QuotientBelow(ox, len, scale);
    i := OriginsCover(xs, len, tile, tile - overlap, p, |xs| - 1);
    OriginsFit(xs, len, tile, tile - overlap, i);
    ScaledInterval(xs[i], p, tile, scale, side, ox);
  }

  lemma TileOfAxes(xs: seq<int>, ys: seq<int>, a: nat, b: nat) returns (k: nat)
    requires a < |xs| && b < |ys|
    requires (forall i | 0 <= i < |xs| :: xs[i] >= 0) && (forall i | 0 <= i < |ys| :: ys[i] >= 0)
    ensures k < |TilesUpTo(xs, ys, |ys|, 0)| && TilesUpTo(xs, ys, |ys|, 0)[k] == Tile(xs[a], ys[b])
  {
    TilesContain(xs, ys, |ys|, 0, b, a);
    k :| 0 <= k < |TilesUpTo(xs, ys, |ys|, 0)| && TilesUpTo(xs, ys, |ys|, 0)[k] == Tile(xs[a], ys[b]);
  }

  lemma TileCovers(g: Geometry, t: Tile, ox: nat, oy: nat)
    requires t.x0 * g.scale <= ox < t.x0 * g.scale + g.side && t.y0 * g.scale <= oy < t.y0 * g.scale + g.side
    ensures CoversPixel(g, t, ox, oy)
  {
  }

  lemma SomeTileCovers(r: Run, ox: nat, oy: nat) returns (k: nat)
    requires r.Valid() && r.scale > 0 && IsMultiple(r.side, r.tile, r.scale)
    requires ox < r.rgb.w * r.scale && oy < r.rgb.h * r.scale
    ensures k < |r.Tiles()| && CoversPixel(r.Geo(), r.Tiles()[k], ox, oy)
  {
    var a := AxisIsCovered(r.xs, r.rgb.w, r.tile, r.overlap, r.scale, r.side, ox);
    var b := AxisIsCovered(r.ys, r.rgb.h, r.tile, r.overlap, r.scale, r.side, oy);
    k := TileOfAxes(r.xs, r.ys, a, b);
    TileCovers(r.Geo(), Tile(r.xs[a], r.ys[b]), ox, oy);
  }

  /** Every output pixel is covered, so its weights add up to the guard's constant or more: the guard never acts. */
  lemma {:induction false} EveryPixelIsWeighted(r: Run, out: Grid<Rgb>, ox: nat, oy: nat)
    requires IsUpscaled(r, out) && out.Has(ox, oy)
    ensures exists k :: 0 <= k < |r.Tiles()| && CoversPixel(r.Geo(), r.Tiles()[k], ox, oy)
    ensures WeightSum(r.Geo(), r.Tiles(), ox, oy) >= 0.000001
  {
    var k := SomeTileCovers(r, ox, oy);
    WeightSumReaches(r.Geo(), r.Tiles(), ox, oy);
  }

  /** All predictions for (ox, oy), in channel c, lie between lo and hi. */
  ghost predicate PredictedWithin(g: Geometry, p: Prediction, tiles: seq<Tile>, ox: int, oy: int, c: nat, lo: real,
                                  hi: real)
    requires SquareTiles(g, p, tiles)
  {
    forall k | 0 <= k < |tiles| && CoversPixel(g, tiles[k], ox, oy) ::
      lo <= Channel(Predicted(g, p, tiles[k], ox, oy), c) <= hi
  }

  /** Adding a value between lo and hi with weight w keeps a weighted sum between lo and hi times the weight. */
  lemma StepStaysWithin(sum: real, total: real, d: real, w: real, lo: real, hi: real)
    requires lo * total <= sum <= hi * total && lo <= d <= hi && w >= 0.0
    ensures lo * (total + w) <= sum + d * w <= hi * (total + w)
  {
    ProductNonNegative(d - lo, w);
    ProductNonNegative(hi - d, w);
    assert (d - lo) * w == d * w - lo * w && (hi - d) * w == hi * w - d * w;
    assert lo * (total + w) == lo * total + lo * w && hi * (total + w) == hi * total + hi * w;
  }

  lemma ChannelOfSum(p: V3, d: V3, w: real, c: nat)
    ensures Channel(AddScaled(p, d, w), c) == Channel(p, c) + Channel(d, c) * w
  {
  }

  ghost predicate SumWithin(sum: real, total: real, lo: real, hi: real) { lo * total <= sum <= hi * total }

  lemma ValueStepWithin(sum: V3, total: real, d: V3, w: real, c: nat, lo: real, hi: real)
    requires SumWithin(Channel(sum, c), total, lo, hi) && lo <= Channel(d, c) <= hi && w >= 0.0
    ensures SumWithin(Channel(AddScaled(sum, d, w), c), total + w, lo, hi)
  {
    ChannelOfSum(sum, d, w, c);
    StepStaysWithin(Channel(sum, c), total, Channel(d, c), w, lo, hi);
  }

  lemma {:induction false} ValueSumWithin(g: Geometry, p: Prediction, tiles: seq<Tile>, ox: int, oy: int, c: nat,
                                          lo: real, hi: real)
    requires SquareTiles(g, p, tiles) && PredictedWithin(g, p, tiles, ox, oy, c, lo, hi)
    ensures SumWithin(Channel(ValueSum(g, p, tiles, ox, oy), c), WeightSum(g, tiles, ox, oy), lo, hi)
  {
    if tiles != [] {
      var t, front := tiles[|tiles|-1], tiles[..|tiles|-1];
      forall k | 0 <= k < |front| && CoversPixel(g, front[k], ox, oy)
        ensures lo <= Channel(Predicted(g, p, front[k], ox, oy), c) <= hi
      {
        assert front[k] == tiles[k];
      }
      ValueSumWithin(g, p, front, ox, oy, c, lo, hi);
      if CoversPixel(g, t, ox, oy) {
        WeightReaches(g, t, ox, oy);
        ValueStepWithin(ValueSum(g, p, front, ox, oy), WeightSum(g, front, ox, oy), Predicted(g, p, t, ox, oy),
                        Weight(g, t, ox, oy), c, lo, hi);
      }
    }
  }

  lemma QuotientWithin(s: real, w: real, lo: real, hi: real)
    requires w > 0.0 && SumWithin(s, w, lo, hi)
    ensures lo <= s / w <= hi
  {
    var q := s / w;
    assert q * w == s;
    if q < lo { StrictlyScaled(q, lo, w); }
    if q > hi { StrictlyScaled(hi, q, w); }
  }

  lemma StrictlyScaled(a: real, b: real, w: real)
    requires a < b && w > 0.0
    ensures a * w < b * w
  {
    assert (b - a) * w > 0.0;
  }

  lemma MeanByChannel(sum: V3, w: real, c: nat)
    requires w >= 0.000001
    ensures Channel(Normalised(sum, w), c) == Channel(sum, c) / w
  {
  }

  /** Each output value is a convex combination of the predictions for it: it cannot leave their range. */
  lemma MeanStaysWithin(r: Run, out: Grid<Rgb>, ox: nat, oy: nat, c: nat, lo: real, hi: real)
    requires IsUpscaled(r, out) && out.Has(ox, oy)
    requires PredictedWithin(r.Geo(), r.Answers(), r.Tiles(), ox, oy, c, lo, hi)
    ensures lo <= Channel(Mean(r.Geo(), r.Answers(), r.Tiles(), ox, oy), c) <= hi
  {
    EveryPixelIsWeighted(r, out, ox, oy);
    MeanOfSumsWithin(r.Geo(), r.Answers(), r.Tiles(), ox, oy, c, lo, hi);
  }

  lemma {:induction false} MeanOfSumsWithin(g: Geometry, p: Prediction, tiles: seq<Tile>, ox: int, oy: int, c: nat,
                                            lo: real, hi: real)
    requires SquareTiles(g, p, tiles) && PredictedWithin(g, p, tiles, ox, oy, c, lo, hi)
    requires WeightSum(g, tiles, ox, oy) >= 0.000001
    ensures lo <= Channel(Mean(g, p, tiles, ox, oy), c) <= hi
  {
    var sum, w := ValueSum(g, p, tiles, ox, oy), WeightSum(g, tiles, ox, oy);
    ValueSumWithin(g, p, tiles, ox, oy, c, lo, hi);
    QuotientWithin(Channel(sum, c), w, lo, hi);
    MeanByChannel(sum, w, c);
  }

  /** A model that computes each scale x scale block of its output from one input pixel alone. */
  ghost predicate IsLocal(run: Model, scale: nat, local: (Rgb, int, int) -> V3) {
    scale > 0 && forall input: Grid<Rgb> :: run(input).Some? ==> BlocksAre(input, run(input).value, scale, local)
  }

  ghost predicate BlocksAre(input: Grid<Rgb>, output: Grid<V3>, scale: nat, local: (Rgb, int, int) -> V3)
    requires scale > 0
  {
    forall dx, dy | output.Has(dx, dy) :: IsBlockPixel(input, output.At(dx, dy), dx, dy, scale, local)
  }

  ghost predicate IsBlockPixel(input: Grid<Rgb>, v: V3, x: int, y: int, scale: nat, local: (Rgb, int, int) -> V3)
    requires scale > 0
  {
    input.Has(x / scale, y / scale) && v == local(input.At(x / scale, y / scale), x % scale, y % scale)
  }

  lemma DivisionIsUnique(n: int, d: nat, q: int, m: nat)
    requires d > 0 && n == q * d + m && m < d
    ensures n / d == q && n % d == m
  {
    var q1, m1 := n / d, n % d;
    assert n == q1 * d + m1;
    assert (q + 1) * d == q * d + d && (q1 + 1) * d == q1 * d + d;
    if q < q1 {
      Ordered(q + 1, q1, d);
    } else if q1 < q {
      Ordered(q1 + 1, q, d);
    }
  }

  lemma ShiftedDivision(n: nat, a: nat, d: nat)
    requires d > 0
    ensures (n - a * d) / d == n / d - a
    ensures (n - a * d) % d == n % d
  {
    var q, m := n / d, n % d;
    assert n == q * d + m;
    assert (q - a) * d == q * d - a * d;
    DivisionIsUnique(n - a * d, d, q - a, m);
  }

  /** What a local model says about an output pixel does not depend on which tile it was run on. */
  lemma LocalPrediction(rgb: Grid<Rgb>, output: Grid<V3>, tile: nat, t: Tile, scale: nat, local: (Rgb, int, int) -> V3,
                        ox: nat, oy: nat)
    requires rgb.w > 0 && rgb.h > 0 && scale > 0
    requires BlocksAre(Extracted(rgb, t.x0, t.y0, tile), output, scale, local)
    requires ox < rgb.w * scale && oy < rgb.h * scale
    requires output.Has(ox - t.x0 * scale, oy - t.y0 * scale)
    ensures IsBlockPixel(rgb, output.At(ox - t.x0 * scale, oy - t.y0 * scale), ox, oy, scale, local)
  {
    var input, dx, dy := Extracted(rgb, t.x0, t.y0, tile), ox - t.x0 * scale, oy - t.y0 * scale;
    QuotientBelow(ox, rgb.w, scale);
    QuotientBelow(oy, rgb.h, scale);
    ShiftedDivision(ox, t.x0, scale);
    ShiftedDivision(oy, t.y0, scale);
    assert IsBlockPixel(input, output.At(dx, dy), dx, dy, scale, local);
    assert input.At(dx / scale, dy / scale) == ExtractedPixel(rgb, t.x0, t.y0, dx / scale, dy / scale);
  }

  lemma AllPredictionsAgree(r: Run, out: Grid<Rgb>, local: (Rgb, int, int) -> V3, ox: nat, oy: nat, k: nat)
    requires IsUpscaled(r, out) && out.Has(ox, oy) && IsLocal(r.model, r.scale, local)
    requires k < |r.Tiles()| && CoversPixel(r.Geo(), r.Tiles()[k], ox, oy)
    ensures IsBlockPixel(r.rgb, Predicted(r.Geo(), r.Answers(), r.Tiles()[k], ox, oy), ox, oy, r.scale, local)
  {
    var t := r.Tiles()[k];
    var output := r.Answers()(t);
    assert output == r.model(Extracted(r.rgb, t.x0, t.y0, r.tile)).value;
    LocalPrediction(r.rgb, output, r.tile, t, r.scale, local, ox, oy);
  }

  lemma {:induction false} MeanOfEqualPredictions(g: Geometry, p: Prediction, tiles: seq<Tile>, ox: int, oy: int, v: V3)
    requires SquareTiles(g, p, tiles) && WeightSum(g, tiles, ox, oy) >= 0.000001
    requires forall k | 0 <= k < |tiles| && CoversPixel(g, tiles[k], ox, oy) :: Predicted(g, p, tiles[k], ox, oy) == v
    ensures Mean(g, p, tiles, ox, oy) == v
  {
    MeanOfSumsWithin(g, p, tiles, ox, oy, 0, v.r, v.r);
    MeanOfSumsWithin(g, p, tiles, ox, oy, 1, v.g, v.g);
    MeanOfSumsWithin(g, p, tiles, ox, oy, 2, v.b, v.b);
  }

  /** For a local model the tiles leave no trace: each output pixel is the model's own value for its source pixel. */
  lemma LocalModelsLeaveNoSeams(r: Run, out: Grid<Rgb>, local: (Rgb, int, int) -> V3, ox: nat, oy: nat) returns (v: V3)
    requires IsUpscaled(r, out) && out.Has(ox, oy) && IsLocal(r.model, r.scale, local)
    ensures IsBlockPixel(r.rgb, v, ox, oy, r.scale, local) && out.At(ox, oy) == QuantisePixel(v)
  {
    var g, p, tiles := r.Geo(), r.Answers(), r.Tiles();
    EveryPixelIsWeighted(r, out, ox, oy);
    var c :| 0 <= c < |tiles| && CoversPixel(g, tiles[c], ox, oy);
    v := Predicted(g, p, tiles[c], ox, oy);
    AllPredictionsAgree(r, out, local, ox, oy, c);
    forall k | 0 <= k < |tiles| && CoversPixel(g, tiles[k], ox, oy)
      ensures Predicted(g, p, tiles[k], ox, oy) == v
    {
      AllPredictionsAgree(r, out, local, ox, oy, k);
    }
    MeanOfEqualPredictions(g, p, tiles, ox, oy, v);
  }

  /** Two runs of one local model at one scale give the same image, whatever their tiles.
      With `whole` a single tile, the second is one pass over the whole image. */
  lemma TiledEqualsOnePass(tiled: Run, out: Grid<Rgb>, whole: Run, onePass: Grid<Rgb>, local: (Rgb, int, int) -> V3)
    requires IsUpscaled(tiled, out) && IsUpscaled(whole, onePass)
    requires tiled.rgb == whole.rgb && tiled.scale == whole.scale
    requires IsLocal(tiled.model, tiled.scale, local) && IsLocal(whole.model, whole.scale, local)
    ensures out == onePass
    ensures whole.rgb.w <= whole.tile && whole.rgb.h <= whole.tile ==> whole.Tiles() == [Tile(0, 0)]
  {
    forall x, y | out.Has(x, y)
      ensures out.At(x, y) == onePass.At(x, y)
    {
      var v := LocalModelsLeaveNoSeams(tiled, out, local, x, y);
      var w := LocalModelsLeaveNoSeams(whole, onePass, local, x, y);
    }
    GridsEqual(out, onePass);
  }

  // ---- a result exists ----

  lemma TilingExists(len: nat, tile: nat, step: nat) returns (xs: seq<int>)
    requires step > 0
    ensures IsTiling(xs, len, tile, step)
  {
    xs := [0];
    while xs[|xs|-1] < len - tile
      invariant |xs| > 0 && xs[0] == 0
      invariant if len <= tile then |xs| == 1 else xs[|xs|-1] <= len - tile
      invariant forall i, k | 0 <= i < k < |xs| && k == i + 1 ::
        xs[i] < xs[k] && xs[k] == Min(xs[i] + step, len - tile)
      decreases len - tile - xs[|xs|-1]
    {
      xs := xs + [Min(xs[|xs|-1] + step, len - tile)];
    }
  }

  /** A model of fixed input size that is local: it fails on everything but a tile. */
  function FixedShapeModel(tile: nat, scale: nat, local: (Rgb, int, int) -> V3): Model
    requires scale > 0
  {
    (input: Grid<Rgb>) => if IsTile(input, tile) then Some(Enlarged(input, scale, local)) else None
  }

  function EnlargedPixel(input: Grid<Rgb>, scale: nat, local: (Rgb, int, int) -> V3, x: int, y: int): V3
    requires scale > 0
  {
    var u, v := x / scale, y / scale;
    if input.Has(u, v) then local(input.At(u, v), x % scale, y % scale) else V3(0.0, 0.0, 0.0)
  }

  function Enlarged(input: Grid<Rgb>, scale: nat, local: (Rgb, int, int) -> V3): (out: Grid<V3>)
    requires scale > 0
    ensures out.w == input.w * scale && out.h == input.h * scale
    ensures forall x, y | out.Has(x, y) :: out.At(x, y) == EnlargedPixel(input, scale, local, x, y)
  {
    Tabulate(input.w * scale, input.h * scale, (x: int, y: int) => EnlargedPixel(input, scale, local, x, y))
  }

  lemma EnlargedByBlocks(input: Grid<Rgb>, scale: nat, local: (Rgb, int, int) -> V3)
    requires scale > 0
    ensures BlocksAre(input, Enlarged(input, scale, local), scale, local)
  {
    var out := Enlarged(input, scale, local);
    forall x, y | out.Has(x, y)
      ensures IsBlockPixel(input, out.At(x, y), x, y, scale, local)
    {
      QuotientBelow(x, input.w, scale);
      QuotientBelow(y, input.h, scale);
    }
  }

  /** It meets what the upscaler asks of a model. */
  lemma FixedShapeIsUniform(tile: nat, scale: nat, local: (Rgb, int, int) -> V3)
    requires scale > 0
    ensures var run := FixedShapeModel(tile, scale, local);
            && SucceedsOnTiles(run, tile) && UniformModel(run, tile, tile * scale, tile * scale)
            && IsLocal(run, scale, local)
  {
    var run := FixedShapeModel(tile, scale, local);
    forall input: Grid<Rgb> | run(input).Some?
      ensures BlocksAre(input, run(input).value, scale, local)
    {
      EnlargedByBlocks(input, scale, local);
    }
  }

  lemma TilesAreAnswered(r: Run)
    requires r.Valid() && SucceedsOnTiles(r.model, r.tile) && UniformModel(r.model, r.tile, r.side, r.side)
    ensures AllRunsSucceed(r, r.Tiles()) && SquareTiles(r.Geo(), r.Answers(), r.Tiles())
  {
    var tiles := r.Tiles();
    forall i | 0 <= i < |tiles|
      ensures r.model(Extracted(r.rgb, tiles[i].x0, tiles[i].y0, r.tile)).Some?
      ensures r.Answers()(tiles[i]).w == r.side && r.Answers()(tiles[i]).h == r.side
    {
      assert IsTile(Extracted(r.rgb, tiles[i].x0, tiles[i].y0, r.tile), r.tile);
    }
  }

  /** A model that never fails on a tile and predicts square multiples of it has a result for every image. */
  lemma ResultExists(run: Model, rgb: Grid<Rgb>, tile: nat, overlap: nat, scale: nat) returns (r: Run, out: Grid<Rgb>)
    requires tile > 2 * overlap && rgb.w > 0 && rgb.h > 0 && scale > 0
    requires SucceedsOnTiles(run, tile) && UniformModel(run, tile, tile * scale, tile * scale)
    ensures IsUpscaled(r, out) && r.model == run && r.rgb == rgb && r.tile == tile && r.overlap == overlap
            && r.scale == scale
  {
    var xs := TilingExists(rgb.w, tile, tile - overlap);
    var ys := TilingExists(rgb.h, tile, tile - overlap);
    OriginsNonNegative(xs, rgb.w, tile, tile - overlap);
    OriginsNonNegative(ys, rgb.h, tile, tile - overlap);
    r := Run(run, rgb, tile, overlap, scale, tile * scale, xs, ys);
    TilesAreAnswered(r);
    var g, p, tiles := r.Geo(), r.Answers(), r.Tiles();
    out := Tabulate(rgb.w * scale, rgb.h * scale, (x: int, y: int) => QuantisePixel(Mean(g, p, tiles, x, y)));
  }

  /** For a local model of fixed shape: tiled, it is the model's own function applied to the whole image. */
  lemma FixedShapeModelsEnlargeTheImage(rgb: Grid<Rgb>, tile: nat, overlap: nat, scale: nat,
                                        local: (Rgb, int, int) -> V3)
    returns (r: Run, out: Grid<Rgb>)
    requires tile > 2 * overlap && rgb.w > 0 && rgb.h > 0 && scale > 0
    ensures IsUpscaled(r, out) && r.model == FixedShapeModel(tile, scale, local) && r.rgb == rgb && r.overlap == overlap
    ensures out.w == rgb.w * scale && out.h == rgb.h * scale
    ensures forall x, y | out.Has(x, y) :: out.At(x, y) == QuantisePixel(Enlarged(rgb, scale, local).At(x, y))
  {
    FixedShapeIsUniform(tile, scale, local);
    EnlargedByBlocks(rgb, scale, local);
    r, out := ResultExists(FixedShapeModel(tile, scale, local), rgb, tile, overlap, scale);
    forall x, y | out.Has(x, y)
      ensures out.At(x, y) == QuantisePixel(Enlarged(rgb, scale, local).At(x, y))
    {
      var v := LocalModelsLeaveNoSeams(r, out, local, x, y);
    }
  }
}
