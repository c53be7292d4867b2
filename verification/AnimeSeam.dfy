/** The two seam finders of the anime stitcher (stitch_anime.rs).

    Colour distances are reals; the square root is an arbitrary function `root` of the
    squared distance, since optimality does not depend on it.
 */
module AnimeSeam {
  import opened Images
  import opened SeamDp

  type RootFn = int -> real

  function SquaredDistance(p: Rgb, q: Rgb): int {
    (p.r - q.r) * (p.r - q.r) + (p.g - q.g) * (p.g - q.g) + (p.b - q.b) * (p.b - q.b)
  }

  /** The cost of cutting between canvas pixel (cx, cy) and frame pixel (fx, fy);
      a pixel outside either image costs nothing. */
  function PixelCost(root: RootFn, canvas: Grid<Rgb>, cx: int, cy: int, frame: Grid<Rgb>, fx: int, fy: int): real {
    if canvas.Has(cx, cy) && frame.Has(fx, fy)
    then root(SquaredDistance(canvas.At(cx, cy), frame.At(fx, fy)))
    else 0.0
  }

  /** A horizontal seam steps over the columns of the overlap; its position is a row. */
  function HorizontalCost(root: RootFn, canvas: Grid<Rgb>, cx0: int, cy0: int, frame: Grid<Rgb>, fx0: int,
                          fy0: int): CostFn {
    (x: int, y: int) => PixelCost(root, canvas, cx0 + x, cy0 + y, frame, fx0 + x, fy0 + y)
  }

  /** A vertical seam steps over the rows of the overlap; its position is a column. */
  function VerticalCost(root: RootFn, canvas: Grid<Rgb>, cx0: int, cy0: int, frame: Grid<Rgb>, fx0: int,
                        fy0: int): CostFn {
    (y: int, x: int) => PixelCost(root, canvas, cx0 + x, cy0 + y, frame, fx0 + x, fy0 + y)
  }

  /** seam is the topmost of the cheapest left-to-right seams of an ow by oh overlap. */
  ghost predicate IsHorizontalSeam(root: RootFn, canvas: Grid<Rgb>, cx0: int, cy0: int,
                                   frame: Grid<Rgb>, fx0: int, fy0: int, ow: nat, oh: nat, seam: seq<int>) {
    IsExtremeOptimum(HorizontalCost(root, canvas, cx0, cy0, frame, fx0, fy0), oh, ow, false, seam)
  }

  /** seam is the leftmost of the cheapest top-to-bottom seams of an ow by oh overlap. */
  ghost predicate IsVerticalSeam(root: RootFn, canvas: Grid<Rgb>, cx0: int, cy0: int,
                                 frame: Grid<Rgb>, fx0: int, fy0: int, ow: nat, oh: nat, seam: seq<int>) {
    IsExtremeOptimum(VerticalCost(root, canvas, cx0, cy0, frame, fx0, fy0), ow, oh, false, seam)
  }

  /** Fills cost[y, x] for the overlap; both finders begin with this loop. */
  method FillCost(root: RootFn, canvas: array2<Rgb>, cx0: int, cy0: int,
                  frame: Grid<Rgb>, fx0: int, fy0: int, ow: nat, oh: nat) returns (cost: array2<real>)
    ensures fresh(cost) && cost.Length0 == oh && cost.Length1 == ow
    ensures forall y, x | 0 <= y < oh && 0 <= x < ow ::
              cost[y, x] == PixelCost(root, Freeze(canvas), cx0 + x, cy0 + y, frame, fx0 + x, fy0 + y)
  {
    cost := new real[oh, ow]((_, _) => 0.0);
    ghost var image := Freeze(canvas);
    var cw, ch := canvas.Length1, canvas.Length0;
    var y := 0;
    while y < oh
      invariant 0 <= y <= oh && image == Freeze(canvas)
      invariant forall v, u | 0 <= v < oh && 0 <= u < ow ::
                  cost[v, u] == if v < y then PixelCost(root, image, cx0 + u, cy0 + v, frame, fx0 + u, fy0 + v) else 0.0
    {
      var x := 0;
      while x < ow
        invariant 0 <= x <= ow && image == Freeze(canvas)
        invariant forall v, u | 0 <= v < oh && 0 <= u < ow ::
                    cost[v, u] == if v < y || (v == y && u < x)
                                  then PixelCost(root, image, cx0 + u, cy0 + v, frame, fx0 + u, fy0 + v) else 0.0
      {
        var cx, cy, fx, fy := cx0 + x, cy0 + y, fx0 + x, fy0 + y;
        if !(cx < 0 || cy < 0 || cx >= cw || cy >= ch) && !(fx < 0 || fy < 0 || fx >= frame.w || fy >= frame.h) {
          var d := SquaredDistance(canvas[cy, cx], frame.At(fx, fy));
          assert image.At(cx, cy) == canvas[cy, cx];
          cost[y, x] := root(d);
        }
        x := x + 1;
      }
      y := y + 1;
    }
  }

  /** Sweeps the overlap column by column; a seam position is a row. */
  method FindHorizontalSeam(root: RootFn, canvas: array2<Rgb>, cx0: int, cy0: int,
                            frame: Grid<Rgb>, fx0: int, fy0: int, ow: nat, oh: nat) returns (result: seq<int>)
    requires ow > 0 && oh > 0
    ensures |result| == ow
    ensures IsHorizontalSeam(root, Freeze(canvas), cx0, cy0, frame, fx0, fy0, ow, oh, result)
  {
    var cost := FillCost(root, canvas, cx0, cy0, frame, fx0, fy0, ow, oh);
    ghost var c := HorizontalCost(root, Freeze(canvas), cx0, cy0, frame, fx0, fy0);
    assert forall y, x | 0 <= y < oh && 0 <= x < ow :: cost[y, x] == c(x, y);
    ghost var table, goal := TracebackExists(c, oh, ow, false);
    var dp := FillColumns(cost, c, table);
    result := TraceColumns(dp, table, goal);
    TracebackIsExtremeOptimum(c, table, oh, false, goal);
  }

  /** Sweeps the overlap row by row; a seam position is a column. */
  method FindVerticalSeam(root: RootFn, canvas: array2<Rgb>, cx0: int, cy0: int,
                          frame: Grid<Rgb>, fx0: int, fy0: int, ow: nat, oh: nat) returns (result: seq<int>)
    requires ow > 0 && oh > 0
    ensures |result| == oh
    ensures IsVerticalSeam(root, Freeze(canvas), cx0, cy0, frame, fx0, fy0, ow, oh, result)
  {
    var cost := FillCost(root, canvas, cx0, cy0, frame, fx0, fy0, ow, oh);
    ghost var c := VerticalCost(root, Freeze(canvas), cx0, cy0, frame, fx0, fy0);
    assert forall y, x | 0 <= y < oh && 0 <= x < ow :: cost[y, x] == c(y, x);
    ghost var table, goal := TracebackExists(c, ow, oh, false);
    var dp := FillRows(cost, c, table);
    result := TraceRows(dp, table, goal);
    TracebackIsExtremeOptimum(c, table, ow, false, goal);
  }

  /** Table of the horizontal finder, filled column by column. */
  method FillColumns(cost: array2<real>, ghost c: CostFn, ghost table: seq<seq<real>>) returns (dp: array2<real>)
    requires cost.Length0 > 0 && cost.Length1 > 0
    requires forall y, x | 0 <= y < cost.Length0 && 0 <= x < cost.Length1 :: cost[y, x] == c(x, y)
    requires |table| == cost.Length1 && IsDpTable(c, table, cost.Length0)
    ensures fresh(dp) && dp.Length0 == cost.Length0 && dp.Length1 == cost.Length1
    ensures forall y, x | 0 <= y < dp.Length0 && 0 <= x < dp.Length1 :: dp[y, x] == table[x][y]
  {
    var hu, wu := cost.Length0, cost.Length1;
    dp := new real[hu, wu];
    var y := 0;
    while y < hu
      invariant 0 <= y <= hu
      invariant forall k | 0 <= k < y :: dp[k, 0] == table[0][k]
    {
      dp[y, 0] := cost[y, 0];
      y := y + 1;
    }
    var x := 1;
    while x < wu
      invariant 1 <= x <= wu
      invariant forall s, k | 0 <= s < x && 0 <= k < hu :: dp[k, s] == table[s][k]
    {
      y := 0;
      while y < hu
        invariant 0 <= y <= hu
        invariant forall s, k | 0 <= s < x && 0 <= k < hu :: dp[k, s] == table[s][k]
        invariant forall k | 0 <= k < y :: dp[k, x] == table[x][k]
      {
        var p := x - 1;
        var best := dp[y, p];
        if y > 0 && dp[y - 1, p] < best { best := dp[y - 1, p]; }
        if y + 1 < hu && dp[y + 1, p] < best { best := dp[y + 1, p]; }
        NearMinIs(table[p], y, best);
        assert Obeys(c, table, hu, x, y);
        dp[y, x] := cost[y, x] + best;
        y := y + 1;
      }
      x := x + 1;
    }
  }

  /** Traceback of the horizontal finder, right to left. */
  method TraceColumns(dp: array2<real>, ghost table: seq<seq<real>>, ghost goal: seq<int>) returns (result: seq<int>)
    requires |table| == dp.Length1 && IsTraceback(table, dp.Length0, false, goal)
    requires forall y, x | 0 <= y < dp.Length0 && 0 <= x < dp.Length1 :: dp[y, x] == table[x][y]
    ensures result == goal
  {
    var hu, wu := dp.Length0, dp.Length1;
    var seam := new int[wu];
    var last := wu - 1;
    var at := MinInColumn(dp, last, 0, hu - 1, false, table[last]);
    seam[last] := at;
    var x := last;
    while x > 0
      invariant 0 <= x <= last
      invariant 0 <= at < hu && at == goal[x]
      invariant forall s | x <= s <= last :: seam[s] == goal[s]
    {
      x := x - 1;
      assert Follows(table, hu, false, goal, x);
      at := MinInColumn(dp, x, Lo(at), Hi(at, hu), false, table[x]);
      seam[x] := at;
    }
    result := seam[..];
  }

  /** Table of the vertical finder, filled row by row. */
  method FillRows(cost: array2<real>, ghost c: CostFn, ghost table: seq<seq<real>>) returns (dp: array2<real>)
    requires cost.Length0 > 0 && cost.Length1 > 0
    requires forall y, x | 0 <= y < cost.Length0 && 0 <= x < cost.Length1 :: cost[y, x] == c(y, x)
    requires |table| == cost.Length0 && IsDpTable(c, table, cost.Length1)
    ensures fresh(dp) && dp.Length0 == cost.Length0 && dp.Length1 == cost.Length1
    ensures forall y, x | 0 <= y < dp.Length0 && 0 <= x < dp.Length1 :: dp[y, x] == table[y][x]
  {
    var hu, wu := cost.Length0, cost.Length1;
    dp := new real[hu, wu];
    var x := 0;
    while x < wu
      invariant 0 <= x <= wu
      invariant forall k | 0 <= k < x :: dp[0, k] == table[0][k]
    {
      dp[0, x] := cost[0, x];
      x := x + 1;
    }
    var y := 1;
    while y < hu
      invariant 1 <= y <= hu
      invariant forall s, k | 0 <= s < y && 0 <= k < wu :: dp[s, k] == table[s][k]
    {
      x := 0;
      while x < wu
        invariant 0 <= x <= wu
        invariant forall s, k | 0 <= s < y && 0 <= k < wu :: dp[s, k] == table[s][k]
        invariant forall k | 0 <= k < x :: dp[y, k] == table[y][k]
      {
        var p := y - 1;
        var best := dp[p, x];
        if x > 0 && dp[p, x - 1] < best { best := dp[p, x - 1]; }
        if x + 1 < wu && dp[p, x + 1] < best { best := dp[p, x + 1]; }
        NearMinIs(table[p], x, best);
        assert Obeys(c, table, wu, y, x);
        dp[y, x] := cost[y, x] + best;
        x := x + 1;
      }
      y := y + 1;
    }
  }

  /** Traceback of the vertical finder, bottom to top. */
  method TraceRows(dp: array2<real>, ghost table: seq<seq<real>>, ghost goal: seq<int>) returns (result: seq<int>)
    requires |table| == dp.Length0 && IsTraceback(table, dp.Length1, false, goal)
    requires forall y, x | 0 <= y < dp.Length0 && 0 <= x < dp.Length1 :: dp[y, x] == table[y][x]
    ensures result == goal
  {
    var hu, wu := dp.Length0, dp.Length1;
    var seam := new int[hu];
    var last := hu - 1;
    var at := MinInRow(dp, last, 0, wu - 1, false, table[last]);
    seam[last] := at;
    var y := last;
    while y > 0
      invariant 0 <= y <= last
      invariant 0 <= at < wu && at == goal[y]
      invariant forall s | y <= s <= last :: seam[s] == goal[s]
    {
      y := y - 1;
      assert Follows(table, wu, false, goal, y);
      at := MinInRow(dp, y, Lo(at), Hi(at, wu), false, table[y]);
      seam[y] := at;
    }
    result := seam[..];
  }

  /** Spelled out: the seam lies in the overlap, moves at most one row per column, costs no more than
      any such seam, and is at or above every other cheapest seam in every column. */
  lemma HorizontalSeamIsTopmostOptimum(root: RootFn, canvas: Grid<Rgb>, cx0: int, cy0: int,
                                       frame: Grid<Rgb>, fx0: int, fy0: int, ow: nat, oh: nat, s: seq<int>)
    requires ow > 0 && oh > 0
    ensures var c := HorizontalCost(root, canvas, cx0, cy0, frame, fx0, fy0);
            IsHorizontalSeam(root, canvas, cx0, cy0, frame, fx0, fy0, ow, oh, s) <==>
              && IsSeam(s, ow, oh)
              && (forall q | IsSeam(q, ow, oh) :: SeamCost(c, s) <= SeamCost(c, q))
              && (forall q, x | IsSeam(q, ow, oh) && SeamCost(c, q) == SeamCost(c, s) && 0 <= x < ow :: s[x] <= q[x])
  {
    var c := HorizontalCost(root, canvas, cx0, cy0, frame, fx0, fy0);
    if IsOptimal(c, oh, ow, s) {
      forall q | IsSeam(q, ow, oh)
        ensures IsOptimal(c, oh, ow, q) <==> SeamCost(c, q) == SeamCost(c, s)
      {
        assert SeamCost(c, s) <= SeamCost(c, q);
      }
    }
  }

  /** Two pixels are as far apart as their channels together, a channel as far as the square of its difference. */
  lemma DistanceByChannel(p: Rgb, q: Rgb, d: int)
    ensures SquaredDistance(p, q) == SquaredDistance(p, p.(r := q.r)) + SquaredDistance(p, p.(g := q.g))
                                   + SquaredDistance(p, p.(b := q.b))
    ensures q.r == p.r + d ==> SquaredDistance(p, p.(r := q.r)) == d * d
    ensures q.g == p.g + d ==> SquaredDistance(p, p.(g := q.g)) == d * d
    ensures q.b == p.b + d ==> SquaredDistance(p, p.(b := q.b)) == d * d
  {
  }

  lemma SquareIsPositive(d: int)
    ensures d * d >= 0 && (d * d == 0 <==> d == 0)
  {
  }

  /** Only equal pixels are at no distance. */
  lemma NoDistanceIffEqual(p: Rgb, q: Rgb)
    ensures SquaredDistance(p, q) >= 0 && (SquaredDistance(p, q) == 0 <==> p == q)
  {
    SquareIsPositive(p.r - q.r);
    SquareIsPositive(p.g - q.g);
    SquareIsPositive(p.b - q.b);
  }

  /** A root vanishes at 0 only. */
  ghost predicate IsRoot(root: RootFn) {
    root(0) == 0.0 && forall d: int | d > 0 :: root(d) > 0.0
  }

  /** At (x, y) of the overlap canvas and frame show the same colour, or one of them ends before it. */
  ghost predicate AgreeAt(canvas: Grid<Rgb>, cx0: int, cy0: int, frame: Grid<Rgb>, fx0: int, fy0: int, x: int, y: int) {
    canvas.Has(cx0 + x, cy0 + y) && frame.Has(fx0 + x, fy0 + y) ==>
      canvas.At(cx0 + x, cy0 + y) == frame.At(fx0 + x, fy0 + y)
  }

  lemma FreeIffAgreed(root: RootFn, canvas: Grid<Rgb>, cx0: int, cy0: int, frame: Grid<Rgb>, fx0: int, fy0: int, x: int,
                      y: int)
    requires IsRoot(root)
    ensures var cost := PixelCost(root, canvas, cx0 + x, cy0 + y, frame, fx0 + x, fy0 + y);
            if AgreeAt(canvas, cx0, cy0, frame, fx0, fy0, x, y) then cost == 0.0 else cost > 0.0
  {
    if canvas.Has(cx0 + x, cy0 + y) && frame.Has(fx0 + x, fy0 + y) {
      NoDistanceIffEqual(canvas.At(cx0 + x, cy0 + y), frame.At(fx0 + x, fy0 + y));
    }
  }

  /** Where canvas and frame agree along one connected path from left to right and nowhere else, the path is the
      seam. */
  lemma HorizontalSeamFollowsTheAgreement(root: RootFn, canvas: Grid<Rgb>, cx0: int, cy0: int, frame: Grid<Rgb>,
                                          fx0: int, fy0: int, ow: nat, oh: nat, path: seq<int>, s: seq<int>)
    requires IsRoot(root) && IsSeam(path, ow, oh)
    requires forall x, y | 0 <= x < ow && 0 <= y < oh ::
               y == path[x] <==> AgreeAt(canvas, cx0, cy0, frame, fx0, fy0, x, y)
    requires IsHorizontalSeam(root, canvas, cx0, cy0, frame, fx0, fy0, ow, oh, s)
    ensures s == path
  {
    var c := HorizontalCost(root, canvas, cx0, cy0, frame, fx0, fy0);
    forall x, y | 0 <= x < ow && 0 <= y < oh
      ensures if y == path[x] then c(x, y) == 0.0 else c(x, y) > 0.0
    {
      FreeIffAgreed(root, canvas, cx0, cy0, frame, fx0, fy0, x, y);
    }
    OnlyFreeSeamIsOptimal(c, oh, ow, path, s);
  }

  /** And likewise for a path from top to bottom. */
  lemma VerticalSeamFollowsTheAgreement(root: RootFn, canvas: Grid<Rgb>, cx0: int, cy0: int, frame: Grid<Rgb>,
                                        fx0: int, fy0: int, ow: nat, oh: nat, path: seq<int>, s: seq<int>)
    requires IsRoot(root) && IsSeam(path, oh, ow)
    requires forall x, y | 0 <= x < ow && 0 <= y < oh ::
               x == path[y] <==> AgreeAt(canvas, cx0, cy0, frame, fx0, fy0, x, y)
    requires IsVerticalSeam(root, canvas, cx0, cy0, frame, fx0, fy0, ow, oh, s)
    ensures s == path
  {
    var c := VerticalCost(root, canvas, cx0, cy0, frame, fx0, fy0);
    forall y, x | 0 <= y < oh && 0 <= x < ow
      ensures if x == path[y] then c(y, x) == 0.0 else c(y, x) > 0.0
    {
      FreeIffAgreed(root, canvas, cx0, cy0, frame, fx0, fy0, x, y);
    }
    OnlyFreeSeamIsOptimal(c, ow, oh, path, s);
  }

  /** Finding a vertical seam is finding a horizontal seam with rows and columns exchanged. */
  lemma VerticalIsTransposedHorizontal(root: RootFn, canvas: Grid<Rgb>, cx0: int, cy0: int,
                                       frame: Grid<Rgb>, fx0: int, fy0: int, ow: nat, oh: nat, seam: seq<int>)
    ensures IsVerticalSeam(root, canvas, cx0, cy0, frame, fx0, fy0, ow, oh, seam)
       <==> IsHorizontalSeam(root, Transpose(canvas), cy0, cx0, Transpose(frame), fy0, fx0, oh, ow, seam)
  {
    var c := VerticalCost(root, canvas, cx0, cy0, frame, fx0, fy0);
    var d := HorizontalCost(root, Transpose(canvas), cy0, cx0, Transpose(frame), fy0, fx0);
    forall y, x | 0 <= y < oh && 0 <= x < ow
      ensures c(y, x) == d(y, x)
    {
      TransposedCost(root, canvas, cx0 + x, cy0 + y, frame, fx0 + x, fy0 + y);
    }
    if IsExtremeOptimum(c, ow, oh, false, seam) { ExtremeOptimumCongruence(c, d, ow, oh, false, seam); }
    if IsExtremeOptimum(d, ow, oh, false, seam) { ExtremeOptimumCongruence(d, c, ow, oh, false, seam); }
  }

  lemma TransposedCost(root: RootFn, canvas: Grid<Rgb>, cx: int, cy: int, frame: Grid<Rgb>, fx: int, fy: int)
    ensures PixelCost(root, canvas, cx, cy, frame, fx, fy)
         == PixelCost(root, Transpose(canvas), cy, cx, Transpose(frame), fy, fx)
  {
    assert Transpose(canvas).Has(cy, cx) == canvas.Has(cx, cy) && Transpose(frame).Has(fy, fx) == frame.Has(fx, fy);
    if canvas.Has(cx, cy) && frame.Has(fx, fy) {
      assert Transpose(canvas).At(cy, cx) == canvas.At(cx, cy) && Transpose(frame).At(fy, fx) == frame.At(fx, fy);
    }
  }
}
