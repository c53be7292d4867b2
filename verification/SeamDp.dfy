/** Minimum-cost seams by dynamic programming: the specification both stitchers share.

    A seam visits one position per step and moves by at most one position between steps.
    `IsDpTable` and `IsTraceback` are what the table-filling and traceback loops establish;
    `TracebackIsExtremeOptimum` says what that means among all seams.
 */
module SeamDp {

  /** cost(step, position) */
  type CostFn = (int, int) -> real

  ghost predicate IsSeam(p: seq<int>, n: nat, m: nat) {
    && |p| == n
    && (forall i | 0 <= i < n :: 0 <= p[i] < m)
    && (forall i, k | 0 <= i < k < n && k == i + 1 :: -1 <= p[k] - p[i] <= 1)
  }

  /** What the first t steps of p cost. */
  ghost function CostUpTo(c: CostFn, p: seq<int>, t: nat): real
    requires t <= |p|
  {
    if t == 0 then 0.0 else CostUpTo(c, p, t - 1) + c(t - 1, p[t - 1])
  }

  ghost function SeamCost(c: CostFn, p: seq<int>): real {
    CostUpTo(c, p, |p|)
  }

  function Lo(j: int): int { if j > 0 then j - 1 else 0 }

  function Hi(j: int, m: int): int { if j + 1 < m then j + 1 else m - 1 }

  /** The index of a least element of row[lo..hi]: the last such index if `right`, else the first. */
  function ArgBest(row: seq<real>, lo: int, hi: int, right: bool): (k: int)
    requires 0 <= lo <= hi < |row|
    ensures lo <= k <= hi
    ensures forall i | lo <= i <= hi :: row[k] <= row[i]
    ensures right ==> forall i | k < i <= hi :: row[k] < row[i]
    ensures !right ==> forall i | lo <= i < k :: row[k] < row[i]
    decreases hi - lo
  {
    if lo == hi then lo
    else
      var k := ArgBest(row, lo, hi - 1, right);
      if row[hi] < row[k] || (right && row[hi] == row[k]) then hi else k
  }

  /** The least of row[j-1], row[j], row[j+1], ignoring what falls off either end. */
  function NearMin(row: seq<real>, j: int): (v: real)
    requires 0 <= j < |row|
  {
    row[ArgBest(row, Lo(j), Hi(j, |row|), false)]
  }

  function FirstRow(c: CostFn, m: nat): (r: seq<real>)
    ensures |r| == m
  {
    seq(m, j => c(0, j))
  }

  /** The cheapest way to arrive at each position of step t, from the row of step t - 1. */
  function NextRow(c: CostFn, t: nat, prev: seq<real>): (r: seq<real>)
    ensures |r| == |prev|
  {
    seq(|prev|, j requires 0 <= j < |prev| => c(t, j) + NearMin(prev, j))
  }

  ghost predicate IsTable(table: seq<seq<real>>, m: nat) {
    forall t | 0 <= t < |table| :: |table[t]| == m
  }

  function Table(c: CostFn, m: nat, n: nat): (table: seq<seq<real>>)
    ensures |table| == n && IsTable(table, m)
  {
    if n == 0 then []
    else
      var shorter := Table(c, m, n - 1);
      shorter + [if n == 1 then FirstRow(c, m) else NextRow(c, n - 1, shorter[n - 2])]
  }

  /** The seam read back from a table, last step first, that ends at position j. */
  function Trace(table: seq<seq<real>>, m: nat, j: int, right: bool): (p: seq<int>)
    requires |table| > 0 && 0 <= j < m && IsTable(table, m)
    ensures |p| == |table| && p[|p|-1] == j
  {
    var t := |table| - 1;
    if t == 0 then [j]
    else Trace(table[..t], m, ArgBest(table[t-1], Lo(j), Hi(j, m), right), right) + [j]
  }

  function BestTrace(table: seq<seq<real>>, m: nat, right: bool): (p: seq<int>)
    requires |table| > 0 && m > 0 && IsTable(table, m)
    ensures |p| == |table|
  {
    Trace(table, m, ArgBest(table[|table|-1], 0, m - 1, right), right)
  }

  // ---- the table and the traceback, entry by entry ----

  /** The recurrence every finder's table obeys. */
  ghost predicate IsDpTable(c: CostFn, table: seq<seq<real>>, m: nat) {
    && m > 0 && IsTable(table, m)
    && (|table| > 0 ==> forall j | 0 <= j < m :: table[0][j] == c(0, j))
    && forall t, j | 0 < t < |table| && 0 <= j < m :: Obeys(c, table, m, t, j)
  }

  ghost predicate Obeys(c: CostFn, table: seq<seq<real>>, m: nat, t: int, j: int)
    requires 0 < t < |table| && 0 <= j < m && IsTable(table, m)
  {
    table[t][j] == c(t, j) + NearMin(table[t-1], j)
  }

  lemma ExtendDpTable(c: CostFn, table: seq<seq<real>>, m: nat, row: seq<real>)
    requires IsDpTable(c, table, m) && |row| == m
    requires forall j | 0 <= j < m ::
               row[j] == c(|table|, j) + if table == [] then 0.0 else NearMin(table[|table|-1], j)
    ensures IsDpTable(c, table + [row], m)
  {
    var longer := table + [row];
    forall t, j | 0 < t < |longer| && 0 <= j < m
      ensures Obeys(c, longer, m, t, j)
    {
      if t < |table| {
        assert Obeys(c, table, m, t, j);
        assert longer[t] == table[t] && longer[t-1] == table[t-1];
      } else {
        assert longer[t] == row && longer[t-1] == table[t-1];
      }
    }
  }

  lemma {:induction false} TableIsDpTable(c: CostFn, m: nat, n: nat)
    requires m > 0
    ensures IsDpTable(c, Table(c, m, n), m)
  {
    if n > 0 {
      var shorter := Table(c, m, n - 1);
      TableIsDpTable(c, m, n - 1);
      var row := if n == 1 then FirstRow(c, m) else NextRow(c, n - 1, shorter[n - 2]);
      assert Table(c, m, n) == shorter + [row];
      ExtendDpTable(c, shorter, m, row);
    }
  }

  /** p is read back from the table: it starts at a preferred cheapest entry of the last row,
      and each earlier position is the preferred cheapest neighbour of the next. */
  ghost predicate IsTraceback(table: seq<seq<real>>, m: nat, right: bool, p: seq<int>) {
    && m > 0 && IsTable(table, m) && |p| == |table| > 0
    && p[|p|-1] == ArgBest(table[|p|-1], 0, m - 1, right)
    && (forall t | 0 <= t < |p| :: 0 <= p[t] < m)
    && (forall t | 0 <= t < |p| - 1 :: Follows(table, m, right, p, t))
  }

  ghost predicate Follows(table: seq<seq<real>>, m: nat, right: bool, p: seq<int>, t: int)
    requires m > 0 && IsTable(table, m) && |p| == |table| && 0 <= t < |p| - 1
  {
    0 <= p[t+1] < m && p[t] == ArgBest(table[t], Lo(p[t+1]), Hi(p[t+1], m), right)
  }

  lemma {:induction false} TraceAt(table: seq<seq<real>>, m: nat, j: int, right: bool, t: nat)
    requires t + 1 < |table| && 0 <= j < m && IsTable(table, m)
    ensures var p := Trace(table, m, j, right);
            0 <= p[t+1] < m && p[t] == ArgBest(table[t], Lo(p[t+1]), Hi(p[t+1], m), right)
    decreases |table|
  {
    var last := |table| - 1;
    if t + 1 < last {
      TraceAt(table[..last], m, ArgBest(table[last-1], Lo(j), Hi(j, m), right), right, t);
    }
  }

  lemma BestTraceIsTraceback(table: seq<seq<real>>, m: nat, right: bool)
    requires m > 0 && IsTable(table, m) && |table| > 0
    ensures IsTraceback(table, m, right, BestTrace(table, m, right))
  {
    var j := ArgBest(table[|table|-1], 0, m - 1, right);
    var p := BestTrace(table, m, right);
    forall t | 0 <= t < |p| - 1
      ensures 0 <= p[t] < m && Follows(table, m, right, p, t)
    {
      TraceAt(table, m, j, right, t);
    }
  }

  /** A traceback is determined by the table. */
  lemma {:induction false} TracebackIsUnique(table: seq<seq<real>>, m: nat, right: bool, p: seq<int>, q: seq<int>,
                                             t: nat)
    requires IsTraceback(table, m, right, p) && IsTraceback(table, m, right, q) && t < |p|
    ensures p[t] == q[t]
    decreases |p| - t
  {
    if t + 1 < |p| {
      TracebackIsUnique(table, m, right, p, q, t + 1);
      assert Follows(table, m, right, p, t) && Follows(table, m, right, q, t);
    }
  }

  /** A traceback is a seam, whatever the table holds. */
  lemma TracebackIsSeam(table: seq<seq<real>>, m: nat, right: bool, p: seq<int>)
    requires IsTraceback(table, m, right, p)
    ensures IsSeam(p, |table|, m)
  {
    forall i, k | 0 <= i < k < |p| && k == i + 1
      ensures -1 <= p[k] - p[i] <= 1
    {
      assert Follows(table, m, right, p, i);
    }
  }

  // ---- optimality ----

  /** No cheaper seam through n steps exists. */
  ghost predicate IsOptimal(c: CostFn, m: nat, n: nat, p: seq<int>) {
    && IsSeam(p, n, m)
    && forall q | IsSeam(q, n, m) :: SeamCost(c, p) <= SeamCost(c, q)
  }

  /** a is on the preferred side of b at every step, or equal to it. */
  ghost predicate Preferred(a: seq<int>, b: seq<int>, right: bool) {
    |a| == |b| && forall i | 0 <= i < |a| :: if right then b[i] <= a[i] else a[i] <= b[i]
  }

  /** No seam arrives more cheaply than the table says. */
  lemma {:induction false} TableIsLowerBound(c: CostFn, table: seq<seq<real>>, m: nat, q: seq<int>, t: nat)
    requires IsDpTable(c, table, m) && IsSeam(q, |table|, m) && t < |table|
    ensures table[t][q[t]] <= CostUpTo(c, q, t + 1)
  {
    if t > 0 {
      TableIsLowerBound(c, table, m, q, t - 1);
      assert Obeys(c, table, m, t, q[t]);
      assert Lo(q[t]) <= q[t-1] <= Hi(q[t], m);
    }
  }

  /** A traceback arrives everywhere as cheaply as the table says. */
  lemma {:induction false} TracebackCost(c: CostFn, table: seq<seq<real>>, m: nat, right: bool, p: seq<int>, t: nat)
    requires IsDpTable(c, table, m) && IsTraceback(table, m, right, p) && t < |p|
    ensures CostUpTo(c, p, t + 1) == table[t][p[t]]
  {
    if t > 0 {
      TracebackCost(c, table, m, right, p, t - 1);
      assert Follows(table, m, right, p, t - 1);
      assert Obeys(c, table, m, t, p[t]);
      NearMinAnyTie(table[t-1], p[t], right);
    }
  }

  /** Which of several tied neighbours is taken does not change the cost. */
  lemma {:induction false} NearMinAnyTie(row: seq<real>, j: int, right: bool)
    requires 0 <= j < |row|
    ensures row[ArgBest(row, Lo(j), Hi(j, |row|), right)] == NearMin(row, j)
  {
  }

  /** A traceback is a cheapest seam. */
  lemma TracebackIsOptimal(c: CostFn, table: seq<seq<real>>, m: nat, right: bool, p: seq<int>)
    requires IsDpTable(c, table, m) && IsTraceback(table, m, right, p)
    ensures IsOptimal(c, m, |table|, p)
  {
    var last := |table| - 1;
    TracebackIsSeam(table, m, right, p);
    TracebackCost(c, table, m, right, p, last);
    forall q | IsSeam(q, |table|, m)
      ensures SeamCost(c, p) <= SeamCost(c, q)
    {
      TableIsLowerBound(c, table, m, q, last);
    }
  }

  /** If q arrives at step t as cheaply as the table says, so it did at step t - 1, through a cheapest neighbour. */
  lemma TightPrefix(c: CostFn, table: seq<seq<real>>, m: nat, q: seq<int>, t: nat)
    requires IsDpTable(c, table, m) && IsSeam(q, |table|, m) && 0 < t < |table|
    requires CostUpTo(c, q, t + 1) == table[t][q[t]]
    ensures CostUpTo(c, q, t) == table[t-1][q[t-1]] == NearMin(table[t-1], q[t])
  {
    TableIsLowerBound(c, table, m, q, t - 1);
    assert Obeys(c, table, m, t, q[t]);
    assert Lo(q[t]) <= q[t-1] <= Hi(q[t], m);
  }

  /** The crossing argument for one step: if q's next position is no more preferred than j,
      then q's position before that is no more preferred than the traceback's. */
  lemma {:induction false} NoCrossing(row: seq<real>, j: int, right: bool, q: int, q': int)
    requires 0 <= j < |row| && 0 <= q < |row| && 0 <= q' < |row|
    requires -1 <= q - q' <= 1
    requires if right then q <= j else j <= q
    requires row[q'] == NearMin(row, q)
    ensures var k := ArgBest(row, Lo(j), Hi(j, |row|), right);
            if right then q' <= k else k <= q'
  {
    var k := ArgBest(row, Lo(j), Hi(j, |row|), right);
    assert NearMin(row, q) <= row[k] || !(Lo(q) <= k <= Hi(q, |row|));
  }

  /** No cheapest seam is ever beyond the traceback. */
  lemma {:induction false} TracebackIsExtremeAt(c: CostFn, table: seq<seq<real>>, m: nat, right: bool, p: seq<int>,
                                                q: seq<int>, t: nat)
    requires IsDpTable(c, table, m) && IsTraceback(table, m, right, p)
    requires IsOptimal(c, m, |table|, q) && t < |p|
    ensures CostUpTo(c, q, t + 1) == table[t][q[t]]
    ensures if right then q[t] <= p[t] else p[t] <= q[t]
    decreases |p| - t
  {
    if t + 1 == |p| {
      TracebackIsOptimal(c, table, m, right, p);
      TracebackCost(c, table, m, right, p, t);
      TableIsLowerBound(c, table, m, q, t);
      assert SeamCost(c, q) <= SeamCost(c, p);
    } else {
      TracebackIsExtremeAt(c, table, m, right, p, q, t + 1);
      TightPrefix(c, table, m, q, t + 1);
      assert Follows(table, m, right, p, t);
      NoCrossing(table[t], p[t+1], right, q[t+1], q[t]);
    }
  }

  /** A table and a traceback of it always exist. */
  lemma TracebackExists(c: CostFn, m: nat, n: nat, right: bool) returns (table: seq<seq<real>>, p: seq<int>)
    requires m > 0 && n > 0
    ensures |table| == n && IsDpTable(c, table, m) && IsTraceback(table, m, right, p)
  {
    table := Table(c, m, n);
    p := BestTrace(table, m, right);
    TableIsDpTable(c, m, n);
    BestTraceIsTraceback(table, m, right);
  }

  /** Among all cheapest seams, a traceback is furthest to the preferred side at every single step. */
  lemma TracebackIsExtreme(c: CostFn, table: seq<seq<real>>, m: nat, right: bool, p: seq<int>, q: seq<int>)
    requires IsDpTable(c, table, m) && IsTraceback(table, m, right, p)
    requires IsOptimal(c, m, |table|, q)
    ensures Preferred(p, q, right)
  {
    forall t | 0 <= t < |p|
      ensures if right then q[t] <= p[t] else p[t] <= q[t]
    {
      TracebackIsExtremeAt(c, table, m, right, p, q, t);
    }
  }

  /** p is a cheapest seam and, step by step, the most preferred of all cheapest seams. */
  ghost predicate IsExtremeOptimum(c: CostFn, m: nat, n: nat, right: bool, p: seq<int>) {
    IsOptimal(c, m, n, p) && forall q | IsOptimal(c, m, n, q) :: Preferred(p, q, right)
  }

  lemma TracebackIsExtremeOptimum(c: CostFn, table: seq<seq<real>>, m: nat, right: bool, p: seq<int>)
    requires IsDpTable(c, table, m) && IsTraceback(table, m, right, p)
    ensures IsExtremeOptimum(c, m, |table|, right, p)
  {
    TracebackIsOptimal(c, table, m, right, p);
    forall q | IsOptimal(c, m, |table|, q)
      ensures Preferred(p, q, right)
    {
      TracebackIsExtreme(c, table, m, right, p, q);
    }
  }

  lemma ExtremeOptimumExists(c: CostFn, m: nat, n: nat, right: bool) returns (p: seq<int>)
    requires m > 0 && n > 0
    ensures IsExtremeOptimum(c, m, n, right, p)
  {
    var table;
    table, p := TracebackExists(c, m, n, right);
    TracebackIsExtremeOptimum(c, table, m, right, p);
  }

  /** Optimality and extremity together leave only one seam. */
  lemma ExtremeOptimumIsUnique(c: CostFn, m: nat, n: nat, right: bool, p: seq<int>, q: seq<int>)
    requires IsExtremeOptimum(c, m, n, right, p) && IsExtremeOptimum(c, m, n, right, q)
    ensures p == q
  {
    assert Preferred(p, q, right) && Preferred(q, p, right);
  }

  /** Where costs are never negative, a seam costs something as soon as one of its steps does. */
  lemma {:induction false} CostCoversEachStep(c: CostFn, p: seq<int>, t: nat)
    requires t <= |p| && forall i | 0 <= i < |p| :: c(i, p[i]) >= 0.0
    ensures CostUpTo(c, p, t) >= 0.0 && forall i | 0 <= i < t :: c(i, p[i]) <= CostUpTo(c, p, t)
  {
    if t > 0 {
      CostCoversEachStep(c, p, t - 1);
    }
  }

  lemma {:induction false} FreeSeamCostsNothing(c: CostFn, p: seq<int>, t: nat)
    requires t <= |p| && forall i | 0 <= i < |p| :: c(i, p[i]) == 0.0
    ensures CostUpTo(c, p, t) == 0.0
  {
    if t > 0 {
      FreeSeamCostsNothing(c, p, t - 1);
    }
  }

  /** g is a seam that costs nothing, and nothing off it is free. */
  ghost predicate IsOnlyFreeSeam(c: CostFn, m: nat, n: nat, g: seq<int>) {
    && IsSeam(g, n, m)
    && forall t, j | 0 <= t < n && 0 <= j < m :: if j == g[t] then c(t, j) == 0.0 else c(t, j) > 0.0
  }

  /** Such a seam is the only cheapest one. */
  lemma OnlyFreeSeamIsOptimal(c: CostFn, m: nat, n: nat, g: seq<int>, p: seq<int>)
    requires IsOnlyFreeSeam(c, m, n, g) && IsOptimal(c, m, n, p)
    ensures p == g
  {
    FreeSeamCostsNothing(c, g, n);
    assert forall i | 0 <= i < n :: 0 <= p[i] < m && c(i, p[i]) >= 0.0;
    CostCoversEachStep(c, p, n);
    assert SeamCost(c, p) <= SeamCost(c, g);
    forall i | 0 <= i < n
      ensures p[i] == g[i]
    {
      assert c(i, p[i]) <= 0.0;
    }
  }

  lemma {:induction false} CostCongruence(c: CostFn, d: CostFn, m: nat, p: seq<int>, t: nat)
    requires IsSeam(p, |p|, m) && t <= |p|
    requires forall s, j | 0 <= s < |p| && 0 <= j < m :: c(s, j) == d(s, j)
    ensures CostUpTo(c, p, t) == CostUpTo(d, p, t)
  {
    if t > 0 {
      CostCongruence(c, d, m, p, t - 1);
    }
  }

  lemma OptimalCongruence(c: CostFn, d: CostFn, m: nat, n: nat, p: seq<int>)
    requires forall s, j | 0 <= s < n && 0 <= j < m :: c(s, j) == d(s, j)
    requires IsOptimal(c, m, n, p)
    ensures IsOptimal(d, m, n, p)
  {
    CostCongruence(c, d, m, p, n);
    forall q | IsSeam(q, n, m)
      ensures SeamCost(d, p) <= SeamCost(d, q)
    {
      CostCongruence(c, d, m, q, n);
    }
  }

  /** Only the costs inside the strip matter. */
  lemma ExtremeOptimumCongruence(c: CostFn, d: CostFn, m: nat, n: nat, right: bool, p: seq<int>)
    requires forall s, j | 0 <= s < n && 0 <= j < m :: c(s, j) == d(s, j)
    requires IsExtremeOptimum(c, m, n, right, p)
    ensures IsExtremeOptimum(d, m, n, right, p)
  {
    OptimalCongruence(c, d, m, n, p);
    forall q | IsOptimal(d, m, n, q)
      ensures Preferred(p, q, right)
    {
      OptimalCongruence(d, c, m, n, q);
    }
  }

  /** The running minimum the table loop keeps is `NearMin`. */
  lemma NearMinIs(row: seq<real>, j: int, v: real)
    requires 0 <= j < |row|
    requires v <= row[j] && (j > 0 ==> v <= row[j-1]) && (j + 1 < |row| ==> v <= row[j+1])
    requires v == row[j] || (j > 0 && v == row[j-1]) || (j + 1 < |row| && v == row[j+1])
    ensures v == NearMin(row, j)
  {
    var k := ArgBest(row, Lo(j), Hi(j, |row|), false);
    assert k == j || k == j - 1 || k == j + 1;
    assert row[k] <= v;
  }

  /** The index the code's `min_by` picks out of row `t` of the table between lo and hi. */
  method MinInRow(dp: array2<real>, t: nat, lo: nat, hi: nat, right: bool, ghost row: seq<real>) returns (k: nat)
    requires t < dp.Length0 && lo <= hi < dp.Length1 == |row|
    requires forall j | 0 <= j < |row| :: dp[t, j] == row[j]
    ensures k == ArgBest(row, lo, hi, right)
  {
    k := lo;
    var i := lo + 1;
    while i <= hi
      invariant lo < i <= hi + 1 && lo <= k <= hi
      invariant k == ArgBest(row, lo, i - 1, right)
    {
      if dp[t, i] < dp[t, k] || (right && dp[t, i] == dp[t, k]) {
        k := i;
      }
      i := i + 1;
    }
  }

  /** The same over a column of the table. */
  method MinInColumn(dp: array2<real>, t: nat, lo: nat, hi: nat, right: bool, ghost col: seq<real>) returns (k: nat)
    requires t < dp.Length1 && lo <= hi < dp.Length0 == |col|
    requires forall j | 0 <= j < |col| :: dp[j, t] == col[j]
    ensures k == ArgBest(col, lo, hi, right)
  {
    k := lo;
    var i := lo + 1;
    while i <= hi
      invariant lo < i <= hi + 1 && lo <= k <= hi
      invariant k == ArgBest(col, lo, i - 1, right)
    {
      if dp[i, t] < dp[k, t] || (right && dp[i, t] == dp[k, t]) {
        k := i;
      }
      i := i + 1;
    }
  }
}
