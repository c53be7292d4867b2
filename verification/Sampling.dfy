/** Poster timestamps (sampling.rs) over exact reals: evenly spread, jittered, and moved out of skipped segments.

    The random draws are an arbitrary function of the frame number.
 */
module Sampling {
  /** A half-open stretch of time. */
  datatype Span = Span(s: real, e: real) {
    predicate Has(x: real) { s <= x < e }
    function Length(): real { e - s }
  }

  ghost predicate InSome(spans: seq<Span>, x: real) { exists i :: 0 <= i < |spans| && spans[i].Has(x) }

  // ---- even and jittered timestamps ----

  function EvenAt(spacing: real, i: nat): real { spacing / 2.0 + i as real * spacing }

  /** Neighbours lie one gap apart, and half a gap is left at either end. */
  ghost predicate EvenlySpread(ts: seq<real>, duration: real) {
    && (ts != [] ==> duration - ts[|ts|-1] == ts[0])
    && forall i, j | 0 <= i < j < |ts| && j == i + 1 :: ts[j] - ts[i] == ts[0] + ts[0]
  }

  ghost predicate AllInside(ts: seq<real>, duration: real) { forall i | 0 <= i < |ts| :: 0.0 < ts[i] < duration }

  method EvenTimestamps(duration: real, total: nat) returns (ts: seq<real>)
    ensures |ts| == total && EvenlySpread(ts, duration)
    ensures duration > 0.0 ==> AllInside(ts, duration)
  {
    if total == 0 { return []; }
    var spacing := duration / total as real;
    ts := seq(total, i requires 0 <= i => EvenAt(spacing, i));
    EvenlySpreadIff(ts, duration);
    if duration > 0.0 {
      forall i | 0 <= i < total
        ensures 0.0 < ts[i] < duration
      {
        EvenIsCentred(duration, total, i);
      }
    }
  }

  lemma {:induction false} EvenSteps(ts: seq<real>, duration: real, i: nat)
    requires EvenlySpread(ts, duration) && i < |ts|
    ensures ts[i] == ts[0] + i as real * (ts[0] + ts[0])
  {
    if i > 0 {
      EvenSteps(ts, duration, i - 1);
      assert ts[i] - ts[i-1] == ts[0] + ts[0];
      NextMultiple(i - 1, ts[0] + ts[0]);
    }
  }

  lemma NextMultiple(i: nat, g: real)
    ensures (i + 1) as real * g == i as real * g + g
  {
  }

  lemma QuotientIs(a: real, b: real, q: real)
    requires b > 0.0 && a == b * q
    ensures a / b == q
  {
  }

  lemma EvenlySpreadGap(ts: seq<real>, duration: real)
    requires ts != [] && EvenlySpread(ts, duration)
    ensures duration / |ts| as real == ts[0] + ts[0]
  {
    var n, g := |ts|, ts[0] + ts[0];
    EvenSteps(ts, duration, n - 1);
    NextMultiple(n - 1, g);
    QuotientIs(duration, n as real, g);
  }

  ghost predicate AreMidpoints(ts: seq<real>, spacing: real) { forall i | 0 <= i < |ts| :: ts[i] == EvenAt(spacing, i) }

  lemma MidpointsAreSpread(ts: seq<real>, duration: real)
    requires ts != [] && AreMidpoints(ts, duration / |ts| as real)
    ensures EvenlySpread(ts, duration)
  {
    var n, spacing := |ts|, duration / |ts| as real;
    NextMultiple(n - 1, spacing);
    assert n as real * spacing == duration;
    forall i, j | 0 <= i < j < n && j == i + 1
      ensures ts[j] - ts[i] == ts[0] + ts[0]
    {
      NextMultiple(i, spacing);
    }
  }

  /** Only the midpoints of equal stretches of the video are spread so. */
  lemma EvenlySpreadIff(ts: seq<real>, duration: real)
    requires ts != []
    ensures EvenlySpread(ts, duration) <==> AreMidpoints(ts, duration / |ts| as real)
  {
    if EvenlySpread(ts, duration) {
      EvenlySpreadGap(ts, duration);
      forall i | 0 <= i < |ts|
        ensures ts[i] == EvenAt(duration / |ts| as real, i)
      {
        EvenSteps(ts, duration, i);
      }
    }
    if AreMidpoints(ts, duration / |ts| as real) { MidpointsAreSpread(ts, duration); }
  }

  function Min(a: real, b: real): real { if a < b then a else b }
  function Max(a: real, b: real): real { if a < b then b else a }

  function MaxJitter(spacing: real): real { Max(Min(spacing / 4.0, (spacing - 2.0) / 2.0), 0.0) }

  type U64 = x: int | 0 <= x < 0x1_0000_0000_0000_0000

  /** The top 53 bits of a draw, as a fraction of 2^53. */
  function Normalized(r: U64): real { (r / 2048) as real / 9007199254740992.0 }

  function Jitter(r: U64, maxJitter: real): real { (Normalized(r) - 0.5) * 2.0 * maxJitter }

  /** The top 53 bits of the draw say how far t is into the window of half-width m around the even timestamp. */
  predicate IsDrawn(t: real, even: real, m: real, r: U64) {
    (t - (even - m)) * 9007199254740992.0 == 2.0 * m * (r / 2048) as real
  }

  /** Neighbours keep two seconds apart, or the even spacing where that is less. */
  ghost predicate KeepApart(ts: seq<real>, spacing: real) {
    forall i, j | 0 <= i < j < |ts| && j == i + 1 :: ts[j] - ts[i] >= Min(2.0, spacing)
  }

  method JitteredTimestamps(duration: real, total: nat, draw: nat -> U64) returns (ts: seq<real>)
    ensures |ts| == total
    ensures total > 0 ==> var spacing := duration / total as real;
              && (forall i | 0 <= i < total :: IsDrawn(ts[i], EvenAt(spacing, i), MaxJitter(spacing), draw(i)))
              && (MaxJitter(spacing) == 0.0 ==> EvenlySpread(ts, duration))
              && (duration > 0.0 ==> AllInside(ts, duration) && KeepApart(ts, spacing))
  {
    var even := EvenTimestamps(duration, total);
    if total == 0 { return even; }
    var spacing := duration / total as real;
    var maxJitter := MaxJitter(spacing);
    EvenlySpreadIff(even, duration);
    if maxJitter == 0.0 {
      JitteredAreSpread(duration, total, draw, even);
      return even;
    }
    ts := seq(total, i requires 0 <= i < total => even[i] + Jitter(draw(i), maxJitter));
    JitteredAreSpread(duration, total, draw, ts);
  }

  function JitteredAt(spacing: real, i: nat, draw: nat -> U64): real {
    if MaxJitter(spacing) == 0.0 then EvenAt(spacing, i) else EvenAt(spacing, i) + Jitter(draw(i), MaxJitter(spacing))
  }

  lemma NormalizedIsAFraction(r: U64)
    ensures 0.0 <= Normalized(r) < 1.0
  {
    assert 0 <= r / 2048 < 9007199254740992;
  }

  lemma JitterIsBounded(r: U64, maxJitter: real)
    requires maxJitter > 0.0
    ensures -maxJitter <= Jitter(r, maxJitter) < maxJitter
  {
    NormalizedIsAFraction(r);
    var f := (Normalized(r) - 0.5) * 2.0;
    assert -1.0 <= f < 1.0;
    Scaled(-1.0, f, maxJitter);
    StrictlyScaled(f, 1.0, maxJitter);
  }

  lemma Scaled(a: real, b: real, c: real)
    requires a <= b && c >= 0.0
    ensures a * c <= b * c
  {
    assert (b - a) * c >= 0.0;
  }

  lemma StrictlyScaled(a: real, b: real, c: real)
    requires a < b && c > 0.0
    ensures a * c < b * c
  {
    assert (b - a) * c > 0.0;
  }

  lemma EvenIsCentred(duration: real, total: nat, i: nat)
    requires duration > 0.0 && i < total
    ensures var spacing := duration / total as real;
            && spacing > 0.0
            && spacing / 2.0 <= EvenAt(spacing, i) <= duration - spacing / 2.0
            && EvenAt(spacing, i + 1) - EvenAt(spacing, i) == spacing
  {
    var spacing, n := duration / total as real, i as real;
    assert spacing * total as real == duration;
    Scaled(0.0, n, spacing);
    Scaled(n + 1.0, total as real, spacing);
    assert (n + 1.0) * spacing == n * spacing + spacing;
    assert (i + 1) as real == n + 1.0;
  }

  lemma MaxJitterIsSmall(spacing: real)
    requires spacing > 0.0
    ensures 0.0 <= MaxJitter(spacing) < spacing / 2.0
    ensures MaxJitter(spacing) > 0.0 ==> spacing - 2.0 * MaxJitter(spacing) >= 2.0
  {
  }

  /** The window is the widest one of at most a quarter of the spacing to either side that leaves two seconds between
      neighbouring windows; there is none where even the narrowest does not. */
  lemma MaxJitterIsTheWidest(spacing: real, m: real)
    requires m >= 0.0
    ensures m <= MaxJitter(spacing) <==> m == 0.0 || (4.0 * m <= spacing && spacing - 2.0 * m >= 2.0)
  {
  }

  /** Jittered timestamps stay strictly inside the video, and neighbours keep at least two seconds apart,
      or the even spacing where that is less. */
  lemma JitteredTimestampsAreSpread(duration: real, total: nat, i: nat, draw: nat -> U64)
    requires duration > 0.0 && i < total
    ensures var spacing := duration / total as real;
            && 0.0 < JitteredAt(spacing, i, draw) < duration
            && JitteredAt(spacing, i + 1, draw) - JitteredAt(spacing, i, draw) >= Min(2.0, spacing)
  {
    var spacing := duration / total as real;
    EvenIsCentred(duration, total, i);
    MaxJitterIsSmall(spacing);
    SpreadFrom(spacing, EvenAt(spacing, i), EvenAt(spacing, i + 1), i, draw, duration);
  }

  lemma SpreadFrom(spacing: real, here: real, there: real, i: nat, draw: nat -> U64, duration: real)
    requires spacing > 0.0 && here == EvenAt(spacing, i) && there == EvenAt(spacing, i + 1)
    requires spacing / 2.0 <= here <= duration - spacing / 2.0 && there - here == spacing
    ensures 0.0 < JitteredAt(spacing, i, draw) < duration
    ensures JitteredAt(spacing, i + 1, draw) - JitteredAt(spacing, i, draw) >= Min(2.0, spacing)
  {
    var m := MaxJitter(spacing);
    MaxJitterIsSmall(spacing);
    if m > 0.0 {
      var j, k := Jitter(draw(i), m), Jitter(draw(i + 1), m);
      JitterIsBounded(draw(i), m);
      JitterIsBounded(draw(i + 1), m);
      assert JitteredAt(spacing, i, draw) == here + j && JitteredAt(spacing, i + 1, draw) == there + k;
    } else {
      assert JitteredAt(spacing, i, draw) == here && JitteredAt(spacing, i + 1, draw) == there;
    }
  }

  lemma IsDrawnIff(t: real, spacing: real, i: nat, draw: nat -> U64)
    ensures IsDrawn(t, EvenAt(spacing, i), MaxJitter(spacing), draw(i)) <==> t == JitteredAt(spacing, i, draw)
  {
    var m, k := MaxJitter(spacing), (draw(i) / 2048) as real;
    assert Jitter(draw(i), m) == 2.0 * m * k / 9007199254740992.0 - m;
  }

  lemma JitteredAreSpread(duration: real, total: nat, draw: nat -> U64, ts: seq<real>)
    requires |ts| == total > 0
    requires forall i | 0 <= i < total :: ts[i] == JitteredAt(duration / total as real, i, draw)
    ensures var spacing := duration / total as real;
            && (forall i | 0 <= i < total :: IsDrawn(ts[i], EvenAt(spacing, i), MaxJitter(spacing), draw(i)))
            && (duration > 0.0 ==> AllInside(ts, duration) && KeepApart(ts, spacing))
  {
    var spacing := duration / total as real;
    forall i | 0 <= i < total
      ensures IsDrawn(ts[i], EvenAt(spacing, i), MaxJitter(spacing), draw(i))
    {
      IsDrawnIff(ts[i], spacing, i, draw);
    }
    if duration > 0.0 {
      forall i | 0 <= i < total
        ensures 0.0 < ts[i] < duration && (i + 1 < total ==> ts[i+1] - ts[i] >= Min(2.0, spacing))
      {
        JitteredTimestampsAreSpread(duration, total, i, draw);
      }
    }
  }

  // ---- what the skips leave ----

  predicate ByStart(spans: seq<Span>) { forall i, j | 0 <= i < j < |spans| :: spans[i].s <= spans[j].s }

  function Insert(sorted: seq<Span>, x: Span): seq<Span> {
    if sorted == [] then [x]
    else if x.s < sorted[0].s then [x] + sorted
    else [sorted[0]] + Insert(sorted[1..], x)
  }

  /** The stable sort by start. */
  function SortByStart(spans: seq<Span>): seq<Span> {
    if spans == [] then [] else Insert(SortByStart(spans[..|spans|-1]), spans[|spans|-1])
  }

  lemma {:induction false} InsertKeeps(sorted: seq<Span>, x: Span)
    ensures multiset(Insert(sorted, x)) == multiset(sorted) + multiset{x}
  {
    if sorted != [] {
      assert sorted == [sorted[0]] + sorted[1..];
      InsertKeeps(sorted[1..], x);
    }
  }

  lemma {:induction false} InsertSorts(sorted: seq<Span>, x: Span)
    requires ByStart(sorted)
    ensures ByStart(Insert(sorted, x))
    ensures forall k | 0 <= k < |Insert(sorted, x)| :: Insert(sorted, x)[k] == x || Insert(sorted, x)[k] in sorted
  {
    if sorted != [] {
      InsertSorts(sorted[1..], x);
    }
  }

  lemma {:induction false} SortSorts(spans: seq<Span>)
    ensures ByStart(SortByStart(spans)) && multiset(SortByStart(spans)) == multiset(spans)
  {
    if spans != [] {
      SortSorts(spans[..|spans|-1]);
      InsertSorts(SortByStart(spans[..|spans|-1]), spans[|spans|-1]);
      InsertKeeps(SortByStart(spans[..|spans|-1]), spans[|spans|-1]);
      assert spans == spans[..|spans|-1] + [spans[|spans|-1]];
    }
  }

  function Clamp(x: real, lo: real, hi: real): real
    requires lo <= hi
  {
    if x < lo then lo else if x > hi then hi else x
  }

  /** Sorted, disjoint, none empty, within [0, duration]. */
  ghost predicate AreIntervals(spans: seq<Span>, duration: real) {
    && (forall i | 0 <= i < |spans| :: 0.0 <= spans[i].s < spans[i].e <= duration)
    && (forall i, j | 0 <= i < j < |spans| :: spans[i].e <= spans[j].s)
  }

  /** Each skip ends after it starts: the parser drops the others. */
  predicate AreSkips(skip: seq<Span>) { forall i | 0 <= i < |skip| :: skip[i].s < skip[i].e }

  ghost predicate NoneSkipped(result: seq<Span>, skips: seq<Span>) {
    forall i, j, x | 0 <= i < |result| && 0 <= j < |skips| && result[i].Has(x) :: !skips[j].Has(x)
  }

  ghost predicate RestSkipped(result: seq<Span>, skips: seq<Span>, upTo: real) {
    forall x: real | 0.0 <= x < upTo :: InSome(result, x) || InSome(skips, x)
  }

  /** The state of the scan: everything before the cursor is settled. */
  ghost predicate Settled(sorted: seq<Span>, i: nat, result: seq<Span>, cursor: real, duration: real)
    requires i <= |sorted| && duration >= 0.0
  {
    && 0.0 <= cursor <= duration
    && AreIntervals(result, duration) && (result != [] ==> result[|result|-1].e <= cursor)
    && (forall j | 0 <= j < i :: Clamp(sorted[j].e, 0.0, duration) <= cursor)
    && NoneSkipped(result, sorted)
    && RestSkipped(result, sorted, cursor)
  }

  lemma GapAdded(sorted: seq<Span>, result: seq<Span>, cursor: real, s: real, duration: real)
    requires 0.0 <= cursor < s <= duration && AreIntervals(result, duration)
             && (result != [] ==> result[|result|-1].e <= cursor)
    requires NoneSkipped(result, sorted) && RestSkipped(result, sorted, cursor)
    requires forall j, x | 0 <= j < |sorted| && Span(cursor, s).Has(x) :: !sorted[j].Has(x)
    ensures var more := result + [Span(cursor, s)];
            AreIntervals(more, duration) && NoneSkipped(more, sorted) && RestSkipped(more, sorted, s)
  {
    GapCovers(result, sorted, cursor, s);
  }

  /** One round of the scan. */
  method ScanOne(sorted: seq<Span>, i: nat, result0: seq<Span>, cursor0: real, duration: real)
    returns (result: seq<Span>, cursor: real)
    requires i < |sorted| && duration >= 0.0 && ByStart(sorted) && sorted[i].s < sorted[i].e
    requires Settled(sorted, i, result0, cursor0, duration)
    ensures Settled(sorted, i + 1, result, cursor, duration)
  {
    result, cursor := result0, cursor0;
    var s := Clamp(sorted[i].s, 0.0, duration);
    var e := Clamp(sorted[i].e, 0.0, duration);
    if s > cursor {
      GapIsUnskipped(sorted, i, cursor, s, duration);
      GapAdded(sorted, result, cursor, s, duration);
      result := result + [Span(cursor, s)];
    }
    SkipCovers(result, sorted, i, Max(cursor, s), e, duration);
    if e > cursor {
      cursor := e;
    }
  }

  /** What the skips leave of the video: exactly the time in no skip. */
  method AvailableIntervals(duration: real, skip: seq<Span>) returns (result: seq<Span>)
    requires duration >= 0.0 && AreSkips(skip)
    ensures AreIntervals(result, duration)
    ensures NoneSkipped(result, skip) && RestSkipped(result, skip, duration)
  {
    var sorted := SortByStart(skip);
    SortSorts(skip);
    SameMembers(sorted, skip);
    result := [];
    var cursor := 0.0;
    for i := 0 to |sorted|
      invariant Settled(sorted, i, result, cursor, duration)
    {
      assert sorted[i] in skip;
      result, cursor := ScanOne(sorted, i, result, cursor, duration);
    }
    if cursor < duration {
      TailIsUnskipped(sorted, cursor, duration);
      GapAdded(sorted, result, cursor, duration, duration);
      result := result + [Span(cursor, duration)];
    }
    SameCoverage(result, sorted, skip, duration);
  }

  lemma SameMembers(a: seq<Span>, b: seq<Span>)
    requires multiset(a) == multiset(b)
    ensures forall x :: x in a <==> x in b
  {
    forall x
      ensures x in a <==> x in b
    {
      assert x in a <==> x in multiset(a);
      assert x in b <==> x in multiset(b);
    }
  }

  lemma SameCoverage(result: seq<Span>, a: seq<Span>, b: seq<Span>, duration: real)
    requires (forall x :: x in a <==> x in b) && NoneSkipped(result, a) && RestSkipped(result, a, duration)
    ensures NoneSkipped(result, b) && RestSkipped(result, b, duration)
  {
    forall i, j, x | 0 <= i < |result| && 0 <= j < |b| && result[i].Has(x)
      ensures !b[j].Has(x)
    {
      assert b[j] in a;
      var k :| 0 <= k < |a| && a[k] == b[j];
    }
    forall x: real | 0.0 <= x < duration
      ensures InSome(result, x) || InSome(b, x)
    {
      if !InSome(result, x) {
        var k :| 0 <= k < |a| && a[k].Has(x);
        assert a[k] in b;
        var j :| 0 <= j < |b| && b[j] == a[k];
      }
    }
  }

  lemma GapIsUnskipped(sorted: seq<Span>, i: nat, cursor: real, s: real, duration: real)
    requires ByStart(sorted) && i < |sorted| && 0.0 <= cursor < s <= duration && s == Clamp(sorted[i].s, 0.0, duration)
    requires forall j | 0 <= j < i :: Clamp(sorted[j].e, 0.0, duration) <= cursor
    ensures forall j, x | 0 <= j < |sorted| && Span(cursor, s).Has(x) :: !sorted[j].Has(x)
  {
    forall j, x | 0 <= j < |sorted| && Span(cursor, s).Has(x)
      ensures !sorted[j].Has(x)
    {
      if j < i { assert Clamp(sorted[j].e, 0.0, duration) <= cursor; } else { assert sorted[i].s <= sorted[j].s; }
    }
  }

  lemma TailIsUnskipped(sorted: seq<Span>, cursor: real, duration: real)
    requires 0.0 <= cursor < duration && forall j | 0 <= j < |sorted| :: Clamp(sorted[j].e, 0.0, duration) <= cursor
    ensures forall j, x | 0 <= j < |sorted| && Span(cursor, duration).Has(x) :: !sorted[j].Has(x)
  {
  }

  /** Adding the gap from the cursor to s covers the time up to s. */
  lemma GapCovers(result: seq<Span>, skips: seq<Span>, cursor: real, s: real)
    requires RestSkipped(result, skips, cursor) && cursor < s
    ensures RestSkipped(result + [Span(cursor, s)], skips, s)
  {
    var more := result + [Span(cursor, s)];
    forall x: real | 0.0 <= x < s
      ensures InSome(more, x) || InSome(skips, x)
    {
      if x < cursor {
        if InSome(result, x) {
          var k :| 0 <= k < |result| && result[k].Has(x);
          assert more[k].Has(x);
        }
      } else {
        assert more[|result|].Has(x);
      }
    }
  }

  /** The skip itself covers the time from there to its end. */
  lemma SkipCovers(result: seq<Span>, skips: seq<Span>, i: nat, from: real, e: real, duration: real)
    requires i < |skips| && 0.0 <= from && 0.0 <= duration && RestSkipped(result, skips, from)
    requires Clamp(skips[i].s, 0.0, duration) <= from && e == Clamp(skips[i].e, 0.0, duration)
    ensures RestSkipped(result, skips, e)
  {
    forall x: real | 0.0 <= x < e
      ensures InSome(result, x) || InSome(skips, x)
    {
      if x >= from { assert skips[i].Has(x); }
    }
  }

  // ---- moving timestamps out of the skips ----

  const EPSILON := 1.0 / 4503599627370496.0 // 2^-52

  ghost function Total(spans: seq<Span>): real {
    if spans == [] then 0.0 else Total(spans[..|spans|-1]) + spans[|spans|-1].Length()
  }

  /** How much of a span lies before y. */
  function PartBefore(span: Span, y: real): real {
    if y < span.s then 0.0 else if y > span.e then span.Length() else y - span.s
  }

  /** How much of the spans lies before y: the un-skipped time up to y. */
  ghost function Before(spans: seq<Span>, y: real): real {
    if spans == [] then 0.0 else Before(spans[..|spans|-1], y) + PartBefore(spans[|spans|-1], y)
  }

  method Sum(spans: seq<Span>) returns (sum: real)
    ensures sum == Total(spans)
  {
    sum := 0.0;
    for i := 0 to |spans|
      invariant sum == Total(spans[..i])
    {
      assert spans[..i+1][..i] == spans[..i];
      sum := sum + spans[i].Length();
    }
    assert spans[..|spans|] == spans;
  }

  lemma {:induction false} BeforeAll(spans: seq<Span>, y: real)
    requires forall i | 0 <= i < |spans| :: spans[i].s <= spans[i].e <= y
    ensures Before(spans, y) == Total(spans)
  {
    if spans != [] { BeforeAll(spans[..|spans|-1], y); }
  }

  lemma {:induction false} BeforeSplit(spans: seq<Span>, y: real, k: nat)
    requires k <= |spans| && forall i | k <= i < |spans| :: y <= spans[i].s <= spans[i].e
    ensures Before(spans, y) == Before(spans[..k], y)
    decreases |spans|
  {
    if k == |spans| {
      assert spans[..k] == spans;
    } else {
      var front := spans[..|spans|-1];
      BeforeSplit(front, y, k);
      assert front[..k] == spans[..k];
    }
  }

  /** The inner loop: the point with `compressed` un-skipped seconds before it, if there is one. */
  method Locate(intervals: seq<Span>, compressed: real, ghost duration: real) returns (found: bool, y: real)
    requires AreIntervals(intervals, duration) && intervals != []
    ensures found <==> compressed < Total(intervals)
    ensures found && compressed >= 0.0 ==> InSome(intervals, y) && Before(intervals, y) == compressed
    ensures found && compressed < 0.0 ==> intervals != [] && y == intervals[0].s + compressed
  {
    var acc := 0.0;
    for i := 0 to |intervals|
      invariant acc == Total(intervals[..i]) && acc >= 0.0
      invariant i > 0 ==> acc <= compressed
    {
      var len := intervals[i].e - intervals[i].s;
      assert intervals[..i+1][..i] == intervals[..i];
      if compressed < acc + len {
        y := intervals[i].s + (compressed - acc);
        TotalGrows(intervals, i + 1);
        if compressed >= 0.0 {
          if i > 0 { assert acc <= compressed; }
          LocatedAt(intervals, i, y, duration);
        } else {
          assert i == 0;
        }
        return true, y;
      }
      acc := acc + len;
    }
    assert intervals[..|intervals|] == intervals;
    found, y := false, 0.0;
  }

  lemma {:induction false} TotalGrows(spans: seq<Span>, k: nat)
    requires k <= |spans| && forall i | 0 <= i < |spans| :: spans[i].s < spans[i].e
    ensures Total(spans[..k]) <= Total(spans)
    decreases |spans|
  {
    if k == |spans| {
      assert spans[..k] == spans;
    } else {
      TotalGrows(spans[..|spans|-1], k);
      assert spans[..|spans|-1][..k] == spans[..k];
    }
  }

  lemma {:induction false} LocatedAt(intervals: seq<Span>, i: nat, y: real, duration: real)
    requires AreIntervals(intervals, duration) && i < |intervals| && intervals[i].Has(y)
    ensures InSome(intervals, y) && Before(intervals, y) == Total(intervals[..i]) + (y - intervals[i].s)
  {
    BeforeSplit(intervals, y, i + 1);
    assert intervals[..i+1][..i] == intervals[..i];
    BeforeAll(intervals[..i], y);
  }

  function Compressed(t: real, duration: real, avail: real): real
    requires duration > 0.0
  {
    Min(t / duration * avail, avail - EPSILON)
  }

  /** y is the point of the intervals with c un-skipped seconds before it, or, if c is negative, that much before the
      first interval. */
  ghost predicate IsAt(intervals: seq<Span>, c: real, y: real)
    requires intervals != []
  {
    if c >= 0.0 then InSome(intervals, y) && Before(intervals, y) == c else y == intervals[0].s + c
  }

  /** Where a timestamp goes. */
  ghost predicate IsRemapped(intervals: seq<Span>, duration: real, t: real, y: real)
    requires duration > 0.0
  {
    intervals != [] && IsAt(intervals, Compressed(t, duration, Total(intervals)), y)
  }

  /** Exactly the time the skips leave. */
  ghost predicate AreAvailable(intervals: seq<Span>, duration: real, skip: seq<Span>) {
    AreIntervals(intervals, duration) && NoneSkipped(intervals, skip) && RestSkipped(intervals, skip, duration)
  }

  /** What becomes of the timestamps: they stay where there is nothing to skip or nothing left, and move otherwise. */
  ghost predicate IsApplied(intervals: seq<Span>, duration: real, skip: seq<Span>, timestamps: seq<real>,
                            out: seq<real>) {
    && |out| == |timestamps|
    && (skip == [] || Total(intervals) <= 0.0 ==> out == timestamps)
    && (skip != [] && Total(intervals) > 0.0 ==>
          duration > 0.0 && forall i | 0 <= i < |out| :: IsRemapped(intervals, duration, timestamps[i], out[i]))
  }

  method ApplySkip(timestamps: seq<real>, duration: real, skip: seq<Span>)
    returns (out: seq<real>, ghost intervals: seq<Span>)
    requires duration >= 0.0 && AreSkips(skip)
    ensures skip != [] ==> AreAvailable(intervals, duration, skip)
    ensures IsApplied(intervals, duration, skip, timestamps, out)
  {
    if skip == [] { return timestamps, []; }
    var spans := AvailableIntervals(duration, skip);
    intervals := spans;
    var avail := Sum(spans);
    if avail <= 0.0 { return timestamps, intervals; }
    assert spans != [];
    assert spans[0].s < spans[0].e <= duration;
    out := [];
    for i := 0 to |timestamps|
      invariant |out| == i
      invariant forall k | 0 <= k < i :: IsRemapped(spans, duration, timestamps[k], out[k])
    {
      var fallback := spans[|spans|-1].e;
      var compressed := Compressed(timestamps[i], duration, avail);
      var found, y := Locate(spans, compressed, duration);
      assert found;
      out := out + [if found then y else fallback];
    }
  }

  // ---- what remapping guarantees ----

  lemma ScaledIsNonNegative(t: real, duration: real, avail: real)
    requires duration > 0.0 && avail > 0.0
    ensures t / duration * avail >= 0.0 <==> t >= 0.0
  {
    var q := t / duration;
    assert q * duration == t;
    if t >= 0.0 {
      assert q >= 0.0;
      Scaled(0.0, q, avail);
    } else {
      assert q < 0.0;
      StrictlyScaled(q, 0.0, avail);
    }
  }

  lemma CompressedIsNonNegative(t: real, duration: real, avail: real)
    requires duration > 0.0 && avail > 0.0
    ensures Compressed(t, duration, avail) >= 0.0 <==> t >= 0.0 && avail >= EPSILON
  {
    ScaledIsNonNegative(t, duration, avail);
  }

  lemma BeforeTheFirst(intervals: seq<Span>, duration: real, c: real, y: real)
    requires intervals != [] && AreIntervals(intervals, duration) && IsAt(intervals, c, y)
    ensures InSome(intervals, y) <==> c >= 0.0
  {
    if c < 0.0 {
      forall i | 0 <= i < |intervals|
        ensures !intervals[i].Has(y)
      {
        assert intervals[0].s <= intervals[i].s;
      }
    }
  }

  /** A timestamp lands in available time exactly when it is not negative and at least EPSILON seconds are available. */
  lemma {:induction false} LandsInAvailableTimeIff(intervals: seq<Span>, duration: real, t: real, y: real)
    requires duration > 0.0 && AreIntervals(intervals, duration) && Total(intervals) > 0.0
             && IsRemapped(intervals, duration, t, y)
    ensures InSome(intervals, y) <==> t >= 0.0 && Total(intervals) >= EPSILON
  {
    CompressedIsNonNegative(t, duration, Total(intervals));
    BeforeTheFirst(intervals, duration, Compressed(t, duration, Total(intervals)), y);
  }

  /** In available time means inside the video and in no skip. */
  lemma AvailableTimeIsUnskipped(intervals: seq<Span>, duration: real, skip: seq<Span>, y: real)
    requires AreAvailable(intervals, duration, skip)
    ensures InSome(intervals, y) <==> 0.0 <= y < duration && !InSome(skip, y)
  {
    if InSome(intervals, y) {
      var i :| 0 <= i < |intervals| && intervals[i].Has(y);
      forall j | 0 <= j < |skip|
        ensures !skip[j].Has(y)
      {
      }
    }
  }

  function Share(t: real, duration: real, avail: real): real
    requires duration > 0.0
  {
    t / duration * avail
  }

  lemma CompressedBelowTheClamp(t: real, duration: real, avail: real)
    requires duration > 0.0 && 0.0 <= Share(t, duration, avail) <= avail - EPSILON
    ensures Compressed(t, duration, avail) == Share(t, duration, avail) >= 0.0
  {
  }

  /** Below the clamp, the un-skipped time before the new timestamp is the timestamp's share of all un-skipped time. */
  lemma {:induction false} RemappingPreservesMeasure(intervals: seq<Span>, duration: real, t: real, y: real)
    requires duration > 0.0 && IsRemapped(intervals, duration, t, y)
    requires 0.0 <= Share(t, duration, Total(intervals)) <= Total(intervals) - EPSILON
    ensures InSome(intervals, y) && Before(intervals, y) == Share(t, duration, Total(intervals))
  {
    CompressedBelowTheClamp(t, duration, Total(intervals));
  }

  lemma PartGrows(span: Span, y: real, z: real)
    requires span.s <= span.e && y <= z
    ensures PartBefore(span, y) <= PartBefore(span, z)
    ensures span.Has(y) && y < z ==> PartBefore(span, y) < PartBefore(span, z)
  {
  }

  lemma {:induction false} BeforeGrows(spans: seq<Span>, y: real, z: real)
    requires (forall i | 0 <= i < |spans| :: spans[i].s <= spans[i].e) && y <= z
    ensures Before(spans, y) <= Before(spans, z)
    ensures InSome(spans, y) && y < z ==> Before(spans, y) < Before(spans, z)
  {
    if spans != [] {
      var front, last := spans[..|spans|-1], spans[|spans|-1];
      BeforeGrows(front, y, z);
      PartGrows(last, y, z);
      if InSome(spans, y) && !last.Has(y) {
        var i :| 0 <= i < |spans| && spans[i].Has(y);
        assert front[i].Has(y);
      }
    }
  }

  lemma PlacesAreOrdered(intervals: seq<Span>, duration: real, c: real, y: real, d: real, z: real)
    requires intervals != [] && AreIntervals(intervals, duration) && IsAt(intervals, c, y) && IsAt(intervals, d, z)
             && c <= d
    ensures y <= z && (c == d ==> y == z)
  {
    if c >= 0.0 {
      if z < y { BeforeGrows(intervals, z, y); }
      if y < z { BeforeGrows(intervals, y, z); }
    } else if d >= 0.0 {
      var i :| 0 <= i < |intervals| && intervals[i].Has(z);
      assert intervals[0].s <= intervals[i].s;
    }
  }

  lemma QuotientGrows(t: real, u: real, d: real)
    requires t <= u && d > 0.0
    ensures t / d <= u / d
  {
    assert u / d - t / d == (u - t) / d;
  }

  lemma CompressedGrows(t: real, u: real, duration: real, avail: real)
    requires t <= u && duration > 0.0 && avail > 0.0
    ensures Compressed(t, duration, avail) <= Compressed(u, duration, avail)
  {
    QuotientGrows(t, u, duration);
    Scaled(t / duration, u / duration, avail);
  }

  /** Remapping keeps the order, and there is only one place a timestamp can go. */
  lemma {:induction false} RemappingKeepsOrder(intervals: seq<Span>, duration: real, t: real, y: real, u: real, z: real)
    requires duration > 0.0 && AreIntervals(intervals, duration) && Total(intervals) > 0.0
    requires IsRemapped(intervals, duration, t, y) && IsRemapped(intervals, duration, u, z) && t <= u
    ensures y <= z && (t == u ==> y == z)
  {
    var avail := Total(intervals);
    CompressedGrows(t, u, duration, avail);
    PlacesAreOrdered(intervals, duration, Compressed(t, duration, avail), y, Compressed(u, duration, avail), z);
  }

  ghost predicate IsShown(y: real, duration: real, skip: seq<Span>) { 0.0 <= y < duration && !InSome(skip, y) }

  lemma {:induction false} PosterTimestamp(duration: real, total: nat, draw: nat -> U64, skip: seq<Span>,
                                           intervals: seq<Span>, i: nat, y: real)
    requires duration > 0.0 && i < total && AreAvailable(intervals, duration, skip) && Total(intervals) > 0.0
    requires IsRemapped(intervals, duration, JitteredAt(duration / total as real, i, draw), y)
    ensures IsShown(y, duration, skip) <==> Total(intervals) >= EPSILON
  {
    JitteredTimestampsAreSpread(duration, total, i, draw);
    LandsInAvailableTimeIff(intervals, duration, JitteredAt(duration / total as real, i, draw), y);
    AvailableTimeIsUnskipped(intervals, duration, skip, y);
  }

  lemma {:induction false} PosterTimestampsAscend(duration: real, total: nat, draw: nat -> U64, intervals: seq<Span>,
                                                  i: nat, y: real, z: real)
    requires duration > 0.0 && i + 1 < total && AreIntervals(intervals, duration) && Total(intervals) > 0.0
    requires IsRemapped(intervals, duration, JitteredAt(duration / total as real, i, draw), y)
    requires IsRemapped(intervals, duration, JitteredAt(duration / total as real, i + 1, draw), z)
    ensures y <= z
  {
    var spacing := duration / total as real;
    JitteredTimestampsAreSpread(duration, total, i, draw);
    EvenIsCentred(duration, total, i);
    RemappingKeepsOrder(intervals, duration, JitteredAt(spacing, i, draw), y, JitteredAt(spacing, i + 1, draw), z);
  }

  /** The jittered timestamps themselves, inside the video and in order. */
  ghost predicate AreJittered(ts: seq<real>, duration: real, total: nat, draw: nat -> U64)
    requires total > 0
  {
    |ts| == total && forall i | 0 <= i < total :: ts[i] == JitteredAt(duration / total as real, i, draw)
  }

  ghost predicate AreOrdered(ts: seq<real>) { forall i, j | 0 <= i < j < |ts| && j == i + 1 :: ts[i] <= ts[j] }
  ghost predicate AllShown(ts: seq<real>, duration: real, skip: seq<Span>) {
    forall i | 0 <= i < |ts| :: IsShown(ts[i], duration, skip)
  }

  lemma {:induction false} JitteredAreShownIff(duration: real, total: nat, draw: nat -> U64, skip: seq<Span>,
                                               intervals: seq<Span>, ts: seq<real>)
    requires duration > 0.0 && total > 0 && AreJittered(ts, duration, total, draw)
    requires skip == [] || (AreAvailable(intervals, duration, skip) && Total(intervals) <= 0.0)
    ensures AreOrdered(ts) && (AllShown(ts, duration, skip) <==> skip == [])
  {
    JitteredAreSpread(duration, total, draw, ts);
    var spacing := duration / total as real;
    EvenIsCentred(duration, total, 0);
    assert forall i, j | 0 <= i < j < |ts| && j == i + 1 :: ts[j] - ts[i] >= Min(2.0, spacing);
    if skip != [] {
      NothingIsAvailable(intervals, duration);
      assert InSome(intervals, ts[0]) || InSome(skip, ts[0]);
    }
  }

  lemma {:induction false} NothingIsAvailable(intervals: seq<Span>, duration: real)
    requires AreIntervals(intervals, duration) && Total(intervals) <= 0.0
    ensures intervals == []
  {
    if intervals != [] { TotalGrows(intervals, 1); }
  }

  /** From seed to poster, whatever is skipped: the timestamps that come out are in order, and they all land inside the
      video and outside every skip exactly when there is nothing to skip or EPSILON seconds or more are left. */
  lemma {:induction false} PosterTimestampsAvoidSkips(duration: real, total: nat, draw: nat -> U64, skip: seq<Span>,
                                                      intervals: seq<Span>, ts: seq<real>, out: seq<real>)
    requires duration > 0.0 && total > 0 && AreJittered(ts, duration, total, draw)
    requires (skip != [] ==> AreAvailable(intervals, duration, skip)) && IsApplied(intervals, duration, skip, ts, out)
    ensures AreOrdered(out)
    ensures AllShown(out, duration, skip) <==> skip == [] || Total(intervals) >= EPSILON
  {
    if skip == [] || Total(intervals) <= 0.0 {
      JitteredAreShownIff(duration, total, draw, skip, intervals, ts);
    } else {
      MovedTimestamps(duration, total, draw, skip, intervals, out);
    }
  }

  lemma {:induction false} MovedTimestamps(duration: real, total: nat, draw: nat -> U64, skip: seq<Span>,
                                           intervals: seq<Span>, out: seq<real>)
    requires duration > 0.0 && total > 0 && AreAvailable(intervals, duration, skip) && Total(intervals) > 0.0
    requires |out| == total && forall i | 0 <= i < total ::
               IsRemapped(intervals, duration, JitteredAt(duration / total as real, i, draw), out[i])
    ensures AreOrdered(out)
    ensures AllShown(out, duration, skip) <==> Total(intervals) >= EPSILON
  {
    forall i | 0 <= i < total
      ensures IsShown(out[i], duration, skip) <==> Total(intervals) >= EPSILON
    {
      PosterTimestamp(duration, total, draw, skip, intervals, i, out[i]);
    }
    forall i, j | 0 <= i < j < total && j == i + 1
      ensures out[i] <= out[j]
    {
      PosterTimestampsAscend(duration, total, draw, intervals, i, out[i], out[j]);
    }
    assert IsShown(out[0], duration, skip) <==> Total(intervals) >= EPSILON;
  }

  /** With less time left a timestamp falls back into the skip before it. */
  lemma TooLittleTimeLeft()
    ensures var e := EPSILON;
            var skip, intervals := [Span(0.0, 1.0 - e / 2.0)], [Span(1.0 - e / 2.0, 1.0)];
            && AreAvailable(intervals, 1.0, skip) && IsRemapped(intervals, 1.0, 0.5, 1.0 - e)
            && InSome(skip, 1.0 - e)
  {
    var e := EPSILON;
    var skip, intervals := [Span(0.0, 1.0 - e / 2.0)], [Span(1.0 - e / 2.0, 1.0)];
    assert skip[0].Has(1.0 - e);
    assert intervals[..0] == [];
    assert Total(intervals) == e / 2.0;
    forall x: real | 0.0 <= x < 1.0
      ensures InSome(intervals, x) || InSome(skip, x)
    {
      assert intervals[0].Has(x) || skip[0].Has(x);
    }
  }
}
