/** Near-duplicate removal before stitching (server.rs, handle_stitch and best_bridge_frame).

    How well two frames correlate is an arbitrary function.
 */
module Dedup {
  /** A perceptual hash: its bits. */
  type Hash = seq<bool>

  /** Number of differing bits. */
  function Distance(a: Hash, b: Hash): nat {
    if a == [] || b == [] then |a| + |b| else (if a[0] == b[0] then 0 else 1) + Distance(a[1..], b[1..])
  }

  /** The positions from k on at which two hashes differ. */
  ghost function DifferingBits(a: Hash, b: Hash, k: nat): set<nat>
    requires |a| == |b|
  {
    set i: nat | k <= i < |a| && a[i] != b[i]
  }

  lemma {:induction false} DistanceFrom(a: Hash, b: Hash, k: nat)
    requires k <= |a| == |b|
    ensures Distance(a[k..], b[k..]) == |DifferingBits(a, b, k)|
    decreases |a| - k
  {
    if k == |a| {
      assert DifferingBits(a, b, k) == {};
    } else {
      DistanceFrom(a, b, k + 1);
      assert a[k..][1..] == a[k+1..] && b[k..][1..] == b[k+1..];
      assert DifferingBits(a, b, k) == DifferingBits(a, b, k + 1) + if a[k] == b[k] then {} else {k};
    }
  }

  /** How far two hashes are apart is in how many bits they differ. */
  lemma {:induction false} DistanceCountsDifferingBits(a: Hash, b: Hash)
    requires |a| == |b|
    ensures Distance(a, b) == |DifferingBits(a, b, 0)|
  {
    DistanceFrom(a, b, 0);
    assert a[0..] == a && b[0..] == b;
  }

  datatype Shot = Shot(fidx: int, hash: Hash)

  type Quality = (Shot, Shot) -> real

  const MAX_DISTANCE := 6

  predicate Near(input: seq<Shot>, a: nat, i: nat)
    requires a < |input| && i < |input|
  {
    Distance(input[a].hash, input[i].hash) <= MAX_DISTANCE
  }

  /** The first frame from i on that is not near frame a, or the end. */
  function NextAnchor(input: seq<Shot>, a: nat, i: nat): (b: nat)
    requires a < |input| && i <= |input|
    ensures i <= b <= |input|
    ensures forall k | i <= k < b :: Near(input, a, k)
    ensures b < |input| ==> !Near(input, a, b)
    decreases |input| - i
  {
    if i == |input| || !Near(input, a, i) then i else NextAnchor(input, a, i + 1)
  }

  /** k is the first frame of the run that correlates best with the next anchor;
      correlations of -1 and less count as none. */
  ghost predicate IsBridge(input: seq<Shot>, quality: Quality, lo: nat, hi: nat, k: nat)
    requires lo <= hi < |input|
  {
    && lo <= k < hi
    && (forall j | lo <= j < k :: quality(input[j], input[hi]) < quality(input[k], input[hi]))
    && (forall j | lo <= j < hi ::
        quality(input[j], input[hi]) <= quality(input[k], input[hi]) || quality(input[j], input[hi]) <= -1.0)
    && (k > lo ==> quality(input[k], input[hi]) > -1.0)
  }

  method BestBridge(run: seq<Shot>, next: Shot, quality: Quality, ghost input: seq<Shot>, ghost lo: nat)
    returns (best: nat)
    requires run != [] && lo + |run| < |input| && input[lo..lo + |run|] == run && input[lo + |run|] == next
    ensures best < |run| && IsBridge(input, quality, lo, lo + |run|, lo + best)
  {
    best := 0;
    var bestQ := -1.0;
    for i := 0 to |run|
      invariant best < |run| && (best < i || i == 0)
      invariant bestQ >= -1.0
      invariant bestQ == -1.0 ==> best == 0
      invariant bestQ > -1.0 ==> i > 0 && bestQ == quality(run[best], next)
      invariant forall j | 0 <= j < i :: quality(run[j], next) <= bestQ
      invariant bestQ > -1.0 ==> forall j | 0 <= j < best :: quality(run[j], next) < bestQ
    {
      var q := quality(run[i], next);
      if q > bestQ {
        bestQ := q;
        best := i;
      }
    }
    forall j | lo <= j < lo + |run|
      ensures input[j] == run[j - lo]
    {
      assert input[lo..lo + |run|][j - lo] == input[j];
    }
  }

  ghost function Bridge(input: seq<Shot>, quality: Quality, lo: nat, hi: nat): (k: nat)
    requires lo < hi < |input|
    ensures IsBridge(input, quality, lo, hi, k)
  {
    BridgeExists(input, quality, lo, hi);
    var k :| IsBridge(input, quality, lo, hi, k);
    k
  }

  lemma {:induction false} BridgeExists(input: seq<Shot>, quality: Quality, lo: nat, hi: nat)
    requires lo < hi < |input|
    ensures exists k :: IsBridge(input, quality, lo, hi, k)
  {
    var k := FirstBest(input, quality, lo, hi, hi);
    if quality(input[k], input[hi]) > -1.0 {
      assert IsBridge(input, quality, lo, hi, k);
    } else {
      assert IsBridge(input, quality, lo, hi, lo);
    }
  }

  lemma {:induction false} FirstBest(input: seq<Shot>, quality: Quality, lo: nat, n: nat, hi: nat) returns (k: nat)
    requires lo < n <= hi < |input|
    ensures lo <= k < n
    ensures forall j | lo <= j < n :: quality(input[j], input[hi]) <= quality(input[k], input[hi])
    ensures forall j | lo <= j < k :: quality(input[j], input[hi]) < quality(input[k], input[hi])
    decreases n
  {
    if n == lo + 1 {
      k := lo;
    } else {
      k := FirstBest(input, quality, lo, n - 1, hi);
      if quality(input[n-1], input[hi]) > quality(input[k], input[hi]) { k := n - 1; }
    }
  }

  lemma BridgeIsUnique(input: seq<Shot>, quality: Quality, lo: nat, hi: nat, k: nat, l: nat)
    requires lo < hi < |input| && IsBridge(input, quality, lo, hi, k) && IsBridge(input, quality, lo, hi, l)
    ensures k == l
  {
    BridgeIsNotLater(input, quality, lo, hi, k, l);
    BridgeIsNotLater(input, quality, lo, hi, l, k);
  }

  lemma BridgeIsNotLater(input: seq<Shot>, quality: Quality, lo: nat, hi: nat, k: nat, l: nat)
    requires lo < hi < |input| && IsBridge(input, quality, lo, hi, k) && IsBridge(input, quality, lo, hi, l)
    ensures k <= l
  {
  }

  // ---- which frames are kept ----

  /** What is kept after anchor a: the bridge to the next anchor, that anchor, and so on; after the last anchor the last
      frame. */
  ghost function KeptAfter(input: seq<Shot>, quality: Quality, a: nat): seq<nat>
    requires a < |input|
    decreases |input| - a
  {
    var b := NextAnchor(input, a, a + 1);
    if b < |input| then
      (if a + 1 < b then [Bridge(input, quality, a + 1, b)] else []) + ([b] + KeptAfter(input, quality, b))
    else if a + 1 < |input| then [|input| - 1]
    else []
  }

  ghost function Kept(input: seq<Shot>, quality: Quality): seq<nat> {
    if input == [] then [] else [0] + KeptAfter(input, quality, 0)
  }

  ghost predicate Picks(input: seq<Shot>, positions: seq<nat>, out: seq<Shot>) {
    |out| == |positions| && forall i | 0 <= i < |out| :: positions[i] < |input| && out[i] == input[positions[i]]
  }

  lemma PicksMore(input: seq<Shot>, positions: seq<nat>, out: seq<Shot>, p: nat)
    requires Picks(input, positions, out) && p < |input|
    ensures Picks(input, positions + [p], out + [input[p]])
  {
  }

  lemma RunEnds(input: seq<Shot>, quality: Quality, a: nat, i: nat, before: seq<nat>)
    requires a < i < |input| && NextAnchor(input, a, a + 1) == i
    requires Kept(input, quality) == before + KeptAfter(input, quality, a)
    ensures Kept(input, quality)
         == before + (if a + 1 < i then [Bridge(input, quality, a + 1, i)] else []) + [i] + KeptAfter(input, quality, i)
  {
  }

  /** The frame to keep from a run that ended at i. */
  method RunBridge(input: seq<Shot>, quality: Quality, run: seq<Shot>, i: nat, ghost a: nat) returns (best: nat)
    requires a + 1 < i < |input| && run == input[a + 1..i]
    ensures best < |run| && a + 1 + best == Bridge(input, quality, a + 1, i) && run[best] == input[a + 1 + best]
  {
    best := BestBridge(run, input[i], quality, input, a + 1);
    BridgeIsUnique(input, quality, a + 1, i, a + 1 + best, Bridge(input, quality, a + 1, i));
  }

  /** A frame that is no duplicate ends the run: the run's bridge goes out, then the frame itself. */
  method EndRun(input: seq<Shot>, quality: Quality, out0: seq<Shot>, run: seq<Shot>, i: nat, ghost a: nat,
                ghost before: seq<nat>)
    returns (out: seq<Shot>, ghost positions: seq<nat>)
    requires a < i < |input| && run == input[a + 1..i] && NextAnchor(input, a, a + 1) == i
    requires Picks(input, before, out0) && Kept(input, quality) == before + KeptAfter(input, quality, a)
    ensures Picks(input, positions, out) && Kept(input, quality) == positions + KeptAfter(input, quality, i)
  {
    RunEnds(input, quality, a, i, before);
    out, positions := out0, before;
    if run != [] {
      var best := RunBridge(input, quality, run, i, a);
      PicksMore(input, positions, out, a + 1 + best);
      out, positions := out + [run[best]], positions + [a + 1 + best];
    }
    PicksMore(input, positions, out, i);
    out, positions := out + [input[i]], positions + [i];
  }

  /** After i frames: `a` is the last anchor, `pendingRun` what came after it, and the rest of the answer depends on
      nothing else. */
  ghost predicate Halfway(input: seq<Shot>, quality: Quality, i: nat, a: nat, out: seq<Shot>, positions: seq<nat>,
                          run: seq<Shot>)
    requires 0 < i <= |input|
  {
    && a < i && run == input[a + 1..i]
    && NextAnchor(input, a, a + 1) == NextAnchor(input, a, i)
    && Picks(input, positions, out)
    && Kept(input, quality) == positions + KeptAfter(input, quality, a)
  }

  lemma RunGrows(input: seq<Shot>, quality: Quality, i: nat, a: nat, out: seq<Shot>, positions: seq<nat>,
                 run: seq<Shot>)
    requires 0 < i < |input| && Halfway(input, quality, i, a, out, positions, run) && Near(input, a, i)
    ensures Halfway(input, quality, i + 1, a, out, positions, run + [input[i]])
  {
    assert input[a + 1..i + 1] == run + [input[i]];
  }

  lemma {:induction false} RunStops(input: seq<Shot>, quality: Quality, i: nat, a: nat, out: seq<Shot>,
                                    positions: seq<nat>, run: seq<Shot>)
    requires 0 < i < |input| && Halfway(input, quality, i, a, out, positions, run) && !Near(input, a, i)
    ensures NextAnchor(input, a, a + 1) == i
  {
  }

  lemma {:induction false} FirstIsKept(input: seq<Shot>, quality: Quality)
    requires input != []
    ensures Picks(input, [0], [input[0]]) && Kept(input, quality) == [0] + KeptAfter(input, quality, 0)
  {
  }

  lemma {:induction false} RunBegins(input: seq<Shot>, quality: Quality, i: nat, out: seq<Shot>, positions: seq<nat>)
    requires i < |input| && Picks(input, positions, out)
             && Kept(input, quality) == positions + KeptAfter(input, quality, i)
    ensures Halfway(input, quality, i + 1, i, out, positions, [])
  {
  }

  method Deduplicate(input: seq<Shot>, quality: Quality) returns (out: seq<Shot>)
    ensures Picks(input, Kept(input, quality), out)
  {
    out := [];
    if input == [] { return; }
    ghost var positions: seq<nat> := [];
    ghost var a := 0;
    var anchorHash: seq<Hash> := []; // empty until the first anchor
    var pendingRun: seq<Shot> := [];
    for i := 0 to |input|
      invariant i == 0 ==> out == [] && positions == [] && anchorHash == [] && pendingRun == []
      invariant i > 0 ==> Halfway(input, quality, i, a, out, positions, pendingRun) && anchorHash == [input[a].hash]
    {
      var isDup := anchorHash != [] && Distance(anchorHash[0], input[i].hash) <= MAX_DISTANCE;
      if isDup {
        RunGrows(input, quality, i, a, out, positions, pendingRun);
        pendingRun := pendingRun + [input[i]];
      } else {
        if i == 0 {
          FirstIsKept(input, quality);
          out, positions := [input[0]], [0];
        } else {
          RunStops(input, quality, i, a, out, positions, pendingRun);
          out, positions := EndRun(input, quality, out, pendingRun, i, a, positions);
        }
        RunBegins(input, quality, i, out, positions);
        pendingRun := [];
        anchorHash := [input[i].hash];
        a := i;
      }
    }
    out, positions := EndInput(input, quality, out, pendingRun, a, positions);
  }

  /** The trailing run has no anchor to bridge to: its last frame goes out. */
  method EndInput(input: seq<Shot>, quality: Quality, out0: seq<Shot>, run: seq<Shot>, ghost a: nat,
                  ghost before: seq<nat>)
    returns (out: seq<Shot>, ghost positions: seq<nat>)
    requires input != [] && Halfway(input, quality, |input|, a, out0, before, run)
    ensures Picks(input, positions, out) && positions == Kept(input, quality)
  {
    out, positions := out0, before;
    if run != [] {
      PicksMore(input, positions, out, |input| - 1);
      out, positions := out + [run[|run|-1]], positions + [|input| - 1];
    } else {
      assert positions + [] == positions;
    }
  }

  // ---- what is kept and what is dropped ----

  predicate Ascends(a: nat, s: seq<nat>)
    decreases |s|
  {
    s == [] || (a < s[0] && Ascends(s[0], s[1..]))
  }

  lemma {:induction false} AscendingIsIncreasing(a: nat, s: seq<nat>)
    requires Ascends(a, s)
    ensures forall i | 0 <= i < |s| :: a < s[i]
    ensures forall i, j | 0 <= i < j < |s| :: s[i] < s[j]
    decreases |s|
  {
    if s != [] {
      AscendingIsIncreasing(s[0], s[1..]);
    }
  }

  function Last(a: nat, s: seq<nat>): nat { if s == [] then a else s[|s|-1] }

  lemma {:induction false} AscendsCons(a: nat, k: nat, s: seq<nat>)
    requires a < k && Ascends(k, s)
    ensures Ascends(a, [k] + s) && Last(a, [k] + s) == Last(k, s)
  {
    assert ([k] + s)[1..] == s;
  }

  lemma {:induction false} KeptAfterAscends(input: seq<Shot>, quality: Quality, a: nat)
    requires a < |input|
    ensures Ascends(a, KeptAfter(input, quality, a)) && Last(a, KeptAfter(input, quality, a)) == |input| - 1
    decreases |input| - a
  {
    var b := NextAnchor(input, a, a + 1);
    if b < |input| {
      var later := KeptAfter(input, quality, b);
      KeptAfterAscends(input, quality, b);
      if a + 1 < b {
        var k := Bridge(input, quality, a + 1, b);
        AscendsCons(k, b, later);
        AscendsCons(a, k, [b] + later);
      } else {
        AscendsCons(a, b, later);
        assert [] + ([b] + later) == [b] + later;
      }
    } else if a + 1 < |input| {
      AscendsCons(a, |input| - 1, []);
      assert [|input| - 1] + [] == [|input| - 1];
    }
  }

  /** The kept frames are a subsequence of the input, in its order, with its first and its last frame. */
  lemma KeptIsASubsequence(input: seq<Shot>, quality: Quality)
    ensures var kept := Kept(input, quality);
            && (forall i, j | 0 <= i < j < |kept| :: kept[i] < kept[j])
            && (kept == [] <==> input == [])
            && (input != [] ==> kept[0] == 0 && kept[|kept|-1] == |input| - 1)
  {
    if input != [] {
      KeptAfterAscends(input, quality, 0);
      StartIncreasing(KeptAfter(input, quality, 0));
    }
  }

  lemma {:induction false} StartIncreasing(s: seq<nat>)
    requires Ascends(0, s)
    ensures forall i, j | 0 <= i < j < |[0] + s| :: ([0] + s)[i] < ([0] + s)[j]
    ensures ([0] + s)[|s|] == Last(0, s)
  {
    AscendingIsIncreasing(0, s);
    forall i, j | 0 <= i < j < |[0] + s|
      ensures ([0] + s)[i] < ([0] + s)[j]
    {
      assert ([0] + s)[j] == s[j-1];
      if i > 0 { assert ([0] + s)[i] == s[i-1]; }
    }
  }

  /** The anchor in force at frame i, going from anchor to anchor starting at a. */
  function AnchorFrom(input: seq<Shot>, a: nat, i: nat): (c: nat)
    requires a <= i < |input|
    ensures a <= c <= i && NextAnchor(input, c, c + 1) > i
    decreases i - a
  {
    var b := NextAnchor(input, a, a + 1);
    if b > i then a else AnchorFrom(input, b, i)
  }

  /** The anchor in force at frame i: the last kept frame that ended a run, up to i. */
  function AnchorOf(input: seq<Shot>, i: nat): nat
    requires i < |input|
  {
    AnchorFrom(input, 0, i)
  }

  /** Frame i is its own anchor, or the bridge of its run, or the last frame of the input. */
  ghost predicate IsChosen(input: seq<Shot>, quality: Quality, c: nat, i: nat)
    requires c <= i < |input|
  {
    var b := NextAnchor(input, c, c + 1);
    i == c || (if b < |input| then IsBridge(input, quality, c + 1, b, i) else i == |input| - 1)
  }

  lemma ChosenIsTheBridge(input: seq<Shot>, quality: Quality, c: nat, k: nat)
    requires c < |input| && var b := NextAnchor(input, c, c + 1); c < k < b < |input|
    ensures IsChosen(input, quality, c, k) <==> k == Bridge(input, quality, c + 1, NextAnchor(input, c, c + 1))
  {
    var b := NextAnchor(input, c, c + 1);
    if IsChosen(input, quality, c, k) {
      BridgeIsUnique(input, quality, c + 1, b, k, Bridge(input, quality, c + 1, b));
    }
  }

  lemma AfterBridge(input: seq<Shot>, quality: Quality, a: nat, i: nat)
    requires a < i < |input|
    ensures var b := NextAnchor(input, a, a + 1);
            && (i < b ==> (i in KeptAfter(input, quality, a) <==>
                           if b < |input| then i == Bridge(input, quality, a + 1, b) else i == |input| - 1))
            && (b <= i ==> (i in KeptAfter(input, quality, a) <==> i == b || i in KeptAfter(input, quality, b)))
  {
    var b := NextAnchor(input, a, a + 1);
    if b < |input| {
      KeptAfterAscends(input, quality, b);
      AscendingIsIncreasing(b, KeptAfter(input, quality, b));
    }
  }

  lemma {:induction false} KeptAfterIff(input: seq<Shot>, quality: Quality, a: nat, i: nat)
    requires a < i < |input|
    ensures i in KeptAfter(input, quality, a) <==> IsChosen(input, quality, AnchorFrom(input, a, i), i)
    decreases i - a
  {
    var b := NextAnchor(input, a, a + 1);
    AfterBridge(input, quality, a, i);
    if b > i {
      if b < |input| { ChosenIsTheBridge(input, quality, a, i); }
    } else if b < i {
      KeptAfterIff(input, quality, b, i);
    }
  }

  /** Exactly the anchors, one bridge per interrupted run and the last frame are kept; every frame is within six bits
      of the anchor in force, and the next anchor is further away than that. */
  lemma {:induction false} KeptIff(input: seq<Shot>, quality: Quality, i: nat)
    requires i < |input|
    ensures i in Kept(input, quality) <==> IsChosen(input, quality, AnchorOf(input, i), i)
    ensures i != AnchorOf(input, i) ==> Near(input, AnchorOf(input, i), i)
    ensures var b := NextAnchor(input, AnchorOf(input, i), AnchorOf(input, i) + 1);
            b < |input| ==> !Near(input, AnchorOf(input, i), b) && AnchorOf(input, b) == b
  {
    var c := AnchorOf(input, i);
    if i > 0 { KeptAfterIff(input, quality, 0, i); }
    var b := NextAnchor(input, c, c + 1);
    if b < |input| { AnchorsFollow(input, 0, i, c, b); }
  }

  lemma {:induction false} AnchorsFollow(input: seq<Shot>, a: nat, i: nat, c: nat, b: nat)
    requires a <= i < |input| && AnchorFrom(input, a, i) == c && NextAnchor(input, c, c + 1) == b < |input|
    ensures AnchorFrom(input, a, b) == b
    decreases i - a
  {
    var next := NextAnchor(input, a, a + 1);
    if next <= i {
      AnchorsFollow(input, next, i, c, b);
    } else {
      assert c == a && next == b;
      assert AnchorFrom(input, b, b) == b;
    }
  }

  /** Between two consecutive anchors that are not adjacent exactly one frame is kept. */
  lemma {:induction false} OneBridgePerRun(input: seq<Shot>, quality: Quality, c: nat)
    requires c < |input| && AnchorOf(input, c) == c
    requires var b := NextAnchor(input, c, c + 1); c + 1 < b < |input|
    ensures exists k :: c < k < NextAnchor(input, c, c + 1) && k in Kept(input, quality)
    ensures forall k, l | c < k < NextAnchor(input, c, c + 1) && c < l < NextAnchor(input, c, c + 1)
                          && k in Kept(input, quality) && l in Kept(input, quality) :: k == l
  {
    var b := NextAnchor(input, c, c + 1);
    var bridge := Bridge(input, quality, c + 1, b);
    forall k | c < k < b
      ensures k in Kept(input, quality) <==> k == bridge
    {
      OnlyTheBridgeIsKept(input, quality, c, k);
    }
    assert bridge in Kept(input, quality);
  }

  lemma {:induction false} OnlyTheBridgeIsKept(input: seq<Shot>, quality: Quality, c: nat, k: nat)
    requires c < |input| && AnchorOf(input, c) == c
    requires var b := NextAnchor(input, c, c + 1); c < k < b < |input|
    ensures k in Kept(input, quality) <==> k == Bridge(input, quality, c + 1, NextAnchor(input, c, c + 1))
  {
    SameAnchor(input, 0, c, k);
    KeptIff(input, quality, k);
    ChosenIsTheBridge(input, quality, c, k);
  }

  lemma {:induction false} SameAnchor(input: seq<Shot>, a: nat, c: nat, k: nat)
    requires a <= c < |input| && c <= k < NextAnchor(input, c, c + 1) && k < |input| && AnchorFrom(input, a, c) == c
    ensures AnchorFrom(input, a, k) == c
    decreases c - a
  {
    var b := NextAnchor(input, a, a + 1);
    if b <= c { SameAnchor(input, b, c, k); }
  }
}
