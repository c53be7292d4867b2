/** Matching decoded frames to requested positions (decoder.rs, decode_range_producer).

    What the demuxer, the decoder, the channel and the cancel flag answer is part of the input.
 */
module TargetMatching {
  datatype Option<T> = None | Some(value: T)

  datatype Delivery = Delivered | Closed | Broken

  /** A frame out of the decoder: the time it says, the position of the video it is the frame of (which nobody tells),
      whether it can be brought into memory, what sending it gives, and the cancel flag as read right after. */
  datatype Decoded = Decoded(pts: int, own: int, resolves: bool, delivery: Delivery, cancelled: bool)

  /** A packet: of the video stream or not, the cancel flag before it, its time if the time base is known,
      whether the decoder takes it, and the frames it then gives out. */
  datatype Packet = Packet(ours: bool, cancelled: bool, ms: Option<int>, accepted: bool, frames: seq<Decoded>)

  datatype Item = Item(fi: int, target: int)
  datatype Match = Match(pts: int, own: int, target: int)

  /** First and last requested position, and the tolerance of two frame durations. */
  datatype Config = Config(first: int, last: int, tolerance: int)

  datatype Stop = Running | Left | Failed

  datatype State = State(left: map<int, int>, matches: seq<Match>, sent: seq<Item>, stop: Stop)

  function Abs(x: int): int { if x < 0 then -x else x }

  function FrameDurationMs(fpsNum: int, fpsDen: int): int {
    if fpsNum > 0 && fpsDen > 0 then fpsDen * 1000 / fpsNum + 1 else 33
  }

  /** a is nearer to pts than b, or as near and no later. */
  predicate Beats(pts: int, a: int, b: int) { Abs(a - pts) < Abs(b - pts) || (Abs(a - pts) == Abs(b - pts) && a <= b) }

  /** The position nearest to pts, if within the tolerance; the earlier of two equally near. */
  ghost predicate IsNearest(keys: set<int>, pts: int, tolerance: int, t: int) {
    && t in keys && Abs(t - pts) <= tolerance
    && forall k | k in keys :: Beats(pts, t, k)
  }

  ghost function Nearest(keys: set<int>, pts: int, tolerance: int): (r: Option<int>)
    ensures r.Some? ==> IsNearest(keys, pts, tolerance, r.value)
  {
    if k :| IsNearest(keys, pts, tolerance, k) then Some(k) else None
  }

  lemma NearestIs(keys: set<int>, pts: int, tolerance: int, t: int)
    requires IsNearest(keys, pts, tolerance, t)
    ensures Nearest(keys, pts, tolerance) == Some(t)
  {
    var r := Nearest(keys, pts, tolerance);
    assert r.Some?;
    assert Beats(pts, t, r.value) && Beats(pts, r.value, t);
  }

  lemma NothingIsEmpty(keys: set<int>)
    ensures (forall k :: k !in keys) ==> keys == {}
  {
    if forall k :: k !in keys { assert keys == {}; }
  }

  lemma {:induction false} SomeKeyIsNearest(keys: set<int>, pts: int) returns (t: int)
    requires keys != {}
    ensures t in keys && forall k | k in keys :: Beats(pts, t, k)
    decreases keys
  {
    NothingIsEmpty(keys);
    var x :| x in keys;
    t := x;
    var others := keys - {x};
    if others != {} {
      var u := SomeKeyIsNearest(others, pts);
      if !Beats(pts, x, u) { t := u; }
    }
    forall k | k in keys
      ensures Beats(pts, t, k)
    {
      assert k == x || k in others;
    }
  }

  lemma NothingNear(keys: set<int>, pts: int, tolerance: int)
    requires forall k | k in keys :: Abs(k - pts) > tolerance
    ensures Nearest(keys, pts, tolerance) == None
  {
  }

  /** Something is found whenever something is near enough. */
  lemma NearestExists(keys: set<int>, pts: int, tolerance: int, k: int)
    requires k in keys && Abs(k - pts) <= tolerance
    ensures Nearest(keys, pts, tolerance).Some?
  {
    var t := SomeKeyIsNearest(keys, pts);
    assert Beats(pts, t, k);
    assert IsNearest(keys, pts, tolerance, t);
  }

  /** The search over the positions within the tolerance. */
  method FindNearest(targets: map<int, int>, pts: int, tolerance: int) returns (best: Option<int>)
    ensures best == Nearest(targets.Keys, pts, tolerance)
    ensures best.None? <==> forall k | k in targets :: Abs(k - pts) > tolerance
  {
    var todo := set k | k in targets && pts - tolerance <= k <= pts + tolerance;
    ghost var seen: set<int> := {};
    ghost var range := todo;
    best := None;
    while todo != {}
      invariant seen + todo == range
      invariant best.None? <==> seen == {}
      invariant best.Some? ==> best.value in seen && forall k | k in seen :: Beats(pts, best.value, k)
      decreases todo
    {
      var k :| k in todo;
      todo := todo - {k};
      seen := seen + {k};
      if || best.None? || Abs(k - pts) < Abs(best.value - pts)
         || (Abs(k - pts) == Abs(best.value - pts) && k < best.value) {
        best := Some(k);
      }
    }
    if best.Some? {
      forall k | k in targets.Keys
        ensures Beats(pts, best.value, k)
      {
        if k !in seen { assert Abs(k - pts) > tolerance; }
      }
      NearestIs(targets.Keys, pts, tolerance, best.value);
    } else {
      forall k | k in targets
        ensures Abs(k - pts) > tolerance
      {
        assert k !in range;
      }
    }
  }

  // ---- what the loops do ----

  /** One frame, in the main loop or in the flush loop. */
  ghost function Step(c: Config, s: State, d: Decoded, flush: bool): State {
    if d.pts < c.first then s
    else if d.pts > c.last + 500 then (if flush then s else s.(stop := Left))
    else match Nearest(s.left.Keys, d.pts, c.tolerance)
      case None => s
      case Some(t) => Matched(s, d, t)
  }

  function Matched(s: State, d: Decoded, t: int): State
    requires t in s.left
  {
    var left := s.left - {t};
    var matches := s.matches + [Match(d.pts, d.own, t)];
    if !d.resolves then State(left, matches, s.sent, if d.cancelled || left == map[] then Left else s.stop)
    else match d.delivery
      case Broken => State(left, matches, s.sent, Failed)
      case Closed => State(left, matches, s.sent, Left)
      case Delivered =>
        var stop := if d.cancelled || left == map[] then Left else s.stop;
        State(left, matches, s.sent + [Item(s.left[t], t)], stop)
  }

  ghost function Frames(c: Config, s: State, ds: seq<Decoded>, flush: bool): State
    decreases |ds|
  {
    if ds == [] || !s.stop.Running? then s else Frames(c, Step(c, s, ds[0], flush), ds[1..], flush)
  }

  ghost function OnePacket(c: Config, s: State, p: Packet): State {
    if !p.ours then s
    else if p.cancelled || (p.ms.Some? && p.ms.value > c.last + 1000) then s.(stop := Left)
    else if !p.accepted then s
    else Frames(c, s, p.frames, false)
  }

  ghost function Packets(c: Config, s: State, ps: seq<Packet>): State
    decreases |ps|
  {
    if ps == [] || !s.stop.Running? then s else Packets(c, OnePacket(c, s, ps[0]), ps[1..])
  }

  ghost function Flushed(c: Config, s: State, cancelled: bool, ds: seq<Decoded>): State {
    if s.stop.Failed? || s.left == map[] || cancelled then s else Frames(c, s.(stop := Running), ds, true)
  }

  /** Later requests for one position replace earlier ones. */
  function TargetMap(targets: seq<Item>): map<int, int> {
    if targets == [] then map[]
    else TargetMap(targets[..|targets|-1])[targets[|targets|-1].target := targets[|targets|-1].fi]
  }

  function ConfigOf(targets: seq<Item>, fpsNum: int, fpsDen: int): Config
    requires targets != []
  {
    Config(targets[0].target, targets[|targets|-1].target, FrameDurationMs(fpsNum, fpsDen) * 2)
  }

  /** A position is asked for exactly when some request names it, and what it is sent with is the last such request's
      frame index. */
  lemma {:induction false} LastRequestCounts(targets: seq<Item>, t: int)
    ensures t in TargetMap(targets) <==> exists i :: 0 <= i < |targets| && targets[i].target == t
    ensures forall i | 0 <= i < |targets| && targets[i].target == t
              && (forall j | i < j < |targets| :: targets[j].target != t) :: TargetMap(targets)[t] == targets[i].fi
  {
    if targets != [] {
      var front, last := targets[..|targets|-1], |targets| - 1;
      LastRequestCounts(front, t);
      assert forall i | 0 <= i < last :: front[i] == targets[i];
      if targets[last].target == t { assert t in TargetMap(targets); }
    }
  }

  /** The duration is the first whole number of milliseconds that a frame does not fill, and the tolerance is two of
      them; without a frame rate it is 66. */
  lemma ToleranceIsTwoFrames(targets: seq<Item>, fpsNum: int, fpsDen: int, n: int)
    requires targets != []
    ensures ConfigOf(targets, fpsNum, fpsDen).first == targets[0].target
    ensures ConfigOf(targets, fpsNum, fpsDen).last == targets[|targets|-1].target
    ensures fpsNum > 0 && fpsDen > 0 ==>
              (ConfigOf(targets, fpsNum, fpsDen).tolerance == 2 * n <==>
               (n - 1) * fpsNum <= 1000 * fpsDen < n * fpsNum)
    ensures fpsNum <= 0 || fpsDen <= 0 ==> ConfigOf(targets, fpsNum, fpsDen).tolerance == 66
  {
    if fpsNum > 0 && fpsDen > 0 {
      var d := FrameDurationMs(fpsNum, fpsDen);
      assert (d - 1) * fpsNum <= 1000 * fpsDen < (d - 1) * fpsNum + fpsNum;
      assert (d - 1) * fpsNum + fpsNum == d * fpsNum;
      if (n - 1) * fpsNum <= 1000 * fpsDen < n * fpsNum { QuotientIsUnique(1000 * fpsDen, fpsNum, d, n); }
    }
  }

  lemma QuotientIsUnique(p: int, q: int, d: int, n: int)
    requires q > 0 && (d - 1) * q <= p < d * q && (n - 1) * q <= p < n * q
    ensures d == n
  {
    if d < n { InProportion(d, n - 1, q); }
    if n < d { InProportion(n, d - 1, q); }
  }

  lemma InProportion(a: int, b: int, q: int)
    requires a <= b && q > 0
    ensures a * q <= b * q
  {
    assert (b - a) * q >= 0;
  }

  function Start(m: map<int, int>): State { State(m, [], [], Running) }

  ghost function Produced(c: Config, m: map<int, int>, ps: seq<Packet>, cancelled: bool, rest: seq<Decoded>): State {
    Flushed(c, Packets(c, Start(m), ps), cancelled, rest)
  }

  // ---- the loops ----

  method DecodeFrames(c: Config, s0: State, ds: seq<Decoded>, flush: bool) returns (s: State)
    ensures s == Frames(c, s0, ds, flush)
  {
    s := s0;
    assert ds[0..] == ds;
    for i := 0 to |ds|
      invariant Frames(c, s, ds[i..], flush) == Frames(c, s0, ds, flush)
    {
      if !s.stop.Running? { return; }
      var d := ds[i];
      assert ds[i..][0] == d && ds[i..][1..] == ds[i+1..];
      if d.pts < c.first { continue; }
      if d.pts > c.last + 500 {
        if !flush { s := s.(stop := Left); }
        continue;
      }
      var matched := FindNearest(s.left, d.pts, c.tolerance);
      if matched.Some? {
        var fi := s.left[matched.value];
        s := s.(left := s.left - {matched.value}, matches := s.matches + [Match(d.pts, d.own, matched.value)]);
        if !d.resolves {
          if d.cancelled || s.left == map[] { s := s.(stop := Left); }
          continue;
        }
        match d.delivery {
          case Broken => s := s.(stop := Failed);
          case Closed => s := s.(stop := Left);
          case Delivered =>
            s := s.(sent := s.sent + [Item(fi, matched.value)]);
            if d.cancelled || s.left == map[] { s := s.(stop := Left); }
        }
      }
    }
  }

  method DecodePackets(c: Config, s0: State, ps: seq<Packet>) returns (s: State)
    ensures s == Packets(c, s0, ps)
  {
    s := s0;
    assert ps[0..] == ps;
    for i := 0 to |ps|
      invariant Packets(c, s, ps[i..]) == Packets(c, s0, ps)
    {
      if !s.stop.Running? { return; }
      var p := ps[i];
      assert ps[i..][0] == p && ps[i..][1..] == ps[i+1..];
      if !p.ours { continue; }
      if p.cancelled { s := s.(stop := Left); continue; }
      if p.ms.Some? && p.ms.value > c.last + 1000 { s := s.(stop := Left); continue; }
      if !p.accepted { continue; }
      s := DecodeFrames(c, s, p.frames, false);
    }
  }

  method DecodeRange(targets: seq<Item>, fpsNum: int, fpsDen: int, ps: seq<Packet>, cancelled: bool, rest: seq<Decoded>)
    returns (sent: seq<Item>, ok: bool)
    requires targets != []
    ensures sent == Produced(ConfigOf(targets, fpsNum, fpsDen), TargetMap(targets), ps, cancelled, rest).sent
    ensures ok <==> !Produced(ConfigOf(targets, fpsNum, fpsDen), TargetMap(targets), ps, cancelled, rest).stop.Failed?
  {
    var left: map<int, int> := map[];
    for i := 0 to |targets|
      invariant left == TargetMap(targets[..i])
    {
      assert targets[..i+1][..i] == targets[..i];
      left := left[targets[i].target := targets[i].fi];
    }
    assert targets[..|targets|] == targets;
    var c := ConfigOf(targets, fpsNum, fpsDen);
    var run := DecodePackets(c, State(left, [], [], Running), ps);
    if !run.stop.Failed? && run.left != map[] && !cancelled {
      run := DecodeFrames(c, run.(stop := Running), rest, true);
    }
    sent, ok := run.sent, !run.stop.Failed?;
  }

  // ---- the frames that are looked at ----

  predicate IsPast(c: Config, d: Decoded) { d.pts >= c.first && d.pts > c.last + 500 }

  function BeforePast(c: Config, ds: seq<Decoded>): seq<Decoded> {
    if ds == [] || IsPast(c, ds[0]) then [] else [ds[0]] + BeforePast(c, ds[1..])
  }

  /** What the main loop looks at unless a match ends it: everything up to the end of the range or the cancel flag. */
  function Reached(c: Config, ps: seq<Packet>): seq<Decoded> {
    if ps == [] then []
    else
      var p, front := ps[0], BeforePast(c, ps[0].frames);
      if p.ours && (p.cancelled || (p.ms.Some? && p.ms.value > c.last + 1000)) then []
      else if !p.ours || !p.accepted then Reached(c, ps[1..])
      else if |front| < |p.frames| then front
      else front + Reached(c, ps[1..])
  }

  /** b is a but for having stopped at the end of the range. */
  predicate SameButEnd(a: State, b: State) {
    a.(stop := b.stop) == b && (a.stop == b.stop || (a.stop.Left? && b.stop.Running?))
  }

  lemma {:induction false} FramesPlus(c: Config, s: State, xs: seq<Decoded>, ys: seq<Decoded>, flush: bool)
    ensures Frames(c, s, xs + ys, flush) == Frames(c, Frames(c, s, xs, flush), ys, flush)
    decreases |xs|
  {
    if xs == [] {
      assert xs + ys == ys;
    } else if s.stop.Running? {
      assert (xs + ys)[1..] == xs[1..] + ys;
      FramesPlus(c, Step(c, s, xs[0], flush), xs[1..], ys, flush);
    }
  }

  lemma {:induction false} FramesReach(c: Config, s: State, ds: seq<Decoded>)
    ensures |BeforePast(c, ds)| <= |ds|
    ensures var a, b := Frames(c, s, ds, false), Frames(c, s, BeforePast(c, ds), true);
            SameButEnd(a, b) && (|BeforePast(c, ds)| == |ds| ==> a == b)
              && (|BeforePast(c, ds)| < |ds| ==> !a.stop.Running?)
    decreases |ds|
  {
    if ds != [] && !IsPast(c, ds[0]) {
      assert BeforePast(c, ds)[1..] == BeforePast(c, ds[1..]);
      if s.stop.Running? {
        assert Step(c, s, ds[0], false) == Step(c, s, ds[0], true);
        FramesReach(c, Step(c, s, ds[0], true), ds[1..]);
      } else {
        FramesReach(c, s, ds[1..]);
      }
    } else if ds != [] && s.stop.Running? {
      assert Frames(c, Step(c, s, ds[0], false), ds[1..], false) == s.(stop := Left);
    }
  }

  lemma {:induction false} PacketsReach(c: Config, s: State, ps: seq<Packet>)
    ensures SameButEnd(Packets(c, s, ps), Frames(c, s, Reached(c, ps), true))
    decreases |ps|
  {
    if ps != [] && s.stop.Running? {
      var p, front := ps[0], BeforePast(c, ps[0].frames);
      var w := OnePacket(c, s, p);
      FramesReach(c, s, p.frames);
      PacketsReach(c, w, ps[1..]);
      FramesPlus(c, s, front, Reached(c, ps[1..]), true);
    }
  }

  /** Both loops, over the frames they look at. */
  ghost function Outcome(c: Config, m: map<int, int>, main: seq<Decoded>, cancelled: bool, rest: seq<Decoded>): State {
    Flushed(c, Frames(c, Start(m), main, true), cancelled, rest)
  }

  lemma {:induction false} ProducedFrom(c: Config, m: map<int, int>, ps: seq<Packet>, cancelled: bool,
                                        rest: seq<Decoded>)
    ensures SameButEnd(Produced(c, m, ps, cancelled, rest), Outcome(c, m, Reached(c, ps), cancelled, rest))
  {
    PacketsReach(c, Start(m), ps);
    var a, b := Packets(c, Start(m), ps), Frames(c, Start(m), Reached(c, ps), true);
    assert a.(stop := Running) == b.(stop := Running);
  }

  // ---- each target at most once, and only for a near frame ----

  ghost function Taken(matches: seq<Match>): set<int> { set i | 0 <= i < |matches| :: matches[i].target }

  /** Every match so far was with an original target within the tolerance, no target was matched twice,
      and what was sent are some of the matches, in their order. */
  ghost predicate Sound(c: Config, m: map<int, int>, s: State) {
    && s.left == m - Taken(s.matches)
    && (forall i | 0 <= i < |s.matches| ::
        s.matches[i].target in m && Abs(s.matches[i].target - s.matches[i].pts) <= c.tolerance)
    && (forall i, j | 0 <= i < j < |s.matches| :: s.matches[i].target != s.matches[j].target)
    && (forall i | 0 <= i < |s.sent| :: SentFor(m, s.matches, s.sent[i]))
    && (forall i, j | 0 <= i < j < |s.sent| :: s.sent[i].target != s.sent[j].target)
  }

  ghost predicate SentFor(m: map<int, int>, matches: seq<Match>, item: Item) {
    item.target in Taken(matches) && item.target in m && item.fi == m[item.target]
  }

  lemma MatchedIsSound(c: Config, m: map<int, int>, s: State, d: Decoded, t: int)
    requires Sound(c, m, s) && t in s.left && Abs(t - d.pts) <= c.tolerance
    ensures Sound(c, m, Matched(s, d, t))
  {
    var w := Matched(s, d, t);
    assert w.matches[|s.matches|].target == t;
    assert Taken(w.matches) == Taken(s.matches) + {t} by {
      forall x | x in Taken(s.matches)
        ensures x in Taken(w.matches)
      {
        var i :| 0 <= i < |s.matches| && s.matches[i].target == x;
        assert w.matches[i].target == x;
      }
    }
    forall i | 0 <= i < |w.sent|
      ensures SentFor(m, w.matches, w.sent[i])
    {
      if i < |s.sent| { assert SentFor(m, s.matches, s.sent[i]); }
    }
    forall i, j | 0 <= i < j < |w.sent|
      ensures w.sent[i].target != w.sent[j].target
    {
      assert SentFor(m, s.matches, s.sent[i]);
    }
  }

  lemma {:induction false} FramesAreSound(c: Config, m: map<int, int>, s: State, ds: seq<Decoded>, flush: bool)
    requires Sound(c, m, s)
    ensures Sound(c, m, Frames(c, s, ds, flush))
    decreases |ds|
  {
    if ds != [] && s.stop.Running? {
      var t := Nearest(s.left.Keys, ds[0].pts, c.tolerance);
      if t.Some? { MatchedIsSound(c, m, s, ds[0], t.value); }
      FramesAreSound(c, m, Step(c, s, ds[0], flush), ds[1..], flush);
    }
  }

  /** Across both loops each target is sent at most once, with its own frame index,
      and only for a frame within two frame durations of it. */
  lemma EachTargetAtMostOnce(c: Config, m: map<int, int>, ps: seq<Packet>, cancelled: bool, rest: seq<Decoded>)
    ensures Sound(c, m, Produced(c, m, ps, cancelled, rest))
  {
    StartIsSound(c, m);
    ProducedFrom(c, m, ps, cancelled, rest);
    var s := Frames(c, Start(m), Reached(c, ps), true);
    FramesAreSound(c, m, Start(m), Reached(c, ps), true);
    if !(s.stop.Failed? || s.left == map[] || cancelled) { FramesAreSound(c, m, s.(stop := Running), rest, true); }
  }

  lemma StartIsSound(c: Config, m: map<int, int>)
    ensures Sound(c, m, Start(m))
  {
    assert Taken([]) == {};
    assert m - {} == m;
  }

  // ---- frames match their own targets ----

  /** The least distance at which deviations of e cannot be mistaken. */
  function SafeDistance(e: int, tolerance: int): int { if e < tolerance then e + e else e + tolerance }

  /** Any two requested positions are further apart than that. */
  ghost predicate Apart(m: map<int, int>, e: int, tolerance: int) {
    forall s, t | s in m && t in m && s < t :: t - s > SafeDistance(e, tolerance)
  }

  predicate InWindow(c: Config, d: Decoded) { c.first <= d.pts <= c.last + 500 }

  /** The frame of a requested position is at most e off, and any other is near no requested position. */
  ghost predicate IsSafe(c: Config, m: map<int, int>, d: Decoded, e: int) {
    InWindow(c, d) ==>
      if d.own in m then Abs(d.pts - d.own) <= e else forall t | t in m :: Abs(t - d.pts) > c.tolerance
  }

  /** No frame comes twice. */
  ghost predicate AreDifferent(c: Config, ds: seq<Decoded>) {
    forall i, j | 0 <= i < j < |ds| && InWindow(c, ds[i]) && InWindow(c, ds[j]) :: ds[i].own != ds[j].own
  }

  ghost predicate AreSafe(c: Config, m: map<int, int>, ds: seq<Decoded>, e: int) {
    (forall i | 0 <= i < |ds| :: IsSafe(c, m, ds[i], e)) && AreDifferent(c, ds)
  }

  ghost predicate OnlyOwn(s: State) { forall i | 0 <= i < |s.matches| :: s.matches[i].target == s.matches[i].own }

  ghost predicate StillLeft(c: Config, s: State, ds: seq<Decoded>) {
    forall i | 0 <= i < |ds| && InWindow(c, ds[i]) :: ds[i].own !in Taken(s.matches)
  }

  /** Every match so far was a frame with its own position, and none of the frames to come has been matched. */
  ghost predicate Exact(c: Config, m: map<int, int>, s: State, toCome: seq<Decoded>, e: int) {
    Sound(c, m, s) && AreSafe(c, m, toCome, e) && Apart(m, e, c.tolerance) && OnlyOwn(s) && StillLeft(c, s, toCome)
  }

  /** A frame finds its own position, or, if that is beyond the tolerance, none. */
  lemma OwnIsNearest(m: map<int, int>, keys: set<int>, pts: int, own: int, e: int, tolerance: int)
    requires keys <= m.Keys && own in keys && Abs(pts - own) <= e && Apart(m, e, tolerance)
    ensures Nearest(keys, pts, tolerance) == if Abs(pts - own) <= tolerance then Some(own) else None
  {
    forall k | k in keys && k != own
      ensures Abs(k - own) > SafeDistance(e, tolerance)
    {
      assert k in m && own in m;
    }
    if Abs(pts - own) <= tolerance {
      forall k | k in keys
        ensures Beats(pts, own, k)
      {
      }
      NearestIs(keys, pts, tolerance, own);
    } else {
      forall k | k in keys
        ensures Abs(k - pts) > tolerance
      {
      }
      NothingNear(keys, pts, tolerance);
    }
  }

  /** What a safe frame that is still to come finds. */
  lemma SafeFrameFindsItsOwn(c: Config, m: map<int, int>, s: State, toCome: seq<Decoded>, e: int)
    requires toCome != [] && Exact(c, m, s, toCome, e) && InWindow(c, toCome[0])
    ensures var d := toCome[0];
            Nearest(s.left.Keys, d.pts, c.tolerance)
            == if d.own in m && Abs(d.pts - d.own) <= c.tolerance then Some(d.own) else None
  {
    var d := toCome[0];
    assert IsSafe(c, m, d, e) && d.own !in Taken(s.matches);
    if d.own in m {
      OwnIsNearest(m, s.left.Keys, d.pts, d.own, e, c.tolerance);
    } else {
      NothingNear(s.left.Keys, d.pts, c.tolerance);
    }
  }

  lemma LessToCome(c: Config, m: map<int, int>, s: State, toCome: seq<Decoded>, e: int)
    requires toCome != [] && Exact(c, m, s, toCome, e)
    ensures Exact(c, m, s, toCome[1..], e)
  {
    assert forall i | 0 <= i < |toCome[1..]| :: toCome[1..][i] == toCome[i+1];
  }

  lemma MatchIsExact(c: Config, m: map<int, int>, s: State, toCome: seq<Decoded>, e: int)
    requires toCome != [] && Exact(c, m, s, toCome, e) && InWindow(c, toCome[0])
    requires var d := toCome[0]; d.own in s.left && Abs(d.own - d.pts) <= c.tolerance
    ensures Exact(c, m, Matched(s, toCome[0], toCome[0].own), toCome[1..], e)
  {
    var d := toCome[0];
    var w := Matched(s, d, d.own);
    MatchedIsSound(c, m, s, d, d.own);
    LessToCome(c, m, s, toCome, e);
    forall i | 0 <= i < |toCome[1..]| && InWindow(c, toCome[1..][i])
      ensures toCome[1..][i].own !in Taken(w.matches)
    {
      assert toCome[1..][i] == toCome[i+1];
    }
  }

  lemma OneStepIsExact(c: Config, m: map<int, int>, s: State, toCome: seq<Decoded>, e: int)
    requires toCome != [] && Exact(c, m, s, toCome, e)
    ensures Exact(c, m, Step(c, s, toCome[0], true), toCome[1..], e)
  {
    var d := toCome[0];
    LessToCome(c, m, s, toCome, e);
    if InWindow(c, d) {
      SafeFrameFindsItsOwn(c, m, s, toCome, e);
      if Nearest(s.left.Keys, d.pts, c.tolerance).Some? { MatchIsExact(c, m, s, toCome, e); }
    }
  }

  lemma {:induction false} FramesAreExact(c: Config, m: map<int, int>, s: State, ds: seq<Decoded>, later: seq<Decoded>,
                                          e: int)
    requires Exact(c, m, s, ds + later, e)
    ensures Exact(c, m, Frames(c, s, ds, true), later, e)
    decreases |ds|
  {
    if ds == [] {
      assert ds + later == later;
    } else {
      assert (ds + later)[1..] == ds[1..] + later;
      LessToCome(c, m, s, ds + later, e);
      if s.stop.Running? { OneStepIsExact(c, m, s, ds + later, e); }
      FramesAreExact(c, m, if s.stop.Running? then Step(c, s, ds[0], true) else s, ds[1..], later, e);
    }
  }

  lemma StartIsExact(c: Config, m: map<int, int>, toCome: seq<Decoded>, e: int)
    requires AreSafe(c, m, toCome, e) && Apart(m, e, c.tolerance)
    ensures Exact(c, m, Start(m), toCome, e)
  {
    StartIsSound(c, m);
    assert Taken([]) == {};
  }

  /** Safe frames match their own positions only, whatever order they come in, wherever the run stops,
      and whichever are lost on the way. */
  lemma {:induction false} FramesMatchTheirOwnTargets(c: Config, m: map<int, int>, ps: seq<Packet>, cancelled: bool,
                                                      rest: seq<Decoded>, e: int)
    requires AreSafe(c, m, Reached(c, ps) + rest, e) && Apart(m, e, c.tolerance)
    ensures OnlyOwn(Produced(c, m, ps, cancelled, rest))
  {
    ProducedFrom(c, m, ps, cancelled, rest);
    StartIsExact(c, m, Reached(c, ps) + rest, e);
    FramesAreExact(c, m, Start(m), Reached(c, ps), rest, e);
    var s := Frames(c, Start(m), Reached(c, ps), true);
    assert rest + [] == rest;
    if !(s.stop.Failed? || s.left == map[] || cancelled) { FramesAreExact(c, m, s.(stop := Running), rest, [], e); }
  }

  // ---- when no run can go wrong ----

  /** The frames looked at are frames of the video, each once, at most e off its position;
      what is skipped outside the window may be anything. */
  ghost predicate Deviates(c: Config, positions: set<int>, ds: seq<Decoded>, e: int) {
    && (forall i | 0 <= i < |ds| && InWindow(c, ds[i]) :: ds[i].own in positions && Abs(ds[i].pts - ds[i].own) <= e)
    && AreDifferent(c, ds)
  }

  /** Somewhere in the window a frame of position u may be, e off, within the tolerance of t. */
  predicate CanReach(c: Config, u: int, t: int, e: int) {
    Abs(u - t) <= e + c.tolerance && u + e >= c.first && u - e <= c.last + 500
  }

  /** No position of the video that is not requested can be taken for one that is. */
  ghost predicate Clear(c: Config, m: map<int, int>, positions: set<int>, e: int) {
    forall u, t | u in positions && u !in m && t in m :: !CanReach(c, u, t, e)
  }

  lemma ClearIsSafe(c: Config, m: map<int, int>, positions: set<int>, ds: seq<Decoded>, e: int)
    requires Deviates(c, positions, ds, e) && Clear(c, m, positions, e)
    ensures AreSafe(c, m, ds, e)
  {
    forall i | 0 <= i < |ds|
      ensures IsSafe(c, m, ds[i], e)
    {
      var d := ds[i];
      forall t | InWindow(c, d) && d.own !in m && t in m
        ensures Abs(t - d.pts) > c.tolerance
      {
        assert !CanReach(c, d.own, t, e);
      }
    }
  }

  /** No run over frames of the video that deviate by at most e matches a frame with another's position. */
  ghost predicate NeverMistakes(c: Config, m: map<int, int>, positions: set<int>, e: int) {
    forall ps, cancelled, rest | Deviates(c, positions, Reached(c, ps) + rest, e) ::
      OnlyOwn(Produced(c, m, ps, cancelled, rest))
  }

  lemma OneFrameRun(c: Config, m: map<int, int>, d: Decoded, n: int)
    requires InWindow(c, d) && m != map[] && Nearest(m.Keys, d.pts, c.tolerance) == Some(n)
    ensures Produced(c, m, [], false, [d]).matches == [Match(d.pts, d.own, n)]
  {
    var s := Start(m);
    var w := Matched(s, d, n);
    assert Step(c, s, d, true) == w && w.matches == [] + [Match(d.pts, d.own, n)];
    assert Frames(c, w, [], true) == w;
    assert [d][1..] == [];
    assert Frames(c, s, [d], true) == w;
  }

  /** A lone frame that is near some requested position, but not nearest to its own, is a mistake. */
  lemma LoneFrameIsMistaken(c: Config, m: map<int, int>, positions: set<int>, e: int, x: int, own: int, near: int)
    requires c.first <= x <= c.last + 500 && own in positions && Abs(x - own) <= e
    requires near in m && Abs(near - x) <= c.tolerance && (own in m ==> !Beats(x, own, near))
    ensures !NeverMistakes(c, m, positions, e)
  {
    var d := Decoded(x, own, true, Delivered, false);
    NearestExists(m.Keys, x, c.tolerance, near);
    var n := Nearest(m.Keys, x, c.tolerance).value;
    assert Beats(x, n, near) && n != own;
    OneFrameRun(c, m, d, n);
    var ps: seq<Packet> := [];
    assert Reached(c, ps) + [d] == [d];
    assert Deviates(c, positions, Reached(c, ps) + [d], e);
    assert Produced(c, m, ps, false, [d]).matches[0].target != own;
  }

  lemma PositionNearerToTheOther(e: int, tolerance: int, s: int, t: int) returns (x: int)
    requires e >= 0 && tolerance >= 0 && s < t && t - s <= SafeDistance(e, tolerance)
    ensures s <= x <= t && Abs(t - x) <= e && Abs(s - x) <= tolerance && !Beats(x, t, s)
  {
    x := if t - s > e then t - e else s;
  }

  lemma PositionWithinReach(c: Config, u: int, t: int, e: int) returns (x: int)
    requires e >= 0 && c.tolerance >= 0 && c.first <= t <= c.last && CanReach(c, u, t, e)
    ensures c.first <= x <= c.last + 500 && Abs(x - u) <= e && Abs(t - x) <= c.tolerance
  {
    x := if u < t then (if t - u <= e then t else u + e) else (if u - t <= e then t else u - e);
    if x < c.first { x := c.first; }
    if x > c.last + 500 { x := c.last + 500; }
  }

  /** The exact condition: deviations of up to e are never mistaken, whatever is lost, if and only if any two requested
      positions are further apart than twice e (or than e and the tolerance where that is less), and no other position
      of the video is within e and the tolerance of one, but for those that cannot come into the window. */
  lemma NeverMistakesIff(c: Config, m: map<int, int>, positions: set<int>, e: int)
    requires e >= 0 && c.tolerance >= 0 && m.Keys <= positions && forall k | k in m :: c.first <= k <= c.last
    ensures NeverMistakes(c, m, positions, e) <==> Apart(m, e, c.tolerance) && Clear(c, m, positions, e)
  {
    if !Apart(m, e, c.tolerance) {
      var s, t :| s in m && t in m && s < t && t - s <= SafeDistance(e, c.tolerance);
      var x := PositionNearerToTheOther(e, c.tolerance, s, t);
      LoneFrameIsMistaken(c, m, positions, e, x, t, s);
    } else if !Clear(c, m, positions, e) {
      var u, t :| u in positions && u !in m && t in m && CanReach(c, u, t, e);
      var x := PositionWithinReach(c, u, t, e);
      LoneFrameIsMistaken(c, m, positions, e, x, u, t);
    } else {
      forall ps, cancelled, rest | Deviates(c, positions, Reached(c, ps) + rest, e)
        ensures OnlyOwn(Produced(c, m, ps, cancelled, rest))
      {
        ClearIsSafe(c, m, positions, Reached(c, ps) + rest, e);
        FramesMatchTheirOwnTargets(c, m, ps, cancelled, rest, e);
      }
    }
  }

  /** So a request that leaves out the frame after one of its own can always go wrong: the tolerance is two frames. */
  lemma NextFrameCanBeMistaken(c: Config, m: map<int, int>, positions: set<int>, e: int, t: int, next: int)
    requires e >= 0 && c.tolerance >= 0 && m.Keys <= positions && forall k | k in m :: c.first <= k <= c.last
    requires t in m && next in positions && next !in m && t < next <= t + c.tolerance && next <= c.last + 500
    ensures !NeverMistakes(c, m, positions, e)
  {
    assert CanReach(c, next, t, e);
    NeverMistakesIff(c, m, positions, e);
  }

  // ---- what is sent when nothing fails ----

  /** A frame that makes it all the way to the consumer if it is matched. */
  predicate IsSmooth(c: Config, d: Decoded) {
    InWindow(c, d) ==> d.resolves && d.delivery.Delivered? && !d.cancelled
  }

  ghost predicate AllSmooth(c: Config, ds: seq<Decoded>) { forall i | 0 <= i < |ds| :: IsSmooth(c, ds[i]) }

  /** Every match has been sent, and a loop that has stopped had nothing left to match. */
  ghost predicate AllSent(s: State) {
    && |s.sent| == |s.matches| && (forall i | 0 <= i < |s.sent| :: s.sent[i].target == s.matches[i].target)
    && !s.stop.Failed? && (s.stop.Left? ==> s.left == map[])
  }

  ghost predicate NoneLeft(c: Config, s: State, ds: seq<Decoded>) {
    forall i | 0 <= i < |ds| && InWindow(c, ds[i]) :: ds[i].own !in s.left
  }

  lemma {:induction false} SmoothFramesAreSent(c: Config, s: State, ds: seq<Decoded>)
    requires AllSent(s) && AllSmooth(c, ds)
    ensures AllSent(Frames(c, s, ds, true)) && Frames(c, s, ds, true).left.Keys <= s.left.Keys
    decreases |ds|
  {
    if ds != [] && s.stop.Running? {
      assert IsSmooth(c, ds[0]);
      SmoothFramesAreSent(c, Step(c, s, ds[0], true), ds[1..]);
    }
  }

  lemma {:induction false} NothingLeftToMatch(c: Config, s: State, ds: seq<Decoded>)
    requires s.left == map[]
    ensures Frames(c, s, ds, true) == s
    decreases |ds|
  {
    if ds != [] { NothingLeftToMatch(c, s, ds[1..]); }
  }

  /** Without failures and cancelling the two loops are one over all the frames looked at. */
  lemma {:induction false} SmoothIsOneLoop(c: Config, m: map<int, int>, ps: seq<Packet>, rest: seq<Decoded>)
    requires AllSmooth(c, Reached(c, ps))
    ensures var a, b := Produced(c, m, ps, false, rest), Frames(c, Start(m), Reached(c, ps) + rest, true);
            a.left == b.left && a.matches == b.matches && a.sent == b.sent
  {
    ProducedFrom(c, m, ps, false, rest);
    var w := Frames(c, Start(m), Reached(c, ps), true);
    SmoothFramesAreSent(c, Start(m), Reached(c, ps));
    FramesPlus(c, Start(m), Reached(c, ps), rest, true);
    if w.left == map[] { NothingLeftToMatch(c, w, rest); }
  }

  lemma OneStepSends(c: Config, m: map<int, int>, s: State, toCome: seq<Decoded>, e: int)
    requires e <= c.tolerance && toCome != [] && Exact(c, m, s, toCome, e) && s.stop.Running?
    ensures InWindow(c, toCome[0]) ==> toCome[0].own !in Step(c, s, toCome[0], true).left
  {
    if InWindow(c, toCome[0]) {
      assert IsSafe(c, m, toCome[0], e);
      SafeFrameFindsItsOwn(c, m, s, toCome, e);
    }
  }

  lemma {:induction false} FramesSendAll(c: Config, m: map<int, int>, s: State, ds: seq<Decoded>, e: int)
    requires e <= c.tolerance && Exact(c, m, s, ds, e) && AllSent(s) && AllSmooth(c, ds)
    ensures NoneLeft(c, Frames(c, s, ds, true), ds)
    decreases |ds|
  {
    if ds != [] && s.stop.Running? {
      var w := Step(c, s, ds[0], true);
      assert IsSmooth(c, ds[0]);
      OneStepIsExact(c, m, s, ds, e);
      OneStepSends(c, m, s, ds, e);
      FramesSendAll(c, m, w, ds[1..], e);
      SmoothFramesAreSent(c, w, ds[1..]);
      forall i | 0 <= i < |ds| && InWindow(c, ds[i])
        ensures ds[i].own !in Frames(c, s, ds, true).left
      {
        if i > 0 { assert ds[i] == ds[1..][i-1]; }
      }
    }
  }

  lemma WhatIsNotLeftIsSent(c: Config, m: map<int, int>, s: State, t: int)
    requires Sound(c, m, s) && AllSent(s) && t in m && t !in s.left
    ensures Item(m[t], t) in s.sent
  {
    assert t in Taken(s.matches);
    var i :| 0 <= i < |s.matches| && s.matches[i].target == t;
    assert s.sent[i].target == t && SentFor(m, s.matches, s.sent[i]);
  }

  /** If moreover the deviations are within the tolerance and nothing fails or is cancelled, every requested position
      whose frame is looked at in the window is sent. */
  lemma {:induction false} EveryDecodedTargetIsSent(c: Config, m: map<int, int>, ps: seq<Packet>, rest: seq<Decoded>,
                                                    d: Decoded, e: int)
    requires e <= c.tolerance && AreSafe(c, m, Reached(c, ps) + rest, e) && Apart(m, e, c.tolerance)
    requires AllSmooth(c, Reached(c, ps) + rest)
    requires d in Reached(c, ps) + rest && InWindow(c, d) && d.own in m
    ensures Item(m[d.own], d.own) in Produced(c, m, ps, false, rest).sent
  {
    var main, all := Reached(c, ps), Reached(c, ps) + rest;
    assert forall i | 0 <= i < |main| :: main[i] == all[i];
    SmoothIsOneLoop(c, m, ps, rest);
    StartIsExact(c, m, all, e);
    FramesSendAll(c, m, Start(m), all, e);
    SmoothFramesAreSent(c, Start(m), all);
    FramesAreSound(c, m, Start(m), all, true);
    WhatIsNotLeftIsSent(c, m, Frames(c, Start(m), all, true), d.own);
  }

  // ---- frames in the order of the video ----

  /** A frame of position t, in the window. */
  predicate IsFrameOf(c: Config, d: Decoded, t: int) { InWindow(c, d) && d.own == t }

  ghost predicate HasAll(c: Config, m: map<int, int>, ds: seq<Decoded>) {
    forall t | t in m :: exists i | 0 <= i < |ds| :: IsFrameOf(c, ds[i], t)
  }

  /** Once the first k frames are safe and hold all that is requested, nothing that follows can be mistaken. */
  lemma {:induction false} NoneLostNoneMistaken(c: Config, m: map<int, int>, ps: seq<Packet>, rest: seq<Decoded>,
                                                e: int, k: nat)
    requires e <= c.tolerance && Apart(m, e, c.tolerance) && AllSmooth(c, Reached(c, ps) + rest)
    requires k <= |Reached(c, ps) + rest| && AreSafe(c, m, (Reached(c, ps) + rest)[..k], e)
    requires HasAll(c, m, (Reached(c, ps) + rest)[..k])
    ensures var w := Produced(c, m, ps, false, rest);
            OnlyOwn(w) && w.left == map[] && forall t | t in m :: Item(m[t], t) in w.sent
  {
    var main, all := Reached(c, ps), Reached(c, ps) + rest;
    var front := all[..k];
    assert forall i | 0 <= i < |main| :: main[i] == all[i];
    assert all == front + all[k..];
    SmoothIsOneLoop(c, m, ps, rest);
    var w := AllOfThePrefix(c, m, front, e);
    FramesPlus(c, Start(m), front, all[k..], true);
    NothingLeftToMatch(c, w, all[k..]);
  }

  lemma AllOfThePrefix(c: Config, m: map<int, int>, ds: seq<Decoded>, e: int) returns (w: State)
    requires e <= c.tolerance && Apart(m, e, c.tolerance) && AllSmooth(c, ds) && AreSafe(c, m, ds, e)
    requires HasAll(c, m, ds)
    ensures w == Frames(c, Start(m), ds, true)
    ensures OnlyOwn(w) && w.left == map[] && forall t | t in m :: Item(m[t], t) in w.sent
  {
    w := Frames(c, Start(m), ds, true);
    StartIsExact(c, m, ds, e);
    assert ds + [] == ds;
    FramesAreExact(c, m, Start(m), ds, [], e);
    FramesSendAll(c, m, Start(m), ds, e);
    SmoothFramesAreSent(c, Start(m), ds);
    forall t | t in m
      ensures t !in w.left && Item(m[t], t) in w.sent
    {
      var i :| 0 <= i < |ds| && IsFrameOf(c, ds[i], t);
      WhatIsNotLeftIsSent(c, m, w, t);
    }
    assert w.left.Keys == {};
  }

  /** The frames in the window come in the order of the video. */
  ghost predicate InOrder(c: Config, ds: seq<Decoded>) {
    forall i, j | 0 <= i < j < |ds| && InWindow(c, ds[i]) && InWindow(c, ds[j]) :: ds[i].own < ds[j].own
  }

  /** Only positions before the last requested one need be clear then, such as those just before the first. */
  ghost predicate ClearBefore(c: Config, m: map<int, int>, positions: set<int>, e: int) {
    forall u, t | u in positions && u !in m && u < c.last && t in m :: !CanReach(c, u, t, e)
  }

  /** Where frames come in order and no requested one is lost or early beyond the window, every position is sent, with
      its own frame, whatever else the video holds after the last one. */
  lemma {:induction false} OrderedRunsAreRight(c: Config, m: map<int, int>, positions: set<int>, ps: seq<Packet>,
                                               rest: seq<Decoded>, e: int)
    requires e <= c.tolerance && c.last in m && forall k | k in m :: k <= c.last
    requires Apart(m, e, c.tolerance) && ClearBefore(c, m, positions, e)
    requires var all := Reached(c, ps) + rest; Deviates(c, positions, all, e) && InOrder(c, all) && AllSmooth(c, all)
    requires HasAll(c, m, Reached(c, ps) + rest)
    ensures var w := Produced(c, m, ps, false, rest);
            OnlyOwn(w) && w.left == map[] && forall t | t in m :: Item(m[t], t) in w.sent
  {
    var all := Reached(c, ps) + rest;
    var last :| 0 <= last < |all| && IsFrameOf(c, all[last], c.last);
    AllComeByTheLast(c, m, all, last);
    OrderedFramesAreSafe(c, m, positions, all, e, last);
    NoneLostNoneMistaken(c, m, ps, rest, e, last + 1);
  }

  lemma AllComeByTheLast(c: Config, m: map<int, int>, ds: seq<Decoded>, last: nat)
    requires HasAll(c, m, ds) && InOrder(c, ds) && (forall k | k in m :: k <= c.last)
    requires last < |ds| && IsFrameOf(c, ds[last], c.last)
    ensures HasAll(c, m, ds[..last+1])
  {
    var front := ds[..last+1];
    forall t | t in m
      ensures exists i | 0 <= i < |front| :: IsFrameOf(c, front[i], t)
    {
      var i :| 0 <= i < |ds| && IsFrameOf(c, ds[i], t);
      assert i <= last && front[i] == ds[i];
    }
  }

  lemma OrderedFramesAreSafe(c: Config, m: map<int, int>, positions: set<int>, ds: seq<Decoded>, e: int, last: nat)
    requires ClearBefore(c, m, positions, e) && Deviates(c, positions, ds, e) && InOrder(c, ds)
    requires last < |ds| && IsFrameOf(c, ds[last], c.last) && c.last in m
    ensures AreSafe(c, m, ds[..last+1], e)
  {
    forall i | 0 <= i <= last
      ensures IsSafe(c, m, ds[i], e)
    {
      var d := ds[i];
      forall t | InWindow(c, d) && d.own !in m && t in m
        ensures Abs(t - d.pts) > c.tolerance
      {
        assert !CanReach(c, d.own, t, e);
      }
    }
  }

  // ---- requests for one position ----

  predicate IsNear(c: Config, t: int, d: Decoded) { InWindow(c, d) && Abs(t - d.pts) <= c.tolerance }

  lemma {:induction false} FirstNearIsTaken(c: Config, s: State, t: int, ds: seq<Decoded>)
    requires s.left.Keys == {t} && s.stop.Running? && s.matches == []
    ensures (forall i | 0 <= i < |ds| :: !IsNear(c, t, ds[i])) ==> Frames(c, s, ds, true) == s
    ensures forall i | 0 <= i < |ds| && IsNear(c, t, ds[i]) && (forall j | 0 <= j < i :: !IsNear(c, t, ds[j])) ::
              var w := Frames(c, s, ds, true);
              w.left == map[] && !w.stop.Running? && w.matches == [Match(ds[i].pts, ds[i].own, t)]
    decreases |ds|
  {
    if ds != [] {
      assert forall i | 0 < i < |ds| :: ds[1..][i-1] == ds[i];
      if IsNear(c, t, ds[0]) {
        OnlyTargetIsTaken(c, s, t, ds[0]);
        NothingLeftToMatch(c, Step(c, s, ds[0], true), ds[1..]);
      } else {
        if InWindow(c, ds[0]) { NothingNear(s.left.Keys, ds[0].pts, c.tolerance); }
        FirstNearIsTaken(c, s, t, ds[1..]);
      }
    }
  }

  lemma OnlyTargetIsTaken(c: Config, s: State, t: int, d: Decoded)
    requires s.left.Keys == {t} && s.stop.Running? && s.matches == [] && IsNear(c, t, d)
    ensures var w := Step(c, s, d, true);
            w.left == map[] && !w.stop.Running? && w.matches == [Match(d.pts, d.own, t)]
  {
    NearestIs(s.left.Keys, d.pts, c.tolerance, t);
    assert (s.left - {t}).Keys == {};
    assert [] + [Match(d.pts, d.own, t)] == [Match(d.pts, d.own, t)];
  }

  /** What the loops look at for one position: the flush only if there was nothing before and no cancelling. */
  function LookedAt(c: Config, ps: seq<Packet>, cancelled: bool, rest: seq<Decoded>): seq<Decoded> {
    Reached(c, ps) + if cancelled then [] else rest
  }

  /** A request for one position takes the first frame near it, whichever frame that is. */
  lemma SingleRequestTakesTheFirstNear(c: Config, t: int, fi: int, ps: seq<Packet>, cancelled: bool, rest: seq<Decoded>)
    ensures var ds, w := LookedAt(c, ps, cancelled, rest), Produced(c, map[t := fi], ps, cancelled, rest);
            && ((forall i | 0 <= i < |ds| :: !IsNear(c, t, ds[i])) ==> w.matches == [])
            && (forall i | 0 <= i < |ds| && IsNear(c, t, ds[i]) && (forall j | 0 <= j < i :: !IsNear(c, t, ds[j])) ::
                  w.matches == [Match(ds[i].pts, ds[i].own, t)])
  {
    var m, main, ds := map[t := fi], Reached(c, ps), LookedAt(c, ps, cancelled, rest);
    ProducedFrom(c, m, ps, cancelled, rest);
    FirstNearIsTaken(c, Start(m), t, main);
    FirstNearIsTaken(c, Start(m), t, ds);
    FramesPlus(c, Start(m), main, if cancelled then [] else rest, true);
    if i: nat :| i < |main| && IsNear(c, t, main[i]) {
      var k := FirstOf(c, t, main);
      NothingLeftToMatch(c, Frames(c, Start(m), main, true), if cancelled then [] else rest);
    }
  }

  lemma {:induction false} FirstOf(c: Config, t: int, ds: seq<Decoded>) returns (k: nat)
    requires exists i :: 0 <= i < |ds| && IsNear(c, t, ds[i])
    ensures k < |ds| && IsNear(c, t, ds[k]) && forall j | 0 <= j < k :: !IsNear(c, t, ds[j])
    decreases |ds|
  {
    if IsNear(c, t, ds[0]) {
      k := 0;
    } else {
      var i :| 0 <= i < |ds| && IsNear(c, t, ds[i]);
      assert ds[1..][i-1] == ds[i];
      k := FirstOf(c, t, ds[1..]);
      assert forall j | 0 <= j < k :: ds[1..][j] == ds[j+1];
      k := k + 1;
    }
  }

  /** Where the frames before it say earlier times, a single position is sent as its own frame if and only if that frame
      is not early and not beyond the tolerance; otherwise a later one takes its place, if any is near. */
  lemma SingleRequestIsRightIff(c: Config, t: int, fi: int, ps: seq<Packet>, cancelled: bool, rest: seq<Decoded>,
                                i: nat)
    requires c.first == t == c.last
    requires var ds := LookedAt(c, ps, cancelled, rest);
             && i < |ds| && ds[i].own == t && (forall j | 0 <= j < i :: ds[j].pts < t)
             && (forall j | i < j < |ds| :: ds[j].own != t)
    ensures var ds, w := LookedAt(c, ps, cancelled, rest), Produced(c, map[t := fi], ps, cancelled, rest);
            && (w.matches == [Match(ds[i].pts, t, t)] <==> IsNear(c, t, ds[i]))
            && (!IsNear(c, t, ds[i]) ==> (OnlyOwn(w) <==> forall j | i < j < |ds| :: !IsNear(c, t, ds[j])))
  {
    var ds := LookedAt(c, ps, cancelled, rest);
    SingleRequestTakesTheFirstNear(c, t, fi, ps, cancelled, rest);
    if exists j :: 0 <= j < |ds| && IsNear(c, t, ds[j]) {
      var k := FirstOf(c, t, ds);
    }
  }

  /** A request for the frame at 40 ms, 25 frames a second: decoding starts before it, its frame comes 1 ms early and is
      skipped, and the next one is sent in its place. */
  lemma EarlyFrameIsReplaced(fi: int)
    ensures var frames := [Decoded(0, 0, true, Delivered, false), Decoded(39, 40, true, Delivered, false),
                           Decoded(80, 80, true, Delivered, false)];
            Produced(Config(40, 40, 82), map[40 := fi], [Packet(true, false, Some(0), true, frames)], false, []).matches
              == [Match(80, 80, 40)]
  {
    var frames := [Decoded(0, 0, true, Delivered, false), Decoded(39, 40, true, Delivered, false),
                   Decoded(80, 80, true, Delivered, false)];
    var c, ps := Config(40, 40, 82), [Packet(true, false, Some(0), true, frames)];
    assert BeforePast(c, frames) == frames by {
      assert frames[1..][1..] == frames[2..] && frames[2..][1..] == [];
      assert BeforePast(c, frames[2..]) == [frames[2]] + [];
      assert BeforePast(c, frames[1..]) == [frames[1]] + [frames[2]];
    }
    assert Reached(c, ps) == frames + [];
    assert LookedAt(c, ps, false, []) == frames;
    SingleRequestTakesTheFirstNear(c, 40, fi, ps, false, []);
    assert IsNear(c, 40, frames[2]);
  }

  /** Nor need it be early: if it is lost, the next one is sent. */
  lemma LostFrameIsReplaced(fi: int)
    ensures var next := Decoded(80, 80, true, Delivered, false);
            Produced(Config(40, 40, 82), map[40 := fi], [], false, [next]).matches == [Match(80, 80, 40)]
  {
    var c, next := Config(40, 40, 82), Decoded(80, 80, true, Delivered, false);
    NearestIs({40}, 80, 82, 40);
    assert map[40 := fi].Keys == {40};
    OneFrameRun(c, map[40 := fi], next, 40);
  }

  /** At 25 frames a second a frame 21 ms late takes its neighbour's position, and the neighbour is then sent as that
      frame. */
  lemma LateFrameStealsANeighbour(fi0: int, fi1: int)
    ensures FrameDurationMs(25, 1) * 2 == 82
    ensures var a, b := Decoded(21, 0, true, Delivered, false), Decoded(40, 40, true, Delivered, false);
            Produced(Config(0, 40, 82), map[0 := fi0, 40 := fi1], [Packet(true, false, Some(40), true, [a, b])], false,
                     []).matches
              == [Match(21, 0, 40), Match(40, 40, 0)]
  {
    var a, b := Decoded(21, 0, true, Delivered, false), Decoded(40, 40, true, Delivered, false);
    var c, m := Config(0, 40, 82), map[0 := fi0, 40 := fi1];
    NearestIs(m.Keys, 21, 82, 40);
    var s1 := Step(c, Start(m), a, false);
    assert s1.left == map[0 := fi0];
    NearestIs(s1.left.Keys, 40, 82, 0);
    var s2 := Step(c, s1, b, false);
    assert s2.matches == [Match(21, 0, 40), Match(40, 40, 0)] && s2.left == map[] && s2.stop == Left;
    assert Frames(c, s1, [b], false) == s2;
    assert [a, b][1..] == [b];
    assert Frames(c, Start(m), [a, b], false) == s2;
    assert Packets(c, Start(m), [Packet(true, false, Some(40), true, [a, b])]) == s2;
  }
}
