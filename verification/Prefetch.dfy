/** Reporting of a prefetched window (server.rs, handle_prefetch_range_stream).

    Whether a frame is already cached, whether decoding and storing it works, whether the stream takes the n-th message,
    and whether the job is cancelled after the n-th frame of the second pass are arbitrary functions.
 */
module Prefetch {
  datatype Option<T> = None | Some(value: T)

  datatype Frame = Frame(fi: int, posMs: int)
  datatype Event = Ready(fi: int) | FailedFrame(fi: int) | DoneWith(cacheHits: nat, decoded: nat, failed: nat)

  datatype World = World(cached: Frame -> bool, decodes: Frame -> bool, takes: nat -> bool, cancelledAfter: nat -> bool)

  function Abs(x: int): int { if x < 0 then -x else x }

  // ---- the order of the reports ----

  function Hits(w: World, window: seq<Frame>): seq<Frame> {
    if window == [] then []
    else if w.cached(window[|window|-1]) then Hits(w, window[..|window|-1]) + [window[|window|-1]]
    else Hits(w, window[..|window|-1])
  }

  function Misses(w: World, window: seq<Frame>): seq<Frame> {
    if window == [] then []
    else if w.cached(window[|window|-1]) then Misses(w, window[..|window|-1])
    else Misses(w, window[..|window|-1]) + [window[|window|-1]]
  }

  /** The first of the misses nearest to the anchor. */
  ghost predicate IsNearest(misses: seq<Frame>, anchorMs: int, k: nat) {
    && k < |misses|
    && (forall j | 0 <= j < |misses| :: Abs(misses[k].posMs - anchorMs) <= Abs(misses[j].posMs - anchorMs))
    && (forall j | 0 <= j < k :: Abs(misses[k].posMs - anchorMs) < Abs(misses[j].posMs - anchorMs))
  }

  function NearestIn(misses: seq<Frame>, anchorMs: int): (k: nat)
    requires misses != []
    ensures IsNearest(misses, anchorMs, k)
  {
    if |misses| == 1 then 0
    else
      var last := |misses| - 1;
      var k := NearestIn(misses[..last], anchorMs);
      NearestSoFar(misses, anchorMs, k);
      if Abs(misses[last].posMs - anchorMs) < Abs(misses[k].posMs - anchorMs) then last else k
  }

  lemma NearestSoFar(misses: seq<Frame>, anchorMs: int, k: nat)
    requires |misses| > 1 && IsNearest(misses[..|misses|-1], anchorMs, k)
    ensures forall j | 0 <= j < |misses| - 1 :: Abs(misses[k].posMs - anchorMs) <= Abs(misses[j].posMs - anchorMs)
    ensures forall j | 0 <= j < k :: Abs(misses[k].posMs - anchorMs) < Abs(misses[j].posMs - anchorMs)
  {
    var front := misses[..|misses|-1];
    assert forall j | 0 <= j < |misses| - 1 :: misses[j] == front[j];
  }

  /** The frames in the order they are reported: hits, then the miss nearest the anchor, then the other misses. */
  function Order(w: World, window: seq<Frame>, anchorMs: int): seq<Frame> {
    var misses := Misses(w, window);
    Hits(w, window)
    + if misses == [] then [] else var k := NearestIn(misses, anchorMs); [misses[k]] + (misses[..k] + misses[k+1..])
  }

  function Report(w: World, f: Frame): Event { if w.cached(f) || w.decodes(f) then Ready(f.fi) else FailedFrame(f.fi) }

  function Reports(w: World, frames: seq<Frame>): (r: seq<Event>)
    ensures |r| == |frames| && forall i | 0 <= i < |r| :: r[i] == Report(w, frames[i])
  {
    seq(|frames|, i requires 0 <= i < |frames| => Report(w, frames[i]))
  }

  function Decoded(w: World, frames: seq<Frame>): nat {
    if frames == [] then 0
    else
      var last := frames[|frames|-1];
      Decoded(w, frames[..|frames|-1]) + if !w.cached(last) && w.decodes(last) then 1 else 0
  }

  function Failed(w: World, frames: seq<Frame>): nat {
    if frames == [] then 0
    else
      var last := frames[|frames|-1];
      Failed(w, frames[..|frames|-1]) + if !w.cached(last) && !w.decodes(last) then 1 else 0
  }

  /** The whole stream of a run that is not interrupted. */
  function FullStream(w: World, window: seq<Frame>, anchorMs: int): seq<Event> {
    var order := Order(w, window, anchorMs);
    Reports(w, order) + [DoneWith(|Hits(w, window)|, Decoded(w, order), Failed(w, order))]
  }

  // ---- the handler ----

  /** The peer stays and nobody cancels. */
  ghost predicate Undisturbed(w: World) { (forall n :: w.takes(n)) && forall n :: !w.cancelledAfter(n) }

  /** The open stream: what has been written, and the counters. */
  class Job {
    var events: seq<Event>
    var cacheHits: nat
    var decoded: nat
    var failed: nat

    constructor ()
      ensures events == [] && cacheHits == 0 && decoded == 0 && failed == 0
    {
      events, cacheHits, decoded, failed := [], 0, 0, 0;
    }

    /** False when the peer is gone. */
    method WriteChunk(w: World, e: Event) returns (ok: bool)
      modifies this`events
      ensures ok == w.takes(|old(events)|)
      ensures events == if ok then old(events) + [e] else old(events)
    {
      ok := w.takes(|events|);
      if ok { events := events + [e]; }
    }

    /** The frames before `done` are reported and counted. */
    ghost predicate Reported(w: World, done: seq<Frame>)
      reads this
    {
      events == Reports(w, done) && decoded == Decoded(w, done) && failed == Failed(w, done)
    }

    /** A cached frame of the first pass. */
    method ReportHit(w: World, window: seq<Frame>, i: nat) returns (ok: bool)
      requires i < |window| && Reported(w, Hits(w, window[..i])) && w.cached(window[i])
      modifies this
      ensures ok ==> Reported(w, Hits(w, window[..i+1])) && cacheHits == old(cacheHits) + 1
      ensures events <= Reports(w, Hits(w, window))
      ensures Undisturbed(w) ==> ok
    {
      HitIsReported(w, window, i);
      HitsGrow(w, window, i);
      HitsGrow(w, window, i + 1);
      cacheHits := cacheHits + 1;
      ok := WriteChunk(w, Ready(window[i].fi));
    }

    /** Pass 1: report what is cached, collect the rest. */
    method ReportHits(w: World, window: seq<Frame>) returns (ok: bool, misses: seq<Frame>)
      requires events == [] && cacheHits == 0 && decoded == 0 && failed == 0
      modifies this
      ensures ok ==> Reported(w, Hits(w, window)) && cacheHits == |Hits(w, window)| && misses == Misses(w, window)
      ensures !ok ==> events <= Reports(w, Hits(w, window))
      ensures Undisturbed(w) ==> ok
    {
      misses := [];
      for i := 0 to |window|
        invariant Reported(w, Hits(w, window[..i])) && cacheHits == |Hits(w, window[..i])|
                  && misses == Misses(w, window[..i])
      {
        Passed(w, window, i);
        if w.cached(window[i]) {
          ok := ReportHit(w, window, i);
          if !ok { return; }
        } else {
          misses := misses + [window[i]];
        }
      }
      assert window[..|window|] == window;
      ok := true;
    }

    /** A miss, once its decode has been awaited. */
    method ReportMiss(w: World, f: Frame, ghost done: seq<Frame>) returns (ok: bool)
      requires Reported(w, done) && !w.cached(f)
      modifies this
      ensures ok ==> Reported(w, done + [f]) && cacheHits == old(cacheHits)
      ensures !ok ==> events == old(events)
      ensures Undisturbed(w) ==> ok
    {
      assert (done + [f])[..|done|] == done;
      assert Reports(w, done + [f]) == Reports(w, done) + [Report(w, f)];
      if w.decodes(f) {
        decoded := decoded + 1;
        ok := WriteChunk(w, Ready(f.fi));
      } else {
        failed := failed + 1;
        ok := WriteChunk(w, FailedFrame(f.fi));
      }
    }

    /** The next miss of the second pass. */
    method ReportNext(w: World, misses: seq<Frame>, i: nat, ghost done: seq<Frame>) returns (ok: bool)
      requires i < |misses| && Reported(w, done + misses[..i]) && !w.cached(misses[i])
      modifies this
      ensures ok ==> Reported(w, done + misses[..i+1]) && cacheHits == old(cacheHits)
      ensures events <= Reports(w, done + misses)
      ensures Undisturbed(w) ==> ok
    {
      assert done + misses[..i] + [misses[i]] == done + misses[..i+1];
      MissesGrow(w, done, misses, i);
      MissesGrow(w, done, misses, i + 1);
      ok := ReportMiss(w, misses[i], done + misses[..i]);
    }

    /** One batch, misses[start..end], awaited in order. */
    method ReportBatch(w: World, misses: seq<Frame>, start: nat, end: nat, processed0: nat, ghost done: seq<Frame>)
      returns (ok: bool, processed: nat)
      requires start <= end <= |misses| && Reported(w, done + misses[..start])
      requires forall i | 0 <= i < |misses| :: !w.cached(misses[i])
      modifies this
      ensures ok ==> Reported(w, done + misses[..end]) && cacheHits == old(cacheHits)
      ensures !ok ==> events <= Reports(w, done + misses)
      ensures Undisturbed(w) ==> ok
    {
      processed := processed0;
      for i := start to end
        invariant Reported(w, done + misses[..i]) && cacheHits == old(cacheHits)
      {
        ok := ReportNext(w, misses, i, done);
        if !ok { return; }
        if w.cancelledAfter(processed) { return false, processed; }
        processed := processed + 1;
      }
      ok := true;
    }

    /** Pass 2: the misses in batches. */
    method ReportBatches(w: World, misses: seq<Frame>, batchSize: nat, ghost done: seq<Frame>) returns (ok: bool)
      requires Reported(w, done) && forall i | 0 <= i < |misses| :: !w.cached(misses[i])
      modifies this
      ensures ok ==> Reported(w, done + misses) && cacheHits == old(cacheHits)
      ensures !ok ==> events <= Reports(w, done + misses)
      ensures Undisturbed(w) ==> ok
    {
      var size := if batchSize > 1 then batchSize else 1;
      var start := 0;
      var processed := 0;
      assert done + misses[..0] == done;
      while start < |misses|
        invariant 0 <= start <= |misses| && cacheHits == old(cacheHits)
        invariant Reported(w, done + misses[..start])
      {
        var end := if start + size < |misses| then start + size else |misses|;
        ok, processed := ReportBatch(w, misses, start, end, processed, done);
        if !ok { return; }
        start := end;
      }
      assert misses[..|misses|] == misses;
      ok := true;
    }
  }

  lemma {:induction false} Passed(w: World, window: seq<Frame>, i: nat)
    requires i < |window|
    ensures Hits(w, window[..i+1]) ==
            if w.cached(window[i]) then Hits(w, window[..i]) + [window[i]] else Hits(w, window[..i])
    ensures Misses(w, window[..i+1]) ==
            if w.cached(window[i]) then Misses(w, window[..i]) else Misses(w, window[..i]) + [window[i]]
  {
    assert window[..i+1][..i] == window[..i];
  }

  lemma {:induction false} HitIsReported(w: World, window: seq<Frame>, i: nat)
    requires i < |window| && w.cached(window[i])
    ensures Hits(w, window[..i+1]) == Hits(w, window[..i]) + [window[i]]
    ensures Reports(w, Hits(w, window[..i+1])) == Reports(w, Hits(w, window[..i])) + [Ready(window[i].fi)]
    ensures Decoded(w, Hits(w, window[..i+1])) == Decoded(w, Hits(w, window[..i]))
            && Failed(w, Hits(w, window[..i+1])) == Failed(w, Hits(w, window[..i]))
  {
    assert window[..i+1][..i] == window[..i];
    var h := Hits(w, window[..i+1]);
    assert h[..|h|-1] == Hits(w, window[..i]);
  }

  lemma {:induction false} HitsGrow(w: World, window: seq<Frame>, i: nat)
    requires i <= |window|
    ensures Reports(w, Hits(w, window[..i])) <= Reports(w, Hits(w, window))
    decreases |window| - i
  {
    if i == |window| {
      assert window[..i] == window;
    } else {
      HitsGrow(w, window, i + 1);
      assert window[..i+1][..i] == window[..i];
      var h, g := Hits(w, window[..i]), Hits(w, window[..i+1]);
      assert g[..|h|] == h;
      assert Reports(w, h) == Reports(w, g)[..|h|];
    }
  }

  lemma MissesGrow(w: World, done: seq<Frame>, misses: seq<Frame>, i: nat)
    requires i <= |misses|
    ensures Reports(w, done + misses[..i]) <= Reports(w, done + misses)
  {
    var a, b := Reports(w, done + misses[..i]), Reports(w, done + misses);
    assert forall k | 0 <= k < |a| :: (done + misses[..i])[k] == (done + misses)[k];
    assert a == b[..|a|];
  }

  lemma {:induction false} MissesAreUncached(w: World, window: seq<Frame>)
    ensures forall i | 0 <= i < |Misses(w, window)| :: !w.cached(Misses(w, window)[i])
  {
    if window != [] { MissesAreUncached(w, window[..|window|-1]); }
  }

  /** The whole handler: the full stream, or, when the peer leaves or the job is cancelled, a prefix of it without the
      end mark. */
  method PrefetchRange(w: World, window: seq<Frame>, anchorMs: int, batchSize: nat)
    returns (events: seq<Event>, ok: bool)
    ensures ok ==> events == FullStream(w, window, anchorMs)
    ensures !ok ==> events <= Reports(w, Order(w, window, anchorMs))
    ensures Undisturbed(w) ==> ok
  {
    var job := new Job();
    var misses: seq<Frame>;
    ok, misses := job.ReportHits(w, window);
    ghost var hits, order := Hits(w, window), Order(w, window, anchorMs);
    if !ok {
      MissesGrow(w, hits, order[|hits|..], 0);
      return job.events, false;
    }
    MissesAreUncached(w, window);
    ghost var done := hits;
    if misses != [] {
      var k := NearestIn(misses, anchorMs);
      var anchor := misses[k];
      misses := misses[..k] + misses[k+1..];
      assert order == hits + ([anchor] + misses);
      ok := job.ReportMiss(w, anchor, done);
      if !ok {
        MissesGrow(w, hits, [anchor] + misses, 0);
        return job.events, false;
      }
      done := done + [anchor];
    }
    assert order == done + misses;
    ok := job.ReportBatches(w, misses, batchSize, done);
    if !ok { return job.events, false; }
    ok := job.WriteChunk(w, DoneWith(job.cacheHits, job.decoded, job.failed));
    events := job.events;
  }

  // ---- every frame exactly once ----

  lemma {:induction false} HitsAndMisses(w: World, window: seq<Frame>)
    ensures multiset(Hits(w, window)) + multiset(Misses(w, window)) == multiset(window)
  {
    if window != [] {
      HitsAndMisses(w, window[..|window|-1]);
      assert window == window[..|window|-1] + [window[|window|-1]];
    }
  }

  lemma MovedToFront(s: seq<Frame>, k: nat)
    requires k < |s|
    ensures multiset([s[k]] + (s[..k] + s[k+1..])) == multiset(s)
  {
    assert s == s[..k] + [s[k]] + s[k+1..];
  }

  /** Every frame of the window is reported exactly once. */
  lemma EachFrameOnce(w: World, window: seq<Frame>, anchorMs: int)
    ensures multiset(Order(w, window, anchorMs)) == multiset(window) && |Order(w, window, anchorMs)| == |window|
  {
    HitsAndMisses(w, window);
    var misses := Misses(w, window);
    if misses != [] { MovedToFront(misses, NearestIn(misses, anchorMs)); }
    assert |multiset(Order(w, window, anchorMs))| == |multiset(window)|;
  }

  lemma {:induction false} CountsSplit(w: World, a: seq<Frame>, b: seq<Frame>)
    ensures Decoded(w, a + b) == Decoded(w, a) + Decoded(w, b) && Failed(w, a + b) == Failed(w, a) + Failed(w, b)
  {
    if b == [] {
      assert a + b == a;
    } else {
      CountsSplit(w, a, b[..|b|-1]);
      assert (a + b)[..|a| + |b| - 1] == a + b[..|b|-1];
    }
  }

  lemma {:induction false} CountsOfCached(w: World, a: seq<Frame>)
    requires forall i | 0 <= i < |a| :: w.cached(a[i])
    ensures Decoded(w, a) == 0 && Failed(w, a) == 0
  {
    if a != [] { CountsOfCached(w, a[..|a|-1]); }
  }

  lemma {:induction false} CountsOfUncached(w: World, a: seq<Frame>)
    requires forall i | 0 <= i < |a| :: !w.cached(a[i])
    ensures Decoded(w, a) + Failed(w, a) == |a|
  {
    if a != [] { CountsOfUncached(w, a[..|a|-1]); }
  }

  lemma {:induction false} HitsAreCached(w: World, window: seq<Frame>)
    ensures forall i | 0 <= i < |Hits(w, window)| :: w.cached(Hits(w, window)[i])
  {
    if window != [] { HitsAreCached(w, window[..|window|-1]); }
  }

  lemma {:induction false} CountsOfBoth(w: World, hits: seq<Frame>, rest: seq<Frame>)
    requires (forall i | 0 <= i < |hits| :: w.cached(hits[i])) && forall i | 0 <= i < |rest| :: !w.cached(rest[i])
    ensures Decoded(w, hits + rest) + Failed(w, hits + rest) == |rest|
  {
    CountsSplit(w, hits, rest);
    CountsOfCached(w, hits);
    CountsOfUncached(w, rest);
  }

  /** The three counts of the end mark add up to the size of the window, and count what was reported. */
  lemma {:induction false} CountsAddUp(w: World, window: seq<Frame>, anchorMs: int)
    ensures var order := Order(w, window, anchorMs);
            |Hits(w, window)| + Decoded(w, order) + Failed(w, order) == |window|
    ensures Failed(w, Order(w, window, anchorMs)) == FailuresIn(Reports(w, Order(w, window, anchorMs)))
  {
    var order, hits := Order(w, window, anchorMs), Hits(w, window);
    var rest := order[|hits|..];
    assert order == hits + rest;
    EachFrameOnce(w, window, anchorMs);
    HitsAreCached(w, window);
    MissesAreUncached(w, window);
    CountsOfBoth(w, hits, rest);
    FailuresAreReported(w, order);
  }

  function FailuresIn(events: seq<Event>): nat {
    if events == [] then 0 else FailuresIn(events[..|events|-1]) + if events[|events|-1].FailedFrame? then 1 else 0
  }

  lemma {:induction false} FailuresAreReported(w: World, frames: seq<Frame>)
    ensures Failed(w, frames) == FailuresIn(Reports(w, frames))
  {
    if frames != [] {
      FailuresAreReported(w, frames[..|frames|-1]);
      assert Reports(w, frames)[..|frames|-1] == Reports(w, frames[..|frames|-1]);
    }
  }

  /** a is b with some elements left out. */
  predicate Subsequence(a: seq<Frame>, b: seq<Frame>)
    decreases |b|
  {
    a == [] || (b != [] && ((a[|a|-1] == b[|b|-1] && Subsequence(a[..|a|-1], b[..|b|-1]))
                            || Subsequence(a, b[..|b|-1])))
  }

  /** Hits and misses are both reported in window order, but for the miss nearest the anchor, which comes before the
      others. */
  lemma {:induction false} FiltersKeepOrder(w: World, window: seq<Frame>)
    ensures Subsequence(Hits(w, window), window) && Subsequence(Misses(w, window), window)
  {
    if window != [] {
      var front, last := window[..|window|-1], window[|window|-1];
      FiltersKeepOrder(w, front);
      assert (Hits(w, front) + [last])[..|Hits(w, front)|] == Hits(w, front);
      assert (Misses(w, front) + [last])[..|Misses(w, front)|] == Misses(w, front);
    }
  }

  // ---- the anchor first ----

  ghost predicate HoldsNoHit(w: World, window: seq<Frame>) { forall i | 0 <= i < |window| :: !w.cached(window[i]) }

  /** The first report is for a miss, and no miss of the window is nearer to the anchor. */
  ghost predicate NearestMissFirst(w: World, window: seq<Frame>, anchorMs: int) {
    var order := Order(w, window, anchorMs);
    && order != [] && !w.cached(order[0])
    && forall i | 0 <= i < |window| && !w.cached(window[i]) ::
         Abs(order[0].posMs - anchorMs) <= Abs(window[i].posMs - anchorMs)
  }

  /** The first report is for a frame at the anchor. */
  predicate AnchorFirst(w: World, window: seq<Frame>, anchorMs: int) {
    var order := Order(w, window, anchorMs);
    order != [] && order[0].posMs == anchorMs
  }

  lemma {:induction false} WithoutHits(w: World, window: seq<Frame>)
    ensures Hits(w, window) == [] <==> HoldsNoHit(w, window)
    ensures HoldsNoHit(w, window) ==> Misses(w, window) == window
  {
    if window != [] {
      var front := window[..|window|-1];
      WithoutHits(w, front);
      assert forall i | 0 <= i < |front| :: front[i] == window[i];
      assert window == front + [window[|window|-1]];
    }
  }

  lemma {:induction false} FirstHit(w: World, window: seq<Frame>) returns (i: nat)
    requires Hits(w, window) != []
    ensures i < |window| && w.cached(window[i]) && window[i] == Hits(w, window)[0]
    ensures forall j | 0 <= j < i :: !w.cached(window[j])
  {
    var front := window[..|window|-1];
    assert forall j | 0 <= j < |front| :: front[j] == window[j];
    if Hits(w, front) == [] {
      WithoutHits(w, front);
      i := |window| - 1;
    } else {
      i := FirstHit(w, front);
    }
  }

  /** What the comment promises of the anchor holds of the nearest miss, exactly when nothing of the window is
      cached. */
  lemma NearestMissFirstIff(w: World, window: seq<Frame>, anchorMs: int)
    ensures NearestMissFirst(w, window, anchorMs) <==> window != [] && HoldsNoHit(w, window)
  {
    WithoutHits(w, window);
    EachFrameOnce(w, window, anchorMs);
    if Hits(w, window) != [] {
      var i := FirstHit(w, window);
      assert Order(w, window, anchorMs)[0] == window[i];
    }
  }

  /** The first cached frame of the window is at the anchor. */
  ghost predicate FirstCachedAtAnchor(w: World, window: seq<Frame>, anchorMs: int) {
    exists i | 0 <= i < |window| && w.cached(window[i]) && HoldsNoHit(w, window[..i]) :: window[i].posMs == anchorMs
  }

  lemma {:induction false} AnchorFirstAmongHits(w: World, window: seq<Frame>, anchorMs: int)
    requires Hits(w, window) != []
    ensures AnchorFirst(w, window, anchorMs) <==> FirstCachedAtAnchor(w, window, anchorMs)
  {
    var i := FirstHit(w, window);
    assert Order(w, window, anchorMs)[0] == window[i];
    assert HoldsNoHit(w, window[..i]);
    if j: nat :| j < |window| && w.cached(window[j]) && HoldsNoHit(w, window[..j]) && window[j].posMs == anchorMs {
      assert i < j ==> window[..j][i] == window[i];
    }
  }

  lemma {:induction false} AnchorFirstAmongMisses(w: World, window: seq<Frame>, anchorMs: int)
    requires window != [] && Hits(w, window) == [] && Misses(w, window) == window
    ensures AnchorFirst(w, window, anchorMs) <==> exists i | 0 <= i < |window| :: window[i].posMs == anchorMs
  {
    var k := NearestIn(window, anchorMs);
    assert Order(w, window, anchorMs)[0] == window[k];
    if i: nat :| i < |window| && window[i].posMs == anchorMs {
      assert Abs(window[k].posMs - anchorMs) <= Abs(window[i].posMs - anchorMs) == 0;
    }
  }

  /** It holds of a frame at the anchor exactly when the first cached frame is one,
      or nothing is cached and the window has one. */
  lemma AnchorFirstIff(w: World, window: seq<Frame>, anchorMs: int)
    ensures AnchorFirst(w, window, anchorMs) <==>
            || FirstCachedAtAnchor(w, window, anchorMs)
            || (HoldsNoHit(w, window) && exists i | 0 <= i < |window| :: window[i].posMs == anchorMs)
  {
    WithoutHits(w, window);
    if Hits(w, window) != [] {
      AnchorFirstAmongHits(w, window, anchorMs);
    } else if window != [] {
      AnchorFirstAmongMisses(w, window, anchorMs);
    }
  }

  /** The anchor, at 40 ms, is missing, and still a cached frame before it is reported first. */
  lemma CachedFrameComesBeforeTheAnchor(w: World, first: Frame, anchor: Frame)
    requires first == Frame(0, 0) && anchor == Frame(1, 40) && w.cached(first) && !w.cached(anchor)
    ensures Order(w, [first, anchor], 40) == [first, anchor] && !AnchorFirst(w, [first, anchor], 40)
  {
    var window := [first, anchor];
    assert window[..1] == [first] && [first][..0] == [];
    assert Hits(w, [first]) == [] + [first] && Misses(w, [first]) == [];
    assert Hits(w, window) == [first] && Misses(w, window) == [anchor];
  }
}
