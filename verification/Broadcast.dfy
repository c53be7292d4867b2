/** The frame-index stream (server.rs): one demux per file, any number of subscribers, and a cached branch.

    The runs of many tasks over one file are in BroadcastRuns.
 */
module Broadcast {
  datatype Option<T> = None | Some(value: T)

  const BATCH_SIZE := 5000
  const FRAME_INDEX_CAP := 20

  /** A frame's position and whether it is a key frame. */
  datatype Frame = Frame(ms: int, key: bool)
  datatype FrameIndex = FrameIndex(frames: seq<Frame>, fpsNum: int, fpsDen: int)

  datatype Entry = Entry(fi: nat, ms: int, key: bool)
  datatype Msg = Fps(num: int, den: int) | Batch(entries: seq<Entry>) | Done

  function Entries(frames: seq<Frame>): (s: seq<Entry>)
    ensures |s| == |frames|
  {
    seq(|frames|, i requires 0 <= i < |frames| => Entry(i, frames[i].ms, frames[i].key))
  }

  // ---- batches ----

  function Chunks(s: seq<Entry>): seq<seq<Entry>> {
    if s == [] then [] else if |s| <= BATCH_SIZE then [s] else [s[..BATCH_SIZE]] + Chunks(s[BATCH_SIZE..])
  }

  function Batches(chunks: seq<seq<Entry>>): (msgs: seq<Msg>)
    ensures |msgs| == |chunks| && forall i | 0 <= i < |chunks| :: msgs[i] == Batch(chunks[i])
  {
    seq(|chunks|, i requires 0 <= i < |chunks| => Batch(chunks[i]))
  }

  function Flatten(chunks: seq<seq<Entry>>): seq<Entry> {
    if chunks == [] then [] else chunks[0] + Flatten(chunks[1..])
  }

  /** The whole stream for an index: its frame rate, its frames in batches, the end mark. */
  function Messages(idx: FrameIndex): seq<Msg> {
    [Fps(idx.fpsNum, idx.fpsDen)] + Batches(Chunks(Entries(idx.frames))) + [Done]
  }

  /** Batches cover the frames in order; all are full but the last, and none is empty. */
  lemma {:induction false} ChunksPartition(s: seq<Entry>)
    ensures Flatten(Chunks(s)) == s
    ensures forall i | 0 <= i < |Chunks(s)| - 1 :: |Chunks(s)[i]| == BATCH_SIZE
    ensures s != [] ==> Chunks(s) != [] && 0 < |Chunks(s)[|Chunks(s)|-1]| <= BATCH_SIZE
    decreases |s|
  {
    if |s| > BATCH_SIZE {
      ChunksPartition(s[BATCH_SIZE..]);
      assert Chunks(s)[1..] == Chunks(s[BATCH_SIZE..]);
      assert s[..BATCH_SIZE] + s[BATCH_SIZE..] == s;
    } else if s != [] {
      assert Flatten([s]) == s + Flatten([]);
    }
  }

  /** Splitting after full batches does not change the batches. */
  lemma {:induction false} ChunksSplit(s: seq<Entry>, m: nat)
    requires m <= |s| && m % BATCH_SIZE == 0
    ensures Chunks(s) == Chunks(s[..m]) + Chunks(s[m..])
    decreases m
  {
    if m == 0 {
      assert s[0..] == s;
    } else if |s| == BATCH_SIZE {
      assert m == BATCH_SIZE && s[..m] == s && s[m..] == [];
    } else {
      var rest := s[BATCH_SIZE..];
      ChunksSplit(rest, m - BATCH_SIZE);
      assert rest[m - BATCH_SIZE..] == s[m..];
      var first := s[..m];
      assert first[BATCH_SIZE..] == rest[..m - BATCH_SIZE];
      assert first[..BATCH_SIZE] == s[..BATCH_SIZE];
      if m == BATCH_SIZE {
        assert first[BATCH_SIZE..] == [];
        assert Chunks(first) == [first];
      }
    }
  }

  lemma BatchesPlus(a: seq<seq<Entry>>, b: seq<seq<Entry>>)
    ensures Batches(a + b) == Batches(a) + Batches(b)
  {
  }

  // ---- shared state ----

  class IndexProgress {
    var batches: seq<Msg>
    var done: bool

    constructor ()
      ensures batches == [] && !done
    {
      batches, done := [], false;
    }

    method Push(msg: Msg)
      modifies this`batches
      ensures batches == old(batches) + [msg]
    {
      batches := batches + [msg];
    }

    method Finish()
      modifies this`done
      ensures done
    {
      done := true;
    }
  }

  type FilePath = string

  datatype Cached = Cached(path: FilePath, idx: FrameIndex)

  /** Looking up does not change the eviction order, so the least recently used entry is the oldest one. */
  function Find(lru: seq<Cached>, path: FilePath): Option<FrameIndex> {
    if lru == [] then None else if lru[0].path == path then Some(lru[0].idx) else Find(lru[1..], path)
  }

  function Put(lru: seq<Cached>, path: FilePath, idx: FrameIndex): seq<Cached> {
    (if |lru| >= FRAME_INDEX_CAP then lru[1..] else lru) + [Cached(path, idx)]
  }

  lemma {:induction false} FindAppended(lru: seq<Cached>, path: FilePath, idx: FrameIndex)
    ensures Find(lru + [Cached(path, idx)], path) == if Find(lru, path).Some? then Find(lru, path) else Some(idx)
  {
    if lru != [] {
      FindAppended(lru[1..], path, idx);
      assert (lru + [Cached(path, idx)])[1..] == lru[1..] + [Cached(path, idx)];
    }
  }

  lemma {:induction false} FindFirstOnly(lru: seq<Cached>, path: FilePath)
    requires Find(lru, path).None?
    ensures forall k | 0 <= k <= |lru| :: Find(lru[k..], path).None?
  {
    if lru != [] {
      FindFirstOnly(lru[1..], path);
      forall k | 0 <= k <= |lru|
        ensures Find(lru[k..], path).None?
      {
        if k > 0 { assert lru[k..] == lru[1..][k-1..]; } else { assert lru[k..] == lru; }
      }
    }
  }

  function PutAll(puts: seq<Cached>): seq<Cached> {
    if puts == [] then []
    else Put(PutAll(puts[..|puts|-1]), puts[|puts|-1].path, puts[|puts|-1].idx)
  }

  /** However many indexes have been put, the cache holds the last twenty of them, oldest first. */
  lemma {:induction false} CacheHoldsTheLastTwenty(puts: seq<Cached>)
    ensures PutAll(puts) == if |puts| <= 20 then puts else puts[|puts|-20..]
  {
    if puts != [] {
      var front, last := puts[..|puts|-1], puts[|puts|-1];
      CacheHoldsTheLastTwenty(front);
      assert Cached(last.path, last.idx) == last && puts == front + [last];
      if |front| > 20 {
        assert front[|front|-20..][1..] == front[|front|-19..];
      } else if |front| == 20 {
        assert puts[1..] == front[1..] + [last];
      }
    }
  }

  datatype Subscription = CachedIndex(idx: FrameIndex) | Existing(p: IndexProgress) | New(p: IndexProgress)

  class FrameIndexManager {
    var index: seq<Cached>
    var inProgress: map<FilePath, IndexProgress>

    constructor ()
      ensures index == [] && inProgress == map[]
    {
      index, inProgress := [], map[];
    }

    method Get(path: FilePath) returns (idx: Option<FrameIndex>)
      ensures idx == Find(index, path)
    {
      for i := 0 to |index|
        invariant Find(index[i..], path) == Find(index, path)
      {
        assert index[i..][0] == index[i] && index[i..][1..] == index[i+1..];
        if index[i].path == path { return Some(index[i].idx); }
      }
      idx := None;
    }

    /** An index already there stays; a new one can be found at once. */
    method PutIfAbsent(path: FilePath, idx: FrameIndex)
      modifies this`index
      ensures Find(old(index), path).Some? ==> index == old(index)
      ensures Find(old(index), path).None? ==> index == Put(old(index), path, idx)
      ensures Find(index, path) == if Find(old(index), path).Some? then Find(old(index), path) else Some(idx)
    {
      var there := Get(path);
      if there.None? {
        FindFirstOnly(index, path);
        FindAppended(if |index| >= FRAME_INDEX_CAP then index[1..] else index, path, idx);
        index := Put(index, path, idx);
      }
    }

    /** Cached, already being demuxed, or newly registered for this caller to demux. */
    method GetOrSubscribe(path: FilePath) returns (s: Subscription)
      modifies this`inProgress
      ensures Find(index, path).Some? ==> s == CachedIndex(Find(index, path).value) && inProgress == old(inProgress)
      ensures Find(index, path).None? && path in old(inProgress) ==>
                s == Existing(old(inProgress)[path]) && inProgress == old(inProgress)
      ensures Find(index, path).None? && path !in old(inProgress) ==>
                && s.New? && fresh(s.p) && s.p.batches == [] && !s.p.done
                && inProgress == old(inProgress)[path := s.p]
    {
      var idx := Get(path);
      if idx.Some? { return CachedIndex(idx.value); }
      if path in inProgress {
        s := Existing(inProgress[path]);
      } else {
        var p := new IndexProgress();
        inProgress := inProgress[path := p];
        s := New(p);
      }
    }

    method RemoveProgress(path: FilePath)
      modifies this`inProgress
      ensures inProgress == old(inProgress) - {path}
    {
      inProgress := inProgress - {path};
    }
  }

  // ---- the two producers ----

  /** What the codec parser says of a packet: nothing to show yet, or a frame with its own time where it knows one. */
  datatype Parsed = Held | Shown(ms: Option<int>)

  /** A packet of some stream; `rawMs` is its time before the stream's start is subtracted. */
  datatype Packet = Packet(stream: int, rawMs: int, key: bool, parsed: Parsed)

  function SinceStart(rawMs: int, startMs: int): int { if rawMs - startMs > 0 then rawMs - startMs else 0 }
  function FrameOf(p: Packet, startMs: int): Frame { Frame(SinceStart(p.rawMs, startMs), p.key) }

  /** The frames of one stream in file order. */
  function Demuxed(packets: seq<Packet>, stream: int, startMs: int): seq<Frame> {
    if packets == [] then []
    else
      var front := Demuxed(packets[..|packets|-1], stream, startMs);
      if packets[|packets|-1].stream == stream then front + [FrameOf(packets[|packets|-1], startMs)] else front
  }

  /** The other demux, behind every request that is not a stream: with a parser it leaves out the packets held back
      and prefers the parser's time. */
  function Built(packets: seq<Packet>, stream: int, startMs: int, parser: bool): seq<Frame> {
    if packets == [] then []
    else
      var p := packets[|packets|-1];
      var front := Built(packets[..|packets|-1], stream, startMs, parser);
      if p.stream != stream || (parser && p.parsed.Held?) then front
      else front + [Frame(SinceStart(TimeOf(p, parser), startMs), p.key)]
  }

  function TimeOf(p: Packet, parser: bool): int {
    if parser && p.parsed.Shown? && p.parsed.ms.Some? then p.parsed.ms.value else p.rawMs
  }

  /** Every packet of the stream is a frame, in file order, at its time since the stream's start, which is never
      negative. */
  lemma {:induction false} DemuxedCountsFromTheStart(packets: seq<Packet>, stream: int, startMs: int, i: nat)
    requires (forall k | 0 <= k < |packets| :: packets[k].stream == stream) && i < |packets|
    ensures |Demuxed(packets, stream, startMs)| == |packets|
    ensures var f := Demuxed(packets, stream, startMs)[i];
            && f.key == packets[i].key && f.ms >= 0
            && (packets[i].rawMs >= startMs ==> startMs + f.ms == packets[i].rawMs)
            && (packets[i].rawMs < startMs ==> f.ms == 0)
  {
    var front := packets[..|packets|-1];
    if i < |front| {
      DemuxedCountsFromTheStart(front, stream, startMs, i);
    } else if front != [] {
      DemuxedCountsFromTheStart(front, stream, startMs, 0);
    }
  }

  /** No frame at all is an error. */
  method IndexFrames(packets: seq<Packet>, stream: int, startMs: int, parser: bool) returns (r: Option<seq<Frame>>)
    ensures var frames := Built(packets, stream, startMs, parser); r == if frames == [] then None else Some(frames)
  {
    var frames: seq<Frame> := [];
    for i := 0 to |packets|
      invariant frames == Built(packets[..i], stream, startMs, parser)
    {
      assert packets[..i+1][..i] == packets[..i];
      var p := packets[i];
      if p.stream != stream { continue; }
      var raw := p.rawMs;
      if parser {
        if p.parsed.Held? { continue; }
        if p.parsed.ms.Some? { raw := p.parsed.ms.value; }
      }
      frames := frames + [Frame(SinceStart(raw, startMs), p.key)];
    }
    assert packets[..|packets|] == packets;
    r := if |frames| > 0 then Some(frames) else None;
  }

  /** Both demuxes list the packet, at the same time. */
  predicate ListedAlike(p: Packet, startMs: int, parser: bool) {
    parser ==> p.parsed.Shown? && SinceStart(TimeOf(p, parser), startMs) == SinceStart(p.rawMs, startMs)
  }

  lemma {:induction false} BuiltIsNoLonger(packets: seq<Packet>, stream: int, startMs: int, parser: bool)
    ensures |Built(packets, stream, startMs, parser)| <= |Demuxed(packets, stream, startMs)|
    ensures Built(packets, stream, startMs, parser) == [] <==>
            forall i | 0 <= i < |packets| && packets[i].stream == stream :: parser && packets[i].parsed.Held?
  {
    if packets != [] {
      var front := packets[..|packets|-1];
      BuiltIsNoLonger(front, stream, startMs, parser);
      assert forall i | 0 <= i < |front| :: front[i] == packets[i];
    }
  }

  /** The two demuxes find the same frames exactly when every packet of the stream is shown, at the time it carries. */
  lemma {:induction false} DemuxesAgreeIff(packets: seq<Packet>, stream: int, startMs: int, parser: bool)
    ensures Built(packets, stream, startMs, parser) == Demuxed(packets, stream, startMs) <==>
            forall i | 0 <= i < |packets| && packets[i].stream == stream :: ListedAlike(packets[i], startMs, parser)
  {
    if packets != [] {
      var p, front := packets[|packets|-1], packets[..|packets|-1];
      DemuxesAgreeIff(front, stream, startMs, parser);
      BuiltIsNoLonger(front, stream, startMs, parser);
      assert forall i | 0 <= i < |front| :: front[i] == packets[i];
      if p.stream == stream && !(parser && p.parsed.Held?) {
        LastsAgreeIff(Built(front, stream, startMs, parser), Frame(SinceStart(TimeOf(p, parser), startMs), p.key),
                      Demuxed(front, stream, startMs), FrameOf(p, startMs));
      }
    }
  }

  lemma LastsAgreeIff<T>(a: seq<T>, x: T, b: seq<T>, y: T)
    ensures a + [x] == b + [y] <==> a == b && x == y
  {
    if a + [x] == b + [y] {
      assert (a + [x])[|a|] == x && (b + [y])[|b|] == y;
      assert a == (a + [x])[..|a|] && b == (b + [y])[..|b|];
    }
  }

  /** What has been pushed and what is still in the batch, after the frames so far. */
  ghost predicate Halfway(pushed: seq<Msg>, batch: seq<Entry>, frames: seq<Frame>, num: int, den: int) {
    && |batch| < BATCH_SIZE && |batch| <= |frames|
    && var all := Entries(frames);
       var m := |frames| - |batch|;
       && m % BATCH_SIZE == 0 && batch == all[m..]
       && pushed == [Fps(num, den)] + Batches(Chunks(all[..m]))
  }

  lemma OneMoreFrame(pushed: seq<Msg>, batch: seq<Entry>, frames: seq<Frame>, num: int, den: int, f: Frame)
    requires Halfway(pushed, batch, frames, num, den)
    ensures var e := Entry(|frames|, f.ms, f.key);
            if |batch| + 1 < BATCH_SIZE then Halfway(pushed, batch + [e], frames + [f], num, den)
            else Halfway(pushed + [Batch(batch + [e])], [], frames + [f], num, den)
  {
    var e := Entry(|frames|, f.ms, f.key);
    var all, more := Entries(frames), Entries(frames + [f]);
    var m := |frames| - |batch|;
    assert more == all + [e];
    if |batch| + 1 < BATCH_SIZE {
      assert more[..m] == all[..m] && more[m..] == batch + [e];
    } else {
      assert |more| == m + BATCH_SIZE;
      assert more[..|more|] == more;
      ChunksSplit(more, m);
      assert more[..m] == all[..m] && more[m..] == batch + [e];
      assert Chunks(more[m..]) == [batch + [e]];
      BatchesPlus(Chunks(all[..m]), [batch + [e]]);
      assert Batches([batch + [e]]) == [Batch(batch + [e])];
    }
  }

  lemma LastBatch(pushed: seq<Msg>, batch: seq<Entry>, idx: FrameIndex)
    requires Halfway(pushed, batch, idx.frames, idx.fpsNum, idx.fpsDen)
    ensures Messages(idx) == pushed + (if batch == [] then [] else [Batch(batch)]) + [Done]
  {
    var all := Entries(idx.frames);
    var m := |all| - |batch|;
    ChunksSplit(all, m);
    BatchesPlus(Chunks(all[..m]), Chunks(batch));
    if batch != [] { assert Batches([batch]) == [Batch(batch)]; } else { assert all[..m] == all; }
  }

  /** Queue B run to its end: everything pushed to `progress` is the stream of the index it leaves in the cache. */
  method QueueBDemux(packets: seq<Packet>, stream: int, startMs: int, fpsNum: int, fpsDen: int,
                     path: FilePath, progress: IndexProgress, fi: FrameIndexManager)
    requires progress.batches == []
    modifies progress, fi
    ensures var idx := FrameIndex(Demuxed(packets, stream, startMs), fpsNum, fpsDen);
            && progress.batches == Messages(idx) && progress.done
            && Find(fi.index, path) == (if Find(old(fi.index), path).Some? then Find(old(fi.index), path)
                                        else Some(idx))
            && fi.inProgress == old(fi.inProgress) - {path}
  {
    progress.Push(Fps(fpsNum, fpsDen));
    var allFrames: seq<Frame> := [];
    var batch: seq<Entry> := [];
    for i := 0 to |packets|
      invariant allFrames == Demuxed(packets[..i], stream, startMs)
      invariant Halfway(progress.batches, batch, allFrames, fpsNum, fpsDen)
      invariant fi.index == old(fi.index) && fi.inProgress == old(fi.inProgress)
    {
      assert packets[..i+1][..i] == packets[..i];
      if packets[i].stream != stream { continue; }
      var f := FrameOf(packets[i], startMs);
      OneMoreFrame(progress.batches, batch, allFrames, fpsNum, fpsDen, f);
      batch := batch + [Entry(|allFrames|, f.ms, f.key)];
      allFrames := allFrames + [f];
      if |batch| >= BATCH_SIZE {
        progress.Push(Batch(batch));
        batch := [];
      }
    }
    assert packets[..|packets|] == packets;
    LastBatch(progress.batches, batch, FrameIndex(allFrames, fpsNum, fpsDen));
    if batch != [] { progress.Push(Batch(batch)); }
    fi.PutIfAbsent(path, FrameIndex(allFrames, fpsNum, fpsDen));
    progress.Push(Done);
    progress.Finish();
    fi.RemoveProgress(path);
  }

  /** The cached branch sends the same stream. */
  method SendCached(idx: FrameIndex) returns (sent: seq<Msg>)
    ensures sent == Messages(idx)
  {
    var entries := Entries(idx.frames);
    sent := [Fps(idx.fpsNum, idx.fpsDen)];
    var i := 0;
    assert entries[0..] == entries;
    while i < |entries|
      invariant 0 <= i <= |entries|
      invariant sent + Batches(Chunks(entries[i..])) == [Fps(idx.fpsNum, idx.fpsDen)] + Batches(Chunks(entries))
    {
      var n := if i + BATCH_SIZE < |entries| then i + BATCH_SIZE else |entries|;
      NextChunk(entries, i, n);
      sent := sent + [Batch(entries[i..n])];
      i := n;
    }
    assert Chunks(entries[i..]) == [];
    sent := sent + [Done];
  }

  lemma NextChunk(entries: seq<Entry>, i: nat, n: nat)
    requires i < |entries| && n == if i + BATCH_SIZE < |entries| then i + BATCH_SIZE else |entries|
    ensures Batches(Chunks(entries[i..])) == [Batch(entries[i..n])] + Batches(Chunks(entries[n..]))
  {
    var s := entries[i..];
    if i + BATCH_SIZE < |entries| {
      assert s[..BATCH_SIZE] == entries[i..n] && s[BATCH_SIZE..] == entries[n..];
    } else {
      assert s == entries[i..n] && Chunks(s) == [s] && Chunks(entries[n..]) == [];
    }
  }
}
