/** The on-disk frame cache (disk_cache.rs): its calls one at a time. CacheThreads has the same cache
    under several threads.

    A path is an item directory and a frame; CacheNames.FileNamesAreDistinct makes that the same as a path of names.
    What the clock, the video's modification time and the file system answer are parameters.
 */
module DiskCache {
  import opened CacheNames
  import opened CacheIndex
  import opened Images

  type Bytes = s: seq<U8> | |s| <= U64_MAX witness []

  datatype Path = Path(item: string, frame: Frame)

  function PathOf(k: Key, frameIdx: I64): Path { Path(k.item, Frame(frameIdx, k.posMs, k.width)) }
  function EntryPath(k: Key, e: Entry): Path { PathOf(k, e.frameIdx) }

  /** The index and the files under the cache directory. */
  datatype Cache = Cache(idx: Index, files: map<Path, Bytes>)

  const CAP_BYTES := 512 * 1024 * 1024
  const TARGET_BYTES := CAP_BYTES / 4 * 3

  function SatSub(a: nat, b: nat): nat { if a < b then 0 else a - b }

  // ---- the locked sections and the file operations between them ----

  function Drop(idx: Index, k: Key): Index {
    if k in idx.entries then Index(idx.entries - {k}, SatSub(idx.total, idx.entries[k].size)) else idx
  }

  function StaleKeys(idx: Index, item: string, now: U64): set<Key> {
    set k | k in idx.entries && k.item == item && idx.entries[k].videoMtime != now
  }

  function Restrict(entries: map<Key, Entry>, keys: set<Key>): map<Key, Entry> {
    map k | k in entries && k in keys :: entries[k]
  }

  /** The files of `keys`, except those the file system refuses to remove. */
  function RemovedFiles(entries: map<Key, Entry>, keys: set<Key>, stuck: set<Path>): set<Path> {
    (set k | k in entries && k in keys :: EntryPath(k, entries[k])) - stuck
  }

  /** Forget the keys and remove their files. */
  ghost function Forget(c: Cache, keys: set<Key>, stuck: set<Path>): Cache {
    Cache(Index(c.idx.entries - keys, SatSub(c.idx.total, SizeSum(Restrict(c.idx.entries, keys)))),
          c.files - RemovedFiles(c.idx.entries, keys, stuck))
  }

  /** First section of read: a stale entry takes all stale entries of its item with it. */
  ghost function Lookup(c: Cache, k: Key, now: U64, stuck: set<Path>): Cache {
    if k in c.idx.entries && c.idx.entries[k].videoMtime != now then Forget(c, StaleKeys(c.idx, k.item, now), stuck)
    else c
  }

  predicate IsCurrent(idx: Index, k: Key, now: U64) { k in idx.entries && idx.entries[k].videoMtime == now }

  /** First section of write: true when there is nothing to do, else the key's entry is gone. */
  predicate AlreadyThere(c: Cache, k: Key, frameIdx: I64, now: U64) {
    IsCurrent(c.idx, k, now) && PathOf(k, frameIdx) in c.files
  }
  function Begin(c: Cache, k: Key, frameIdx: I64, now: U64): Index {
    if AlreadyThere(c, k, frameIdx, now) then c.idx else Drop(c.idx, k)
  }

  /** Second section of write. */
  function Commit(idx: Index, k: Key, e: Entry): Index { Index(idx.entries[k := e], idx.total + e.size) }

  datatype FsWrite = Written | Failed(left: Option<Bytes>)

  /** A failed write may leave anything at the path, or leave it alone. */
  function AfterFsWrite(files: map<Path, Bytes>, p: Path, data: Bytes, outcome: FsWrite): map<Path, Bytes> {
    match outcome
    case Written => files[p := data]
    case Failed(None) => files
    case Failed(Some(left)) => files[p := left]
  }

  /** Keys oldest first, as the unstable sort may leave them. */
  ghost predicate IsAgeOrder(order: seq<Key>, entries: map<Key, Entry>) {
    && IsOrderOf(order, entries)
    && forall i, j | 0 <= i < j < |order| :: entries[order[i]].writtenAt <= entries[order[j]].writtenAt
  }

  // ---- cleanup ----

  /** Removing a file succeeds when it is there and nothing keeps it. */
  predicate Removable(c: Cache, k: Key, stuck: set<Path>) {
    k in c.idx.entries && EntryPath(k, c.idx.entries[k]) in c.files && EntryPath(k, c.idx.entries[k]) !in stuck
  }

  function EvictOne(c: Cache, k: Key, stuck: set<Path>): Cache {
    if Removable(c, k, stuck) then Cache(Drop(c.idx, k), c.files - {EntryPath(k, c.idx.entries[k])}) else c
  }

  function EvictUntil(c: Cache, order: seq<Key>, target: nat, stuck: set<Path>): Cache
    decreases |order|
  {
    if order == [] || c.idx.total <= target then c
    else EvictUntil(EvictOne(c, order[0], stuck), order[1..], target, stuck)
  }

  // ---- whole calls ----

  function ReadFile(c: Cache, k: Key, now: U64, unreadable: set<Path>): Option<Bytes> {
    if !IsCurrent(c.idx, k, now) then None
    else
      var p := EntryPath(k, c.idx.entries[k]);
      if p in c.files && p !in unreadable then Some(c.files[p]) else None
  }

  ghost function AfterRead(c: Cache, k: Key, now: U64, stuck: set<Path>, unreadable: set<Path>): Cache {
    if IsCurrent(c.idx, k, now) && ReadFile(c, k, now, unreadable).None? then Cache(Drop(c.idx, k), c.files)
    else Lookup(c, k, now, stuck)
  }

  /** What a write call is given and what it meets: the modification time as read before and after the file was
      written. */
  datatype WriteArgs = WriteArgs(k: Key, frameIdx: I64, data: Bytes, before: U64, after: U64, ts: U64, outcome: FsWrite)

  function NewEntry(w: WriteArgs): Entry { Entry(w.frameIdx, |w.data|, w.ts, w.after) }

  predicate Stores(c: Cache, w: WriteArgs) { !AlreadyThere(c, w.k, w.frameIdx, w.before) && w.outcome.Written? }

  /** The cache after a write, before any cleanup. */
  function AfterWrite(c: Cache, w: WriteArgs): Cache {
    if AlreadyThere(c, w.k, w.frameIdx, w.before) then c
    else
      var idx := Begin(c, w.k, w.frameIdx, w.before);
      var files := AfterFsWrite(c.files, PathOf(w.k, w.frameIdx), w.data, w.outcome);
      Cache(if w.outcome.Written? then Commit(idx, w.k, NewEntry(w)) else idx, files)
  }

  predicate NeedsCleanup(c: Cache, w: WriteArgs) { Stores(c, w) && AfterWrite(c, w).idx.total > CAP_BYTES }

  function Cleaned(c: Cache, order: seq<Key>, stuck: set<Path>): Cache {
    if c.idx.total <= TARGET_BYTES then c else EvictUntil(c, order, TARGET_BYTES, stuck)
  }

  lemma RestrictPlus(entries: map<Key, Entry>, keys: set<Key>, k: Key)
    requires k in entries && k !in keys
    ensures SizeSum(Restrict(entries, keys + {k})) == SizeSum(Restrict(entries, keys)) + entries[k].size
  {
    SizeSumWithout(Restrict(entries, keys + {k}), k);
    assert Restrict(entries, keys + {k}) - {k} == Restrict(entries, keys);
  }

  lemma ForgetNothing(c: Cache, stuck: set<Path>)
    ensures Forget(c, {}, stuck) == c
  {
    assert Restrict(c.idx.entries, {}) == map[];
    assert c.idx.entries - {} == c.idx.entries;
    assert RemovedFiles(c.idx.entries, {}, stuck) == {};
    assert c.files - {} == c.files;
  }

  /** One round of the sweep. */
  lemma ForgetOneMore(c: Cache, keys: set<Key>, k: Key, stuck: set<Path>)
    requires k in c.idx.entries && k !in keys
    ensures var f, g := Forget(c, keys, stuck), Forget(c, keys + {k}, stuck);
            var p := EntryPath(k, c.idx.entries[k]);
            && k in f.idx.entries && f.idx.entries[k] == c.idx.entries[k]
            && g.idx == Drop(f.idx, k)
            && g.files == if p in stuck then f.files else f.files - {p}
  {
    var f, g := Forget(c, keys, stuck), Forget(c, keys + {k}, stuck);
    var p := EntryPath(k, c.idx.entries[k]);
    RestrictPlus(c.idx.entries, keys, k);
    assert g.idx.entries == f.idx.entries - {k};
    var more := RemovedFiles(c.idx.entries, keys + {k}, stuck);
    assert more == RemovedFiles(c.idx.entries, keys, stuck) + ({p} - stuck);
    assert g.files == c.files - RemovedFiles(c.idx.entries, keys, stuck) - ({p} - stuck);
  }

  /** The cache as the daemon holds it. `files` stands for the directory, which outlives the object. */
  class DiskCache {
    var entries: map<Key, Entry>
    var total: nat
    var files: map<Path, Bytes>

    ghost function State(): Cache
      reads this
    {
      Cache(Index(entries, total), files)
    }

    constructor (idx: Index, files: map<Path, Bytes>)
      ensures State() == Cache(idx, files)
    {
      entries, total, this.files := idx.entries, idx.total, files;
    }

    method RemoveEntry(k: Key)
      requires k in entries
      modifies this`entries, this`total
      ensures State() == Cache(Drop(old(State()).idx, k), old(files))
    {
      total := SatSub(total, entries[k].size);
      entries := entries - {k};
    }

    method Sweep(item: string, now: U64, stuck: set<Path>)
      modifies this
      ensures State() == Forget(old(State()), StaleKeys(old(State()).idx, item, now), stuck)
    {
      ghost var c := State();
      var stale := set k | k in entries && k.item == item && entries[k].videoMtime != now;
      ghost var all := stale;
      ForgetNothing(c, stuck);
      while stale != {}
        invariant stale <= all == StaleKeys(c.idx, item, now)
        invariant State() == Forget(c, all - stale, stuck)
        decreases stale
      {
        var k :| k in stale;
        ForgetOneMore(c, all - stale, k, stuck);
        assert all - (stale - {k}) == (all - stale) + {k};
        var p := EntryPath(k, entries[k]);
        RemoveEntry(k);
        if p !in stuck { files := files - {p}; }
        stale := stale - {k};
      }
      assert all - {} == all;
    }

    /** `now` is the video's modification time; the two sets are the files that cannot be removed or read just now. */
    method Read(k: Key, now: U64, stuck: set<Path>, unreadable: set<Path>) returns (data: Option<Bytes>)
      modifies this
      ensures State() == AfterRead(old(State()), k, now, stuck, unreadable)
      ensures data == ReadFile(old(State()), k, now, unreadable)
    {
      if k !in entries { return None; }
      var e := entries[k];
      if e.videoMtime != now {
        Sweep(k.item, now, stuck);
        return None;
      }
      var p := EntryPath(k, e);
      if p in files && p !in unreadable {
        data := Some(files[p]);
      } else {
        if k in entries { RemoveEntry(k); }
        data := None;
      }
    }

    method Exists(k: Key, now: U64) returns (there: bool)
      ensures there <==> ReadFile(State(), k, now, {}).Some?
    {
      there := k in entries && entries[k].videoMtime == now && EntryPath(k, entries[k]) in files;
    }

    method Write(w: WriteArgs, order: seq<Key>, stuck: set<Path>) returns (ok: bool)
      requires NeedsCleanup(State(), w) ==> IsAgeOrder(order, AfterWrite(State(), w).idx.entries)
      modifies this
      ensures State() ==
              var after := AfterWrite(old(State()), w);
              if NeedsCleanup(old(State()), w) then Cleaned(after, order, stuck) else after
      ensures ok <==> AlreadyThere(old(State()), w.k, w.frameIdx, w.before) || w.outcome.Written?
    {
      var p := PathOf(w.k, w.frameIdx);
      if w.k in entries {
        if entries[w.k].videoMtime == w.before && p in files { return true; }
        RemoveEntry(w.k);
      }
      match w.outcome
      case Failed(left) =>
        if left.Some? { files := files[p := left.value]; }
        return false;
      case Written =>
        files := files[p := w.data];
        entries := entries[w.k := NewEntry(w)];
        total := total + |w.data|;
        if total > CAP_BYTES { Cleanup(order, stuck); }
        return true;
    }

    method Cleanup(order: seq<Key>, stuck: set<Path>)
      requires IsAgeOrder(order, entries)
      modifies this
      ensures State() == Cleaned(old(State()), order, stuck)
    {
      if total <= TARGET_BYTES { return; }
      ghost var goal := EvictUntil(State(), order, TARGET_BYTES, stuck);
      assert order[0..] == order;
      for i := 0 to |order|
        invariant EvictUntil(State(), order[i..], TARGET_BYTES, stuck) == goal
      {
        if total <= TARGET_BYTES { break; }
        var k := order[i];
        assert order[i..][0] == k && order[i..][1..] == order[i+1..];
        if k !in entries { continue; }
        var p := EntryPath(k, entries[k]);
        if p in files && p !in stuck {
          files := files - {p};
          RemoveEntry(k);
        }
      }
    }
  }

  // ---- reads agree with a simple map ----

  /** What the last write that stored anything under a key stored, and the video time it recorded. */
  datatype Stored = Stored(bytes: Bytes, mtime: U64)

  ghost predicate AgreesAt(c: Cache, stored: map<Key, Stored>, k: Key)
    requires k in c.idx.entries
  {
    var e := c.idx.entries[k];
    k in stored && stored[k].mtime == e.videoMtime
      && (EntryPath(k, e) in c.files ==> c.files[EntryPath(k, e)] == stored[k].bytes)
  }

  ghost predicate Agrees(c: Cache, stored: map<Key, Stored>) { forall k | k in c.idx.entries :: AgreesAt(c, stored, k) }

  /** A call, or files vanishing behind the cache's back. */
  datatype Call =
    | Reading(k: Key, now: U64, stuck: set<Path>, unreadable: set<Path>)
    | Writing(w: WriteArgs, order: seq<Key>, stuckAtCleanup: set<Path>)
    | Losing(gone: set<Path>)

  ghost function After(c: Cache, call: Call): Cache {
    match call
    case Reading(k, now, stuck, unreadable) => AfterRead(c, k, now, stuck, unreadable)
    case Writing(w, order, stuck) =>
      if NeedsCleanup(c, w) then Cleaned(AfterWrite(c, w), order, stuck) else AfterWrite(c, w)
    case Losing(gone) => Cache(c.idx, c.files - gone)
  }

  function StoredAfter(c: Cache, stored: map<Key, Stored>, call: Call): map<Key, Stored> {
    if call.Writing? && Stores(c, call.w) then stored[call.w.k := Stored(call.w.data, call.w.after)] else stored
  }

  ghost function Run(c: Cache, calls: seq<Call>): Cache {
    if calls == [] then c else After(Run(c, calls[..|calls|-1]), calls[|calls|-1])
  }

  /** The simple map: every storing write of the run, applied in turn. */
  ghost function StoredBy(c: Cache, calls: seq<Call>): map<Key, Stored> {
    if calls == [] then map[]
    else StoredAfter(Run(c, calls[..|calls|-1]), StoredBy(c, calls[..|calls|-1]), calls[|calls|-1])
  }

  /** d has no entry and no file that c has not. */
  ghost predicate Shrinks(c: Cache, d: Cache) {
    && (forall k | k in d.idx.entries :: k in c.idx.entries && d.idx.entries[k] == c.idx.entries[k])
    && (forall p | p in d.files :: p in c.files && d.files[p] == c.files[p])
  }

  lemma {:induction false} EvictionShrinks(c: Cache, order: seq<Key>, target: nat, stuck: set<Path>)
    ensures Shrinks(c, EvictUntil(c, order, target, stuck))
    decreases |order|
  {
    if !(order == [] || c.idx.total <= target) {
      EvictionShrinks(EvictOne(c, order[0], stuck), order[1..], target, stuck);
    }
  }

  lemma ShrinkingAgrees(c: Cache, d: Cache, stored: map<Key, Stored>)
    requires Agrees(c, stored) && Shrinks(c, d)
    ensures Agrees(d, stored)
  {
    forall k | k in d.idx.entries
      ensures AgreesAt(d, stored, k)
    {
      assert AgreesAt(c, stored, k);
    }
  }

  lemma WriteAgrees(c: Cache, stored: map<Key, Stored>, w: WriteArgs)
    requires Agrees(c, stored)
    ensures Agrees(AfterWrite(c, w), if Stores(c, w) then stored[w.k := Stored(w.data, w.after)] else stored)
  {
    var d := AfterWrite(c, w);
    var after := if Stores(c, w) then stored[w.k := Stored(w.data, w.after)] else stored;
    forall k | k in d.idx.entries
      ensures AgreesAt(d, after, k)
    {
      if k in c.idx.entries { assert AgreesAt(c, stored, k); }
    }
  }

  lemma CallAgrees(c: Cache, stored: map<Key, Stored>, call: Call)
    requires Agrees(c, stored)
    ensures Agrees(After(c, call), StoredAfter(c, stored, call))
  {
    match call
    case Reading(k, now, stuck, unreadable) => ShrinkingAgrees(c, After(c, call), stored);
    case Losing(gone) => ShrinkingAgrees(c, After(c, call), stored);
    case Writing(w, order, stuck) =>
      WriteAgrees(c, stored, w);
      if NeedsCleanup(c, w) {
        EvictionShrinks(AfterWrite(c, w), order, TARGET_BYTES, stuck);
        ShrinkingAgrees(AfterWrite(c, w), After(c, call), StoredAfter(c, stored, call));
      }
  }

  lemma {:induction false} RunAgrees(files: map<Path, Bytes>, calls: seq<Call>)
    ensures Agrees(Run(Cache(Index(map[], 0), files), calls), StoredBy(Cache(Index(map[], 0), files), calls))
  {
    if calls != [] {
      var c, front := Cache(Index(map[], 0), files), calls[..|calls|-1];
      RunAgrees(files, front);
      CallAgrees(Run(c, front), StoredBy(c, front), calls[|calls|-1]);
    }
  }

  /** Whatever was called before, and whatever orphans the directory held at the start: a read gives nothing,
      or exactly the bytes last stored for that item, position and width, and then only for the video as it was when
      they were stored. */
  lemma {:induction false} ReadsReturnWhatWasLastStored(files: map<Path, Bytes>, calls: seq<Call>, k: Key, now: U64,
                                                        unreadable: set<Path>)
    ensures var c := Cache(Index(map[], 0), files);
            var answer := ReadFile(Run(c, calls), k, now, unreadable);
            answer.Some? ==> k in StoredBy(c, calls) && StoredBy(c, calls)[k] == Stored(answer.value, now)
  {
    var c := Cache(Index(map[], 0), files);
    RunAgrees(files, calls);
    if ReadFile(Run(c, calls), k, now, unreadable).Some? {
      assert AgreesAt(Run(c, calls), StoredBy(c, calls), k);
    }
  }

  /** An index printed from a cache that agrees with the map, and loaded when some of its files are gone, still agrees
      with it. */
  lemma RestartAgrees(c: Cache, stored: map<Key, Stored>, order: seq<Key>, gone: set<Path>)
    requires Agrees(c, stored) && IsOrderOf(order, c.idx.entries) && c.idx.total <= U64_MAX
    requires forall k | k in c.idx.entries :: IsWord(k.item)
    ensures var left := c.files - gone;
            var idx := Loaded(Printed(c.idx, order), (item, frame) => Path(item, frame) in left);
            idx.Some? && Agrees(Cache(idx.value, left), stored)
  {
    var left := c.files - gone;
    IndexRoundTrip(c.idx, order, (item, frame) => Path(item, frame) in left);
    var idx := Loaded(Printed(c.idx, order), (item, frame) => Path(item, frame) in left).value;
    ShrinkingAgrees(c, Cache(idx, left), stored);
  }

  /** After a rebuild an entry is current for exactly those videos whose modification time reads as 0. */
  lemma RebuiltIsCurrentIff(dirs: Option<seq<Dir>>, k: Key, now: U64)
    requires k in Rebuilt(dirs).entries
    ensures IsCurrent(Rebuilt(dirs), k, now) <==> now == 0
  {
    RebuiltEntriesHaveNoVideoTime(dirs, k);
  }

  /** So a restart that rebuilds agrees with any map too, for every video whose time can be read: nothing is read
      until it is written again, and the first read of an item sweeps all that was rebuilt for it. */
  lemma RebuiltReadsNothing(dirs: Option<seq<Dir>>, files: map<Path, Bytes>, k: Key, now: U64, unreadable: set<Path>)
    requires now != 0
    ensures ReadFile(Cache(Rebuilt(dirs), files), k, now, unreadable).None?
    ensures k in Rebuilt(dirs).entries ==>
              var after := AfterRead(Cache(Rebuilt(dirs), files), k, now, {}, unreadable);
              forall l | l in after.idx.entries :: l.item != k.item
  {
    var c := Cache(Rebuilt(dirs), files);
    if k in c.idx.entries {
      RebuiltIsCurrentIff(dirs, k, now);
      var after := AfterRead(c, k, now, {}, unreadable);
      forall l | l in after.idx.entries
        ensures l.item != k.item
      {
        RebuiltIsCurrentIff(dirs, l, now);
      }
    }
  }

  // ---- what cleanup evicts ----

  /** The keys among the first m of the order whose files can be removed. */
  ghost function Evictable(c: Cache, order: seq<Key>, m: nat, stuck: set<Path>): set<Key>
    requires m <= |order|
  {
    set i | 0 <= i < m && Removable(c, order[i], stuck) :: order[i]
  }

  ghost function EvictedFirst(c: Cache, order: seq<Key>, m: nat, stuck: set<Path>): Cache
    requires m <= |order|
  {
    Forget(c, Evictable(c, order, m, stuck), stuck)
  }

  lemma EvictedOneMore(c: Cache, order: seq<Key>, m: nat, stuck: set<Path>)
    requires IsOrderOf(order, c.idx.entries) && m < |order|
    ensures EvictedFirst(c, order, m + 1, stuck) == EvictOne(EvictedFirst(c, order, m, stuck), order[m], stuck)
  {
    var k, keys := order[m], Evictable(c, order, m, stuck);
    assert k in order;
    var d := EvictedFirst(c, order, m, stuck);
    assert k !in keys;
    assert k in d.idx.entries && d.idx.entries[k] == c.idx.entries[k];
    var p := EntryPath(k, c.idx.entries[k]);
    assert p !in RemovedFiles(c.idx.entries, keys, stuck);
    assert Removable(d, k, stuck) <==> Removable(c, k, stuck);
    if Removable(c, k, stuck) {
      assert Evictable(c, order, m + 1, stuck) == keys + {k};
      ForgetOneMore(c, keys, k, stuck);
    } else {
      assert Evictable(c, order, m + 1, stuck) == keys;
    }
  }

  lemma {:induction false} EvictionUnrolls(d: Cache, order: seq<Key>, i: nat, target: nat, stuck: set<Path>)
    requires i <= |order|
    ensures i == |order| || d.idx.total <= target ==> EvictUntil(d, order[i..], target, stuck) == d
    ensures i < |order| && d.idx.total > target ==>
              EvictUntil(d, order[i..], target, stuck) ==
                EvictUntil(EvictOne(d, order[i], stuck), order[i+1..], target, stuck)
  {
    if i < |order| { assert order[i..][0] == order[i] && order[i..][1..] == order[i+1..]; }
  }

  ghost predicate AreStages(stages: seq<Cache>, order: seq<Key>, stuck: set<Path>) {
    && |stages| == |order| + 1
    && forall i | 0 <= i < |order| :: StageFollows(stages, order, stuck, i)
  }

  ghost predicate StageFollows(stages: seq<Cache>, order: seq<Key>, stuck: set<Path>, i: nat)
    requires |stages| == |order| + 1 && i < |order|
  {
    stages[i+1] == EvictOne(stages[i], order[i], stuck)
  }

  lemma {:induction false} EvictionStops(stages: seq<Cache>, order: seq<Key>, i: nat, target: nat, stuck: set<Path>)
    returns (m: nat)
    requires AreStages(stages, order, stuck) && i <= |order|
    ensures i <= m <= |order|
    ensures EvictUntil(stages[i], order[i..], target, stuck) == stages[m]
    ensures forall j | i <= j < m :: stages[j].idx.total > target
    ensures m == |order| || stages[m].idx.total <= target
    decreases |order| - i
  {
    EvictionUnrolls(stages[i], order, i, target, stuck);
    if i == |order| || stages[i].idx.total <= target {
      m := i;
    } else {
      assert StageFollows(stages, order, stuck, i);
      m := EvictionStops(stages, order, i + 1, target, stuck);
    }
  }

  ghost function Stages(c: Cache, order: seq<Key>, stuck: set<Path>): (stages: seq<Cache>)
    ensures |stages| == |order| + 1 && forall i | 0 <= i < |stages| :: stages[i] == EvictedFirst(c, order, i, stuck)
  {
    seq(|order| + 1, i requires 0 <= i <= |order| => EvictedFirst(c, order, i, stuck))
  }

  lemma NothingEvicted(c: Cache, order: seq<Key>, stuck: set<Path>)
    ensures EvictedFirst(c, order, 0, stuck) == c
  {
    assert Evictable(c, order, 0, stuck) == {};
    ForgetNothing(c, stuck);
  }

  lemma StageStep(c: Cache, order: seq<Key>, stuck: set<Path>, stages: seq<Cache>, i: nat)
    requires IsOrderOf(order, c.idx.entries) && i < |order| && stages == Stages(c, order, stuck)
    ensures StageFollows(stages, order, stuck, i)
  {
    EvictedOneMore(c, order, i, stuck);
  }

  lemma StagesAreStages(c: Cache, order: seq<Key>, stuck: set<Path>)
    requires IsOrderOf(order, c.idx.entries)
    ensures AreStages(Stages(c, order, stuck), order, stuck)
  {
    var stages := Stages(c, order, stuck);
    forall i | 0 <= i < |order|
      ensures StageFollows(stages, order, stuck, i)
    {
      StageStep(c, order, stuck, stages, i);
    }
  }

  /** Cleanup evicts, oldest first, the shortest prefix of the order that brings the total to the target
      (skipping files that cannot be removed), or everything removable. */
  lemma CleanupEvictsTheOldest(c: Cache, order: seq<Key>, stuck: set<Path>) returns (m: nat)
    requires IsOrderOf(order, c.idx.entries)
    ensures m <= |order| && Cleaned(c, order, stuck) == EvictedFirst(c, order, m, stuck)
    ensures forall j | 0 <= j < m :: EvictedFirst(c, order, j, stuck).idx.total > TARGET_BYTES
    ensures m == |order| || Cleaned(c, order, stuck).idx.total <= TARGET_BYTES
  {
    var stages := Stages(c, order, stuck);
    StagesAreStages(c, order, stuck);
    NothingEvicted(c, order, stuck);
    assert order[0..] == order;
    m := EvictionStops(stages, order, 0, TARGET_BYTES, stuck);
    EvictionUnrolls(c, order, 0, TARGET_BYTES, stuck);
    forall j | 0 <= j < m
      ensures EvictedFirst(c, order, j, stuck).idx.total > TARGET_BYTES
    {
      assert stages[j].idx.total > TARGET_BYTES;
    }
  }

  /** Whatever survives a cleanup is at least as new as whatever it evicted, unless its file could not be removed. */
  lemma SurvivorsAreNewer(c: Cache, order: seq<Key>, stuck: set<Path>, gone: Key, kept: Key)
    requires IsAgeOrder(order, c.idx.entries)
    requires gone in c.idx.entries && gone !in Cleaned(c, order, stuck).idx.entries
    requires kept in Cleaned(c, order, stuck).idx.entries && Removable(c, kept, stuck)
    ensures kept in c.idx.entries && c.idx.entries[gone].writtenAt <= c.idx.entries[kept].writtenAt
  {
    var m := CleanupEvictsTheOldest(c, order, stuck);
    assert gone in Evictable(c, order, m, stuck) && kept !in Evictable(c, order, m, stuck);
    var i :| 0 <= i < m && order[i] == gone;
    assert kept in order;
    var j :| 0 <= j < |order| && order[j] == kept;
    assert m <= j;
  }

  // ---- byte accounting ----

  lemma DropKeepsSlack(idx: Index, k: Key)
    requires Slack(idx) >= 0
    ensures Slack(Drop(idx, k)) == Slack(idx)
  {
    if k in idx.entries { SizeSumWithout(idx.entries, k); }
  }

  lemma CommitSlack(idx: Index, k: Key, e: Entry)
    ensures Slack(Commit(idx, k, e)) == Slack(idx) + if k in idx.entries then idx.entries[k].size else 0
  {
    SizeSumWith(idx.entries, k, e);
    if k in idx.entries { SizeSumWithout(idx.entries, k); } else { assert idx.entries - {k} == idx.entries; }
  }

  lemma {:induction false} ForgetKeepsSlack(c: Cache, keys: set<Key>, stuck: set<Path>)
    requires Slack(c.idx) >= 0 && keys <= c.idx.entries.Keys
    ensures Slack(Forget(c, keys, stuck).idx) == Slack(c.idx)
    decreases keys
  {
    if keys == {} {
      ForgetNothing(c, stuck);
    } else {
      var k :| k in keys;
      ForgetKeepsSlack(c, keys - {k}, stuck);
      assert keys - {k} + {k} == keys;
      ForgetOneMore(c, keys - {k}, k, stuck);
      DropKeepsSlack(Forget(c, keys - {k}, stuck).idx, k);
    }
  }

  lemma CleanupKeepsSlack(c: Cache, order: seq<Key>, stuck: set<Path>)
    requires Slack(c.idx) >= 0 && IsOrderOf(order, c.idx.entries)
    ensures Slack(Cleaned(c, order, stuck).idx) == Slack(c.idx)
  {
    var m := CleanupEvictsTheOldest(c, order, stuck);
    ForgetKeepsSlack(c, Evictable(c, order, m, stuck), stuck);
  }

  /** When every file can be removed, a cleanup that starts from an exact total ends at the target or below. */
  lemma CleanupReachesTheTarget(c: Cache, order: seq<Key>, stuck: set<Path>)
    requires Slack(c.idx) == 0 && IsOrderOf(order, c.idx.entries)
    requires forall k | k in c.idx.entries :: Removable(c, k, stuck)
    ensures Cleaned(c, order, stuck).idx.total <= TARGET_BYTES
  {
    var m := CleanupEvictsTheOldest(c, order, stuck);
    CleanupKeepsSlack(c, order, stuck);
    if m == |order| {
      forall k | k in c.idx.entries
        ensures k in Evictable(c, order, m, stuck)
      {
        assert k in order;
      }
      assert Cleaned(c, order, stuck).idx.entries == map[];
    }
  }

  // ---- what a successful write promises ----

  ghost predicate FilesPresent(c: Cache) { forall k | k in c.idx.entries :: EntryPath(k, c.idx.entries[k]) in c.files }

  lemma {:induction false} EvictionKeepsFiles(c: Cache, order: seq<Key>, target: nat, stuck: set<Path>)
    requires FilesPresent(c)
    ensures FilesPresent(EvictUntil(c, order, target, stuck))
    decreases |order|
  {
    if !(order == [] || c.idx.total <= target) {
      EvictionKeepsFiles(EvictOne(c, order[0], stuck), order[1..], target, stuck);
    }
  }

  /** While nothing else removes files, every entry keeps its file. */
  lemma CallKeepsFiles(c: Cache, call: Call)
    requires FilesPresent(c) && !call.Losing?
    ensures FilesPresent(After(c, call))
  {
    match call
    case Reading(k, now, stuck, unreadable) =>
    case Writing(w, order, stuck) =>
      assert FilesPresent(AfterWrite(c, w));
      if NeedsCleanup(c, w) { EvictionKeepsFiles(AfterWrite(c, w), order, TARGET_BYTES, stuck); }
  }

  lemma {:induction false} RunKeepsFiles(files: map<Path, Bytes>, calls: seq<Call>)
    requires forall i | 0 <= i < |calls| :: !calls[i].Losing?
    ensures FilesPresent(Run(Cache(Index(map[], 0), files), calls))
  {
    if calls != [] {
      RunKeepsFiles(files, calls[..|calls|-1]);
      CallKeepsFiles(Run(Cache(Index(map[], 0), files), calls[..|calls|-1]), calls[|calls|-1]);
    }
  }

  lemma {:induction false} StagesFall(stages: seq<Cache>, order: seq<Key>, stuck: set<Path>, i: nat, m: nat)
    requires AreStages(stages, order, stuck) && i <= m <= |order|
    ensures stages[m].idx.total <= stages[i].idx.total
    decreases m
  {
    if i < m {
      StagesFall(stages, order, stuck, i, m - 1);
      assert StageFollows(stages, order, stuck, m - 1);
    }
  }

  /** A key that is not evicted keeps its entry and its file. */
  lemma KeptKeyKeepsItsFile(d: Cache, keys: set<Key>, stuck: set<Path>, k: Key)
    requires k in d.idx.entries && k !in keys
    ensures var after, p := Forget(d, keys, stuck), EntryPath(k, d.idx.entries[k]);
            && k in after.idx.entries && after.idx.entries[k] == d.idx.entries[k]
            && (p in d.files ==> p in after.files && after.files[p] == d.files[p])
  {
    assert EntryPath(k, d.idx.entries[k]) !in RemovedFiles(d.idx.entries, keys, stuck);
  }

  /** The file of k cannot be removed, or evicting what is older than k already reaches the target. */
  ghost predicate OutlivesCleanup(d: Cache, order: seq<Key>, stuck: set<Path>, k: Key) {
    !Removable(d, k, stuck) || exists i :: 0 <= i < |order| && order[i] == k && ReachedBefore(d, order, i, stuck)
  }

  ghost predicate ReachedBefore(d: Cache, order: seq<Key>, i: nat, stuck: set<Path>)
    requires i <= |order|
  {
    SatSub(d.idx.total, SizeSum(Restrict(d.idx.entries, Evictable(d, order, i, stuck)))) <= TARGET_BYTES
  }

  lemma EvictableIff(d: Cache, order: seq<Key>, m: nat, stuck: set<Path>, i: nat)
    requires IsOrderOf(order, d.idx.entries) && m <= |order| && i < |order|
    ensures order[i] in Evictable(d, order, m, stuck) <==> i < m && Removable(d, order[i], stuck)
  {
  }

  /** Cleanup stops before the i-th key exactly when what comes before it already reaches the target. */
  lemma StopsBefore(d: Cache, order: seq<Key>, stuck: set<Path>, i: nat, m: nat)
    requires IsOrderOf(order, d.idx.entries) && i < |order| && m <= |order|
    requires forall j | 0 <= j < m :: EvictedFirst(d, order, j, stuck).idx.total > TARGET_BYTES
    requires m == |order| || EvictedFirst(d, order, m, stuck).idx.total <= TARGET_BYTES
    ensures m <= i <==> ReachedBefore(d, order, i, stuck)
  {
    var stages := Stages(d, order, stuck);
    StagesAreStages(d, order, stuck);
    assert ReachedBefore(d, order, i, stuck) <==> EvictedFirst(d, order, i, stuck).idx.total <= TARGET_BYTES;
    if m <= i {
      StagesFall(stages, order, stuck, m, i);
      assert stages[i].idx.total <= stages[m].idx.total;
    }
  }

  lemma SurvivesCleanupIff(d: Cache, order: seq<Key>, stuck: set<Path>, k: Key)
    requires IsOrderOf(order, d.idx.entries) && k in d.idx.entries
    ensures k in Cleaned(d, order, stuck).idx.entries <==> OutlivesCleanup(d, order, stuck, k)
    ensures k in Cleaned(d, order, stuck).idx.entries ==>
              var after, p := Cleaned(d, order, stuck), EntryPath(k, d.idx.entries[k]);
              after.idx.entries[k] == d.idx.entries[k]
                && (p in d.files ==> p in after.files && after.files[p] == d.files[p])
  {
    var m := CleanupEvictsTheOldest(d, order, stuck);
    assert k in order;
    var i :| 0 <= i < |order| && order[i] == k;
    EvictableIff(d, order, m, stuck, i);
    StopsBefore(d, order, stuck, i, m);
    if k !in Evictable(d, order, m, stuck) { KeptKeyKeepsItsFile(d, Evictable(d, order, m, stuck), stuck, k); }
    OutlivesAt(d, order, stuck, i);
  }

  lemma OutlivesAt(d: Cache, order: seq<Key>, stuck: set<Path>, i: nat)
    requires IsOrderOf(order, d.idx.entries) && i < |order|
    ensures OutlivesCleanup(d, order, stuck, order[i]) <==>
              !Removable(d, order[i], stuck) || ReachedBefore(d, order, i, stuck)
  {
    forall j | 0 <= j < |order| && order[j] == order[i]
      ensures j == i
    {
    }
  }

  predicate Succeeds(c: Cache, w: WriteArgs) { AlreadyThere(c, w.k, w.frameIdx, w.before) || w.outcome.Written? }

  /** What a caller needs for `true` to mean that the frame is now in the cache: if it was already there, that the
      recorded file (perhaps for another frame index) still is; else that the write's own cleanup does not take it
      away again. */
  ghost predicate StaysReadable(c: Cache, w: WriteArgs, order: seq<Key>, stuck: set<Path>) {
    if AlreadyThere(c, w.k, w.frameIdx, w.before) then EntryPath(w.k, c.idx.entries[w.k]) in c.files
    else NeedsCleanup(c, w) ==> OutlivesCleanup(AfterWrite(c, w), order, stuck, w.k)
  }

  /** The exact condition, over the whole call, its cleanup included. */
  lemma SuccessIsReadableIff(c: Cache, w: WriteArgs, order: seq<Key>, stuck: set<Path>)
    requires Succeeds(c, w) && w.before == w.after
    requires NeedsCleanup(c, w) ==> IsOrderOf(order, AfterWrite(c, w).idx.entries)
    ensures ReadFile(After(c, Writing(w, order, stuck)), w.k, w.after, {}).Some? <==> StaysReadable(c, w, order, stuck)
  {
    if NeedsCleanup(c, w) { SurvivesCleanupIff(AfterWrite(c, w), order, stuck, w.k); }
  }

  /** What a caller can see beforehand: a write that fits under the cap never cleans up. */
  lemma FittingWritesAreReadable(c: Cache, w: WriteArgs, order: seq<Key>, stuck: set<Path>)
    requires Stores(c, w) && w.before == w.after && c.idx.total + |w.data| <= CAP_BYTES
    ensures ReadFile(After(c, Writing(w, order, stuck)), w.k, w.after, {}) == Some(w.data)
  {
  }

  /** While nothing else removes files, only the write's own cleanup can make `true` mean anything but readable. */
  lemma {:induction false} SuccessIsReadable(files: map<Path, Bytes>, calls: seq<Call>, w: WriteArgs, order: seq<Key>,
                                             stuck: set<Path>)
    requires forall i | 0 <= i < |calls| :: !calls[i].Losing?
    requires var c := Run(Cache(Index(map[], 0), files), calls);
             Succeeds(c, w) && (NeedsCleanup(c, w) ==> IsOrderOf(order, AfterWrite(c, w).idx.entries))
    requires w.before == w.after
    ensures var c := Run(Cache(Index(map[], 0), files), calls);
            ReadFile(After(c, Writing(w, order, stuck)), w.k, w.after, {}).Some?
            <==> (NeedsCleanup(c, w) ==> OutlivesCleanup(AfterWrite(c, w), order, stuck, w.k))
  {
    var c := Run(Cache(Index(map[], 0), files), calls);
    RunKeepsFiles(files, calls);
    SuccessIsReadableIff(c, w, order, stuck);
  }

  const Empty := Cache(Index(map[], 0), map[])

  /** The check looks for the file of the frame index it was given, not of the one recorded. Two writes for two frame
      indices and one lost file later, a third write succeeds and nothing can be read. */
  lemma SuccessMayBeUnreadable(k: Key, data: Bytes) returns (calls: seq<Call>, w: WriteArgs)
    requires |data| <= CAP_BYTES / 2
    ensures var c := Run(Empty, calls);
            && Succeeds(c, w) && w.k == k && w.before == w.after
            && !NeedsCleanup(c, w) && ReadFile(After(c, Writing(w, [], {})), k, w.after, {}).None?
  {
    var first, second := WriteArgs(k, 2, data, 0, 0, 0, Written), WriteArgs(k, 1, data, 1, 1, 0, Written);
    w := WriteArgs(k, 2, data, 1, 1, 0, Written);
    calls := [Writing(first, [], {}), Writing(second, [], {}), Losing({PathOf(k, 1)})];
    RunSnoc(Empty, [], calls[0]);
    RunSnoc(Empty, [calls[0]], calls[1]);
    RunSnoc(Empty, [calls[0], calls[1]], calls[2]);
    assert [calls[0]] + [calls[1]] == [calls[0], calls[1]] && [calls[0], calls[1]] + [calls[2]] == calls;
    var c1, c2 := After(Empty, calls[0]), After(After(Empty, calls[0]), calls[1]);
    assert c1.idx == Index(map[k := Entry(2, |data|, 0, 0)], |data|);
    assert c2.idx.entries[k] == Entry(1, |data|, 0, 1) && PathOf(k, 2) in c2.files;
    assert PathOf(k, 1) != PathOf(k, 2);
  }

  lemma {:induction false} RunSnoc(c: Cache, calls: seq<Call>, call: Call)
    ensures Run(c, calls + [call]) == After(Run(c, calls), call)
    ensures calls == [] ==> Run(c, calls) == c && calls + [call] == [call]
  {
    assert (calls + [call])[..|calls|] == calls;
  }

  /** A frame written with an earlier clock than what fills the cache is the first its own write's cleanup evicts. */
  lemma StoredFrameMayBeEvicted(k: Key, full: Key) returns (calls: seq<Call>, w: WriteArgs, order: seq<Key>)
    requires k != full
    ensures var c := Run(Empty, calls);
            && Stores(c, w) && w.k == k && w.before == w.after && IsAgeOrder(order, AfterWrite(c, w).idx.entries)
            && ReadFile(After(c, Writing(w, order, {})), k, w.after, {}).None?
  {
    var big: Bytes := seq(CAP_BYTES, _ => 0);
    var first := WriteArgs(full, 0, big, 7, 7, 10, Written);
    w, order := WriteArgs(k, 0, [0], 7, 7, 9, Written), [k, full];
    calls := [Writing(first, [], {})];
    RunSnoc(Empty, [], calls[0]);
    var c := After(Empty, calls[0]);
    assert c.idx == Index(map[full := Entry(0, CAP_BYTES, 10, 7)], CAP_BYTES);
    var d := AfterWrite(c, w);
    assert d.idx == Index(map[full := Entry(0, CAP_BYTES, 10, 7), k := Entry(0, 1, 9, 7)], CAP_BYTES + 1);
    assert Removable(d, k, {});
    assert Evictable(d, order, 0, {}) == {};
    assert Restrict(d.idx.entries, {}) == map[];
    OutlivesAt(d, order, {}, 0);
    SuccessIsReadableIff(c, w, order, {});
  }

  lemma OneByteOverTheCap(k: Key, c: Cache, w: WriteArgs)
    requires c == Cache(Index(map[], CAP_BYTES), map[]) && w == WriteArgs(k, 0, [0], 7, 7, 10, Written)
    ensures Stores(c, w) && IsAgeOrder([k], AfterWrite(c, w).idx.entries)
    ensures ReadFile(After(c, Writing(w, [k], {})), k, w.after, {}).None?
  {
    var d := AfterWrite(c, w);
    assert d.idx == Index(map[k := Entry(0, 1, 10, 7)], CAP_BYTES + 1);
    assert Evictable(d, [k], 0, {}) == {};
    assert Restrict(d.idx.entries, {}) == map[];
    OutlivesAt(d, [k], {}, 0);
    SuccessIsReadableIff(c, w, [k], {});
  }

  /** So is one written after a restart that found the files gone, since the total read from the header stays. */
  lemma RestartMayLeaveNoRoom(k: Key, lost: Key, w: WriteArgs) returns (idx: Index, c: Cache)
    requires IsWord(lost.item) && w == WriteArgs(k, 0, [0], 7, 7, 10, Written)
    ensures Slack(idx) == 0 && lost in idx.entries
    ensures Loaded(Printed(idx, [lost]), (_, _) => false) == Some(c.idx) && c.files == map[]
    ensures Stores(c, w) && IsAgeOrder([k], AfterWrite(c, w).idx.entries)
    ensures ReadFile(After(c, Writing(w, [k], {})), k, w.after, {}).None?
  {
    idx := Index(map[lost := Entry(0, CAP_BYTES, 10, 7)], CAP_BYTES);
    SizeSumWithout(idx.entries, lost);
    assert idx.entries - {lost} == map[];
    IndexRoundTrip(idx, [lost], (_, _) => false);
    c := Cache(Index(map[], CAP_BYTES), map[]);
    OneByteOverTheCap(k, c, w);
  }
}
