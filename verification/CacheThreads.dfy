/** The disk cache under several threads (disk_cache.rs): each step is one locked section, one file operation between
    two sections, or files vanishing behind the cache's back. */
module CacheThreads {
  import opened CacheNames
  import opened CacheIndex
  import opened DiskCache

  /** A write between its two sections: `wrote` once its file is written,
      `overlapped` once another write to the same key has committed meanwhile. */
  datatype Pending = Pending(k: Key, frameIdx: I64, data: Bytes, wrote: bool, overlapped: bool)

  datatype Shared = Shared(cache: Cache, pending: map<nat, Pending>)

  datatype Step =
    | LookupStep(k: Key, now: U64, stuck: set<Path>)
    | DropStep(k: Key)
    | LoseStep(gone: set<Path>)
    | BeginStep(writer: nat, k: Key, frameIdx: I64, data: Bytes, now: U64)
    | PartStep(writer: nat, part: Bytes)
    | PutStep(writer: nat, outcome: FsWrite)
    | CommitStep(writer: nat, ts: U64, mtime: U64)
    | CleanupStep(order: seq<Key>, stuck: set<Path>)

  ghost predicate Enabled(s: Shared, step: Step) {
    match step
    case BeginStep(writer, _, _, _, _) => writer !in s.pending
    case PartStep(writer, part) => writer in s.pending && !s.pending[writer].wrote && part <= s.pending[writer].data
    case PutStep(writer, _) => writer in s.pending && !s.pending[writer].wrote
    case CommitStep(writer, _, _) => writer in s.pending && s.pending[writer].wrote
    case CleanupStep(order, _) => IsAgeOrder(order, s.cache.idx.entries)
    case _ => true
  }

  function TargetOf(p: Pending): Path { PathOf(p.k, p.frameIdx) }

  function Committed(p: Pending, ts: U64, mtime: U64): Entry { Entry(p.frameIdx, |p.data|, ts, mtime) }

  /** The other writes to k now overlap one that has committed. */
  function Others(pending: map<nat, Pending>, writer: nat, k: Key): map<nat, Pending> {
    map t | t in pending && t != writer :: if pending[t].k == k then pending[t].(overlapped := true) else pending[t]
  }

  ghost function Next(s: Shared, step: Step): Shared
    requires Enabled(s, step)
  {
    var Cache(idx, files) := s.cache;
    match step
    case LookupStep(k, now, stuck) => Shared(Lookup(s.cache, k, now, stuck), s.pending)
    case DropStep(k) => Shared(Cache(Drop(idx, k), files), s.pending)
    case LoseStep(gone) => Shared(Cache(idx, files - gone), s.pending)
    case BeginStep(writer, k, frameIdx, data, now) =>
      Shared(Cache(Begin(s.cache, k, frameIdx, now), files),
             if AlreadyThere(s.cache, k, frameIdx, now) then s.pending
               else s.pending[writer := Pending(k, frameIdx, data, false, false)])
    case PartStep(writer, part) => Shared(Cache(idx, files[TargetOf(s.pending[writer]) := part]), s.pending)
    case PutStep(writer, outcome) =>
      var p := s.pending[writer];
      Shared(Cache(idx, AfterFsWrite(files, TargetOf(p), p.data, outcome)),
             if outcome.Written? then s.pending[writer := p.(wrote := true)] else s.pending - {writer})
    case CommitStep(writer, ts, mtime) =>
      var p := s.pending[writer];
      Shared(Cache(Commit(idx, p.k, Committed(p, ts, mtime)), files), Others(s.pending, writer, p.k))
    case CleanupStep(order, stuck) => Shared(Cleaned(s.cache, order, stuck), s.pending)
  }

  /** A run of any threads: consecutive states are one enabled step apart. */
  ghost predicate IsHistory(states: seq<Shared>, steps: seq<Step>) {
    && |states| == |steps| + 1
    && forall i | 0 <= i < |steps| :: Follows(states, steps, i)
  }

  ghost predicate Follows(states: seq<Shared>, steps: seq<Step>, i: nat)
    requires |states| == |steps| + 1 && i < |steps|
  {
    Enabled(states[i], steps[i]) && states[i+1] == Next(states[i], steps[i])
  }

  // ---- one thread alone ----

  /** The two steps of a read, taken one after the other, leave the cache as the call does. */
  lemma ReadStepsAreTheCall(s: Shared, k: Key, now: U64, stuck: set<Path>, unreadable: set<Path>)
    ensures Enabled(s, LookupStep(k, now, stuck))
    ensures var s1 := Next(s, LookupStep(k, now, stuck));
            && Enabled(s1, DropStep(k)) && s1.pending == Next(s1, DropStep(k)).pending == s.pending
            && AfterRead(s.cache, k, now, stuck, unreadable)
            == if IsCurrent(s.cache.idx, k, now) && ReadFile(s.cache, k, now, unreadable).None?
              then Next(s1, DropStep(k)).cache else s1.cache
  {
  }

  /** So do the steps of a write, its cleanup included. */
  lemma WriteStepsAreTheCall(s: Shared, w: WriteArgs, writer: nat, order: seq<Key>, stuck: set<Path>)
    requires writer !in s.pending
    requires NeedsCleanup(s.cache, w) ==> IsAgeOrder(order, AfterWrite(s.cache, w).idx.entries)
    ensures Enabled(s, BeginStep(writer, w.k, w.frameIdx, w.data, w.before))
    ensures var s1 := Next(s, BeginStep(writer, w.k, w.frameIdx, w.data, w.before));
            if AlreadyThere(s.cache, w.k, w.frameIdx, w.before) then s1 == s && AfterWrite(s.cache, w) == s.cache
            else
              && Enabled(s1, PutStep(writer, w.outcome))
              && var s2 := Next(s1, PutStep(writer, w.outcome));
                if !w.outcome.Written? then s2 == Shared(AfterWrite(s.cache, w), s.pending)
                else
                  && Enabled(s2, CommitStep(writer, w.ts, w.after))
                  && var s3 := Next(s2, CommitStep(writer, w.ts, w.after));
                    && s3.cache == AfterWrite(s.cache, w) && s3.pending.Keys == s.pending.Keys
                    && (NeedsCleanup(s.cache, w) ==>
                          && Enabled(s3, CleanupStep(order, stuck))
                          && Next(s3, CleanupStep(order, stuck))
                          == Shared(Cleaned(AfterWrite(s.cache, w), order, stuck), s3.pending))
  {
  }

  // ---- byte accounting ----

  ghost predicate Inv(s: Shared) {
    && Slack(s.cache.idx) >= 0
    && forall t | t in s.pending && !s.pending[t].overlapped :: s.pending[t].k !in s.cache.idx.entries
  }

  /** What a step adds to the slack: only a commit over an entry that another commit put there meanwhile. */
  ghost function Displaced(s: Shared, step: Step): nat
    requires Enabled(s, step)
  {
    if step.CommitStep? && s.pending[step.writer].overlapped && s.pending[step.writer].k in s.cache.idx.entries
    then s.cache.idx.entries[s.pending[step.writer].k].size else 0
  }

  lemma StepKeepsInv(s: Shared, step: Step)
    requires Inv(s) && Enabled(s, step)
    ensures Inv(Next(s, step))
    ensures Slack(Next(s, step).cache.idx) == Slack(s.cache.idx) + Displaced(s, step)
  {
    match step
    case LookupStep(k, now, stuck) => ForgetKeepsSlack(s.cache, StaleKeys(s.cache.idx, k.item, now), stuck);
    case DropStep(k) => DropKeepsSlack(s.cache.idx, k);
    case LoseStep(_) =>
    case BeginStep(_, k, _, _, _) => DropKeepsSlack(s.cache.idx, k);
    case PartStep(_, _) =>
    case PutStep(_, _) =>
    case CommitStep(writer, ts, mtime) =>
      CommitSlack(s.cache.idx, s.pending[writer].k, Committed(s.pending[writer], ts, mtime));
    case CleanupStep(order, stuck) =>
      CleanupKeepsSlack(s.cache, order, stuck);
      EvictionShrinks(s.cache, order, TARGET_BYTES, stuck);
  }

  ghost function TotalDisplaced(states: seq<Shared>, steps: seq<Step>, n: nat): nat
    requires IsHistory(states, steps) && n <= |steps|
  {
    if n == 0 then 0
    else
      assert Follows(states, steps, n - 1);
      TotalDisplaced(states, steps, n - 1) + Displaced(states[n-1], steps[n-1])
  }

  /** Over every interleaving the total never under-counts, and it over-counts by exactly what overlapping
      same-key writes displaced: runs without such overlaps keep it exact. */
  lemma {:induction false} TotalNeverUndercounts(states: seq<Shared>, steps: seq<Step>, n: nat)
    requires IsHistory(states, steps) && n <= |steps| && Inv(states[0])
    ensures Inv(states[n])
    ensures states[n].cache.idx.total >= SizeSum(states[n].cache.idx.entries)
    ensures Slack(states[n].cache.idx) == Slack(states[0].cache.idx) + TotalDisplaced(states, steps, n)
  {
    if n > 0 {
      TotalNeverUndercounts(states, steps, n - 1);
      assert Follows(states, steps, n - 1);
      StepKeepsInv(states[n-1], steps[n-1]);
    }
  }

  /** Every start the constructor can make meets the invariant: an index loaded from its own text, or a rebuilt one. */
  lemma StartsNeverUndercount(idx: Index, order: seq<Key>, disk: Disk, dirs: Option<seq<Dir>>, files: map<Path, Bytes>)
    requires IsOrderOf(order, idx.entries) && idx.total <= U64_MAX && Slack(idx) >= 0
    requires forall k | k in idx.entries :: IsWord(k.item)
    ensures Loaded(Printed(idx, order), disk).Some?
            && Inv(Shared(Cache(Loaded(Printed(idx, order), disk).value, files), map[]))
    ensures Inv(Shared(Cache(Rebuilt(dirs), files), map[]))
  {
    LoadingKeepsSlack(idx, order, disk);
    RebuildingKeepsSlack(dirs);
  }

  const Start := Shared(Empty, map[])

  lemma HistorySnoc(states: seq<Shared>, steps: seq<Step>, step: Step) returns (more: seq<Shared>, longer: seq<Step>)
    requires IsHistory(states, steps) && Enabled(states[|steps|], step)
    ensures IsHistory(more, longer) && more[0] == states[0] && more[|longer|] == Next(states[|steps|], step)
  {
    more, longer := states + [Next(states[|steps|], step)], steps + [step];
    forall i | 0 <= i < |longer|
      ensures Follows(more, longer, i)
    {
      assert i < |steps| ==> Follows(states, steps, i);
    }
  }

  /** Two writers have begun and written the file before either commits. */
  lemma BothHaveWritten(k: Key, data: Bytes) returns (states: seq<Shared>, steps: seq<Step>)
    ensures IsHistory(states, steps) && states[0] == Start
    ensures states[|steps|].cache.idx == Index(map[], 0)
    ensures states[|steps|].pending == map[0 := Pending(k, 0, data, true, false), 1 := Pending(k, 0, data, true, false)]
  {
    states, steps := [Start], [];
    states, steps := HistorySnoc(states, steps, BeginStep(0, k, 0, data, 0));
    states, steps := HistorySnoc(states, steps, BeginStep(1, k, 0, data, 0));
    states, steps := HistorySnoc(states, steps, PutStep(0, Written));
    states, steps := HistorySnoc(states, steps, PutStep(1, Written));
  }

  /** Two overlapping writes to one key count its bytes twice. */
  lemma OverlapCountsTwice(k: Key, data: Bytes, ts: U64, mtime: U64) returns (states: seq<Shared>, steps: seq<Step>)
    ensures IsHistory(states, steps) && states[0] == Start
    ensures states[|steps|].cache.idx == Index(map[k := Entry(0, |data|, ts, mtime)], |data| + |data|)
  {
    states, steps := BothHaveWritten(k, data);
    states, steps := HistorySnoc(states, steps, CommitStep(0, ts, mtime));
    states, steps := HistorySnoc(states, steps, CommitStep(1, ts, mtime));
  }

  // ---- what a concurrent read can return ----

  /** A step of fs::write that leaves something at its path: part of the data, all of it, or what a failure left. */
  predicate Leaves(step: Step) { step.PartStep? || (step.PutStep? && step.outcome != Failed(None)) }

  /** Step i writes to path p. */
  ghost predicate Puts(states: seq<Shared>, steps: seq<Step>, i: nat, p: Path)
    requires IsHistory(states, steps) && i < |steps|
  {
    && Follows(states, steps, i) && Leaves(steps[i])
    && TargetOf(states[i].pending[steps[i].writer]) == p
  }

  ghost function LeftBy(s: Shared, step: Step): Bytes
    requires Enabled(s, step) && Leaves(step)
  {
    match step
    case PartStep(_, part) => part
    case PutStep(writer, Written) => s.pending[writer].data
    case PutStep(_, Failed(left)) => left.value
  }

  /** p holds what step i wrote, and nothing has written to p since. */
  ghost predicate HoldsSince(states: seq<Shared>, steps: seq<Step>, i: nat, n: nat, p: Path)
    requires IsHistory(states, steps) && i < n <= |steps| && p in states[n].cache.files
  {
    && Puts(states, steps, i, p) && states[n].cache.files[p] == LeftBy(states[i], steps[i])
    && forall j | i < j < n :: !Puts(states, steps, j, p)
  }

  ghost predicate HoldsFromStart(states: seq<Shared>, steps: seq<Step>, n: nat, p: Path)
    requires IsHistory(states, steps) && n <= |steps| && p in states[n].cache.files
  {
    && p in states[0].cache.files && states[n].cache.files[p] == states[0].cache.files[p]
    && forall j | 0 <= j < n :: !Puts(states, steps, j, p)
  }

  lemma OneStepOfFiles(states: seq<Shared>, steps: seq<Step>, n: nat, p: Path)
    requires IsHistory(states, steps) && n < |steps| && p in states[n+1].cache.files
    ensures Puts(states, steps, n, p) ==> states[n+1].cache.files[p] == LeftBy(states[n], steps[n])
    ensures !Puts(states, steps, n, p) ==>
              p in states[n].cache.files && states[n].cache.files[p] == states[n+1].cache.files[p]
  {
    assert Follows(states, steps, n);
    if steps[n].CleanupStep? { EvictionShrinks(states[n].cache, steps[n].order, TARGET_BYTES, steps[n].stuck); }
  }

  /** In every interleaving a file holds what the last write to its path left there, or what it held at the start. */
  lemma {:induction false} FilesHoldTheLastWrite(states: seq<Shared>, steps: seq<Step>, n: nat, p: Path)
    requires IsHistory(states, steps) && n <= |steps| && p in states[n].cache.files
    ensures HoldsFromStart(states, steps, n, p) || exists i :: 0 <= i < n && HoldsSince(states, steps, i, n, p)
  {
    if n > 0 {
      var m := n - 1;
      OneStepOfFiles(states, steps, m, p);
      if Puts(states, steps, m, p) {
        assert HoldsSince(states, steps, m, n, p);
      } else {
        FilesHoldTheLastWrite(states, steps, m, p);
        if i :| 0 <= i < m && HoldsSince(states, steps, i, m, p) {
          assert HoldsSince(states, steps, i, n, p);
        } else {
          assert HoldsFromStart(states, steps, n, p);
        }
      }
    }
  }

  /** A read that looked its entry up at step i and reads the file at step j returns what the last write to that file
      left, and that was a write for the same item, position, width and frame index: never another frame's bytes. */
  lemma ReadsReturnAWriteToTheKey(states: seq<Shared>, steps: seq<Step>, i: nat, j: nat, k: Key, now: U64)
    returns (h: nat)
    requires IsHistory(states, steps) && i <= j <= |steps| && IsCurrent(states[i].cache.idx, k, now)
    requires var p := EntryPath(k, states[i].cache.idx.entries[k]);
             p in states[j].cache.files && p !in states[0].cache.files
    ensures var e := states[i].cache.idx.entries[k];
            && h < j && HoldsSince(states, steps, h, j, EntryPath(k, e))
            && states[h].pending[steps[h].writer].k == k && states[h].pending[steps[h].writer].frameIdx == e.frameIdx
  {
    var p := EntryPath(k, states[i].cache.idx.entries[k]);
    FilesHoldTheLastWrite(states, steps, j, p);
    h :| 0 <= h < j && HoldsSince(states, steps, h, j, p);
  }

  /** With overlapping writes to one key these need not be the bytes of the write that committed the entry. */
  lemma ReadMayReturnAnUncommittedWrite(k: Key, a: Bytes, b: Bytes) returns (states: seq<Shared>, steps: seq<Step>)
    ensures IsHistory(states, steps) && states[0] == Start
    ensures states[|steps|].cache.idx == Index(map[k := Entry(0, |a|, 0, 1)], |a|)
    ensures ReadFile(states[|steps|].cache, k, 1, {}) == Some(b)
  {
    steps := [BeginStep(0, k, 0, a, 1), BeginStep(1, k, 0, b, 1), PutStep(0, Written), PutStep(1, Written),
              CommitStep(0, 0, 1)];
    var s1 := Next(Start, steps[0]);
    var s2 := Next(s1, steps[1]);
    var s3 := Next(s2, steps[2]);
    var s4 := Next(s3, steps[3]);
    states := [Start, s1, s2, s3, s4, Next(s4, steps[4])];
  }

  // ---- writes that do not overlap ----

  /** No write begins while another write to its key is between its sections. */
  ghost predicate NoOverlap(states: seq<Shared>, steps: seq<Step>)
    requires IsHistory(states, steps)
  {
    forall i | 0 <= i < |steps| :: BeginsAlone(states[i], steps[i])
  }

  ghost predicate BeginsAlone(s: Shared, step: Step) {
    step.BeginStep? ==> forall t | t in s.pending :: s.pending[t].k != step.k
  }

  /** The simple map: each commit stores its data and the video time it read. */
  ghost function StoredBy(states: seq<Shared>, steps: seq<Step>, n: nat): map<Key, Stored>
    requires IsHistory(states, steps) && n <= |steps|
  {
    if n == 0 then map[]
    else
      assert Follows(states, steps, n - 1);
      var before := StoredBy(states, steps, n - 1);
      if steps[n-1].CommitStep? then
        var p := states[n-1].pending[steps[n-1].writer];
        before[p.k := Stored(p.data, steps[n-1].mtime)]
      else before
  }

  /** No two writes share a key, a written file holds its data, and a key being written has no entry. */
  ghost predicate Separate(s: Shared) {
    && (forall t, u | t in s.pending && u in s.pending && t != u :: s.pending[t].k != s.pending[u].k)
    && (forall t | t in s.pending :: WritesAlone(s, s.pending[t]))
  }

  ghost predicate WritesAlone(s: Shared, p: Pending) {
    p.k !in s.cache.idx.entries && (p.wrote && TargetOf(p) in s.cache.files ==> s.cache.files[TargetOf(p)] == p.data)
  }

  lemma StepKeepsSeparate(s: Shared, step: Step)
    requires Separate(s) && Enabled(s, step) && BeginsAlone(s, step)
    ensures Separate(Next(s, step))
  {
    var w := Next(s, step);
    if step.CleanupStep? { EvictionShrinks(s.cache, step.order, TARGET_BYTES, step.stuck); }
    forall t | t in w.pending
      ensures WritesAlone(w, w.pending[t])
    {
      if t in s.pending { assert WritesAlone(s, s.pending[t]); }
    }
  }

  lemma StepAgrees(s: Shared, step: Step, stored: map<Key, Stored>)
    requires Separate(s) && Enabled(s, step) && Agrees(s.cache, stored)
    ensures step.CommitStep? ==>
              var p := s.pending[step.writer]; Agrees(Next(s, step).cache, stored[p.k := Stored(p.data, step.mtime)])
    ensures !step.CommitStep? ==> Agrees(Next(s, step).cache, stored)
  {
    var w := Next(s, step);
    match step
    case CommitStep(writer, _, mtime) =>
      var p := s.pending[writer];
      assert WritesAlone(s, p);
      forall k | k in w.cache.idx.entries
        ensures AgreesAt(w.cache, stored[p.k := Stored(p.data, mtime)], k)
      {
        if k != p.k { assert AgreesAt(s.cache, stored, k); }
      }
    case PartStep(writer, _) =>
      assert WritesAlone(s, s.pending[writer]);
      forall k | k in w.cache.idx.entries
        ensures AgreesAt(w.cache, stored, k)
      {
        assert AgreesAt(s.cache, stored, k);
      }
    case PutStep(writer, _) =>
      assert WritesAlone(s, s.pending[writer]);
      forall k | k in w.cache.idx.entries
        ensures AgreesAt(w.cache, stored, k)
      {
        assert AgreesAt(s.cache, stored, k);
      }
    case CleanupStep(order, stuck) =>
      EvictionShrinks(s.cache, order, TARGET_BYTES, stuck);
      ShrinkingAgrees(s.cache, w.cache, stored);
    case _ => ShrinkingAgrees(s.cache, w.cache, stored);
  }

  lemma {:induction false} HistoryAgrees(states: seq<Shared>, steps: seq<Step>, n: nat)
    requires IsHistory(states, steps) && NoOverlap(states, steps) && n <= |steps|
    requires states[0].cache.idx.entries == map[] && states[0].pending == map[]
    ensures Separate(states[n]) && Agrees(states[n].cache, StoredBy(states, steps, n))
  {
    if n > 0 {
      HistoryAgrees(states, steps, n - 1);
      assert Follows(states, steps, n - 1) && BeginsAlone(states[n-1], steps[n-1]);
      StepKeepsSeparate(states[n-1], steps[n-1]);
      StepAgrees(states[n-1], steps[n-1], StoredBy(states, steps, n - 1));
    }
  }

  lemma {:induction false} FileSince(states: seq<Shared>, steps: seq<Step>, i: nat, j: nat, p: Path)
    requires IsHistory(states, steps) && i <= j <= |steps| && p in states[j].cache.files
    ensures Untouched(states, steps, i, j, p) ==>
              p in states[i].cache.files && states[i].cache.files[p] == states[j].cache.files[p]
    ensures !Untouched(states, steps, i, j, p) ==> exists h | i <= h < j :: HoldsSince(states, steps, h, j, p)
    decreases j
  {
    if i < j {
      OneStepOfFiles(states, steps, j - 1, p);
      if Puts(states, steps, j - 1, p) {
        assert HoldsSince(states, steps, j - 1, j, p);
      } else {
        FileSince(states, steps, i, j - 1, p);
        if !Untouched(states, steps, i, j - 1, p) {
          var h :| i <= h < j - 1 && HoldsSince(states, steps, h, j - 1, p);
          assert HoldsSince(states, steps, h, j, p);
        }
      }
    }
  }

  /** Nothing writes to p from step i up to step j. */
  ghost predicate Untouched(states: seq<Shared>, steps: seq<Step>, i: nat, j: nat, p: Path)
    requires IsHistory(states, steps) && j <= |steps|
  {
    forall h | i <= h < j :: !Puts(states, steps, h, p)
  }

  /** While writes to one key never overlap, whatever else is interleaved: a read that finds a current entry at step i
      and then reads its file at step j returns exactly the bytes last committed for its key by step i, for the video as
      it was then, unless a write has reached that file in between; then it returns what the last such step left. */
  lemma {:induction false} ReadsReturnWhatWasLastCommitted(states: seq<Shared>, steps: seq<Step>, i: nat, j: nat,
                                                           k: Key, now: U64)
    requires IsHistory(states, steps) && NoOverlap(states, steps) && i <= j <= |steps|
    requires states[0].cache.idx.entries == map[] && states[0].pending == map[]
    requires IsCurrent(states[i].cache.idx, k, now)
             && EntryPath(k, states[i].cache.idx.entries[k]) in states[j].cache.files
    ensures var p := EntryPath(k, states[i].cache.idx.entries[k]);
            && (Untouched(states, steps, i, j, p) ==>
                  k in StoredBy(states, steps, i)
                  && StoredBy(states, steps, i)[k] == Stored(states[j].cache.files[p], now))
            && (!Untouched(states, steps, i, j, p) ==> exists h | i <= h < j :: HoldsSince(states, steps, h, j, p))
  {
    var p := EntryPath(k, states[i].cache.idx.entries[k]);
    HistoryAgrees(states, steps, i);
    assert AgreesAt(states[i].cache, StoredBy(states, steps, i), k);
    FileSince(states, steps, i, j, p);
  }

  /** Both halves of a read at one moment: nothing, or exactly the bytes last committed. */
  lemma {:induction false} UninterruptedReadsAreCommitted(states: seq<Shared>, steps: seq<Step>, n: nat, k: Key,
                                                          now: U64)
    requires IsHistory(states, steps) && NoOverlap(states, steps) && n <= |steps|
    requires states[0].cache.idx.entries == map[] && states[0].pending == map[]
    ensures var answer := ReadFile(states[n].cache, k, now, {});
            answer.Some? ==>
              k in StoredBy(states, steps, n) && StoredBy(states, steps, n)[k] == Stored(answer.value, now)
  {
    if ReadFile(states[n].cache, k, now, {}).Some? { ReadsReturnWhatWasLastCommitted(states, steps, n, n, k, now); }
  }

  /** The steps of a write of a, and of a write of b for a changed video up to its second section. */
  function OvertakingSteps(k: Key, a: Bytes, b: Bytes): seq<Step> {
    [BeginStep(0, k, 0, a, 1), PutStep(0, Written), CommitStep(0, 0, 1), BeginStep(1, k, 0, b, 2), PutStep(1, Written)]
  }

  function OvertakingStates(k: Key, a: Bytes, b: Bytes): seq<Shared> {
    var files, later := map[PathOf(k, 0) := a], map[PathOf(k, 0) := b];
    [Start,
     Shared(Empty, map[0 := Pending(k, 0, a, false, false)]),
     Shared(Cache(Empty.idx, files), map[0 := Pending(k, 0, a, true, false)]),
     Shared(Cache(Index(map[k := Entry(0, |a|, 0, 1)], |a|), files), map[]),
     Shared(Cache(Empty.idx, files), map[1 := Pending(k, 0, b, false, false)]),
     Shared(Cache(Empty.idx, later), map[1 := Pending(k, 0, b, true, false)])]
  }

  lemma OvertakingFollows(k: Key, a: Bytes, b: Bytes, i: nat)
    requires i < 5
    ensures var states, steps := OvertakingStates(k, a, b), OvertakingSteps(k, a, b);
            Follows(states, steps, i) && BeginsAlone(states[i], steps[i])
  {
  }

  /** The lookup at step 3 finds a for the video of time 1; before its file is read the video changes and a write for
      the new one has reached the file: the read returns b, which is not committed, nor for that video. */
  lemma WriteOvertakesTheRead(k: Key, a: Bytes, b: Bytes) returns (states: seq<Shared>, steps: seq<Step>)
    ensures IsHistory(states, steps) && NoOverlap(states, steps) && states[0] == Start && |steps| == 5
    ensures IsCurrent(states[3].cache.idx, k, 1)
    ensures var p := EntryPath(k, states[3].cache.idx.entries[k]);
            p in states[5].cache.files && states[5].cache.files[p] == b
    ensures StoredBy(states, steps, 3) == StoredBy(states, steps, 5) == map[k := Stored(a, 1)]
  {
    states, steps := OvertakingStates(k, a, b), OvertakingSteps(k, a, b);
    forall i: nat | i < 5
      ensures Follows(states, steps, i) && BeginsAlone(states[i], steps[i])
    {
      OvertakingFollows(k, a, b, i);
    }
    StoredAfter(states, steps, 0);
    StoredAfter(states, steps, 1);
    StoredAfter(states, steps, 2);
    StoredAfter(states, steps, 3);
    StoredAfter(states, steps, 4);
  }

  lemma {:induction false} StoredAfter(states: seq<Shared>, steps: seq<Step>, n: nat)
    requires IsHistory(states, steps) && n < |steps|
    ensures steps[n].CommitStep? ==>
              steps[n].writer in states[n].pending
              && var p := states[n].pending[steps[n].writer];
                 StoredBy(states, steps, n + 1) == StoredBy(states, steps, n)[p.k := Stored(p.data, steps[n].mtime)]
    ensures !steps[n].CommitStep? ==> StoredBy(states, steps, n + 1) == StoredBy(states, steps, n)
  {
    assert Follows(states, steps, n);
  }
}
