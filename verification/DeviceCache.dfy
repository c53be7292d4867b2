/** The process-wide cache of hardware device contexts (hwaccel.rs).

    FFmpeg's reference-counted buffers are modelled by their counts and a log of what has been freed.
    A failed allocation in av_buffer_ref is not part of this model.
 */
module DeviceCache {
  datatype Option<T> = None | Some(value: T)

  type Ctx = nat

  /** Buffers by reference count; `freed` logs each release of a context's last reference. */
  datatype Heap = Heap(refs: map<Ctx, nat>, freed: seq<Ctx>, next: Ctx)

  function AvCreate(h: Heap): Heap { Heap(h.refs[h.next := 1], h.freed, h.next + 1) }

  /** Referencing a freed context would bring it back to life. */
  function AvRef(h: Heap, c: Ctx): Heap { h.(refs := h.refs[c := if c in h.refs then h.refs[c] + 1 else 1]) }

  /** Releasing a freed context would free it again. */
  function AvUnref(h: Heap, c: Ctx): Heap {
    if c in h.refs && h.refs[c] > 1 then h.(refs := h.refs[c := h.refs[c] - 1])
    else h.(refs := h.refs - {c}, freed := h.freed + [c])
  }

  /** Vendor and device string. */
  datatype Key = Key(vendor: string, device: Option<string>)

  // ---- the two locked sections of create ----

  /** What a locked section leaves, and the context it hands out. */
  datatype Section = Section(heap: Heap, cached: map<Key, Ctx>, handed: Option<Ctx>)

  /** The first section: a hit takes a new reference to the cached context. */
  function LookupSection(heap: Heap, cached: map<Key, Ctx>, key: Key): Section {
    if key in cached then Section(AvRef(heap, cached[key]), cached, Some(cached[key])) else Section(heap, cached, None)
  }

  /** The second: whoever comes first caches its context, everyone else drops theirs and shares the cached one. */
  function PublishSection(heap: Heap, cached: map<Key, Ctx>, key: Key, raw: Ctx): Section {
    if key in cached then Section(AvUnref(AvRef(heap, cached[key]), raw), cached, Some(cached[key]))
    else Section(AvRef(heap, raw), cached[key := raw], Some(raw))
  }

  // ---- the guard and the methods ----

  class HwDeviceContext {
    var ptr: Option<Ctx>

    constructor (c: Ctx)
      ensures ptr == Some(c)
    {
      ptr := Some(c);
    }

    /** Hands the reference over; dropping the guard afterwards does nothing. */
    method IntoRaw() returns (raw: Option<Ctx>)
      modifies this
      ensures raw == old(ptr) && ptr == None
    {
      raw := ptr;
      ptr := None;
    }
  }

  class Devices {
    var heap: Heap
    var cached: map<Key, Ctx>

    constructor ()
      ensures heap == Heap(map[], [], 0) && cached == map[]
    {
      heap, cached := Heap(map[], [], 0), map[];
    }

    /** A hit returns a guard for the cached context. */
    method Lookup(key: Key) returns (r: Option<HwDeviceContext>)
      modifies this`heap
      ensures r.Some? <==> key in cached
      ensures r.Some? ==> fresh(r.value) && r.value.ptr == Some(cached[key])
      ensures Section(heap, cached, if r.Some? then r.value.ptr else None) == LookupSection(old(heap), old(cached), key)
    {
      if key in cached {
        heap := AvRef(heap, cached[key]);
        var g := new HwDeviceContext(cached[key]);
        return Some(g);
      }
      r := None;
    }

    /** Everyone leaves with a guard for the context that is cached from then on. */
    method Publish(key: Key, raw: Ctx) returns (g: HwDeviceContext)
      modifies this
      ensures fresh(g) && key in cached && g.ptr == Some(cached[key])
      ensures Section(heap, cached, g.ptr) == PublishSection(old(heap), old(cached), key, raw)
    {
      if key in cached {
        heap := AvRef(heap, cached[key]);
        heap := AvUnref(heap, raw);
        g := new HwDeviceContext(cached[key]);
        return;
      }
      heap := AvRef(heap, raw);
      cached := cached[key := raw];
      g := new HwDeviceContext(raw);
    }

    /** The guard's destructor. */
    method Drop(g: HwDeviceContext)
      modifies this`heap, g
      ensures g.ptr == None
      ensures heap == if old(g.ptr).Some? then AvUnref(old(heap), old(g.ptr).value) else old(heap)
    {
      if g.ptr.Some? {
        heap := AvUnref(heap, g.ptr.value);
        g.ptr := None;
      }
    }

    /** Attaching transfers the guard's reference to the codec context; nothing is counted up or down. */
    method Attach(g: HwDeviceContext) returns (raw: Option<Ctx>)
      modifies this`heap, g
      ensures raw == old(g.ptr) && g.ptr == None && heap == old(heap)
    {
      raw := g.IntoRaw();
      Drop(g);
    }
  }

  // ---- any number of threads ----

  /** Everything that holds one reference. */
  datatype Holder =
    | CacheSlot(key: Key)
    | Guard(key: Key, id: nat)
    | Codec(key: Key, id: nat)
    | Creator(thread: nat)

  datatype Phase = Looking(key: Key) | Creating(key: Key) | Created(key: Key)

  datatype Process = Process(heap: Heap, holders: map<Holder, Ctx>, inflight: map<nat, Phase>)

  datatype Step =
    | Call(thread: nat, key: Key)
    | Hit(thread: nat, id: nat)
    | Miss(thread: nat)
    | CreateFails(thread: nat)
    | Creates(thread: nat)
    | Publish(thread: nat, id: nat)
    | DropGuard(key: Key, id: nat)
    | Attach(key: Key, id: nat, codec: nat)
    | FreeCodec(key: Key, id: nat)

  predicate Enabled(s: Process, step: Step) {
    match step
    case Call(t, _) => t !in s.inflight
    case Hit(t, id) => t in s.inflight && s.inflight[t].Looking? && CacheSlot(s.inflight[t].key) in s.holders
      && Guard(s.inflight[t].key, id) !in s.holders
    case Miss(t) => t in s.inflight && s.inflight[t].Looking? && CacheSlot(s.inflight[t].key) !in s.holders
    case CreateFails(t) => t in s.inflight && s.inflight[t].Creating?
    case Creates(t) => t in s.inflight && s.inflight[t].Creating?
    case Publish(t, id) =>
      t in s.inflight && s.inflight[t].Created? && Creator(t) in s.holders && Guard(s.inflight[t].key, id) !in s.holders
    case DropGuard(key, id) => Guard(key, id) in s.holders
    case Attach(key, id, codec) => Guard(key, id) in s.holders && Codec(key, codec) !in s.holders
    case FreeCodec(key, id) => Codec(key, id) in s.holders
  }

  function Next(s: Process, step: Step): Process
    requires Enabled(s, step)
  {
    match step
    case Call(t, key) => s.(inflight := s.inflight[t := Looking(key)])
    case Hit(t, id) =>
      var key := s.inflight[t].key;
      var c := s.holders[CacheSlot(key)];
      Process(AvRef(s.heap, c), s.holders[Guard(key, id) := c], s.inflight - {t})
    case Miss(t) => s.(inflight := s.inflight[t := Creating(s.inflight[t].key)])
    case CreateFails(t) => s.(inflight := s.inflight - {t})
    case Creates(t) =>
      Process(AvCreate(s.heap), s.holders[Creator(t) := s.heap.next], s.inflight[t := Created(s.inflight[t].key)])
    case Publish(t, id) =>
      var key, raw := s.inflight[t].key, s.holders[Creator(t)];
      var left := s.inflight - {t};
      if CacheSlot(key) in s.holders then
        var c := s.holders[CacheSlot(key)];
        Process(AvUnref(AvRef(s.heap, c), raw), s.holders[Guard(key, id) := c] - {Creator(t)}, left)
      else
        Process(AvRef(s.heap, raw), s.holders[CacheSlot(key) := raw][Guard(key, id) := raw] - {Creator(t)}, left)
    case DropGuard(key, id) =>
      Process(AvUnref(s.heap, s.holders[Guard(key, id)]), s.holders - {Guard(key, id)}, s.inflight)
    case Attach(key, id, codec) =>
      s.(holders := s.holders[Codec(key, codec) := s.holders[Guard(key, id)]] - {Guard(key, id)})
    case FreeCodec(key, id) =>
      Process(AvUnref(s.heap, s.holders[Codec(key, id)]), s.holders - {Codec(key, id)}, s.inflight)
  }

  /** The cache as the methods see it. */
  function CacheOf(holders: map<Holder, Ctx>): map<Key, Ctx> {
    map h | h in holders && h.CacheSlot? :: h.key := holders[h]
  }

  /** The steps are the methods: a hit, a miss and a publishing leave heap and cache, and hand out a context, as the
      locked sections do; a guard is dropped as its destructor drops it, and attaching moves it without counting. */
  lemma StepsAreTheSections(s: Process, step: Step)
    requires Enabled(s, step)
    ensures var w := Next(s, step);
            match step
            case Hit(t, id) =>
              var key := s.inflight[t].key;
              Guard(key, id) in w.holders
              && Section(w.heap, CacheOf(w.holders), Some(w.holders[Guard(key, id)]))
                 == LookupSection(s.heap, CacheOf(s.holders), key)
            case Miss(t) =>
              Section(w.heap, CacheOf(w.holders), None) == LookupSection(s.heap, CacheOf(s.holders), s.inflight[t].key)
            case Publish(t, id) =>
              var key := s.inflight[t].key;
              Guard(key, id) in w.holders
              && Section(w.heap, CacheOf(w.holders), Some(w.holders[Guard(key, id)]))
                 == PublishSection(s.heap, CacheOf(s.holders), key, s.holders[Creator(t)])
            case DropGuard(key, id) =>
              w.heap == AvUnref(s.heap, s.holders[Guard(key, id)]) && CacheOf(w.holders) == CacheOf(s.holders)
            case Attach(key, id, codec) =>
              w.heap == s.heap && CacheOf(w.holders) == CacheOf(s.holders)
              && Codec(key, codec) in w.holders && w.holders[Codec(key, codec)] == s.holders[Guard(key, id)]
            case _ => CacheOf(w.holders) == CacheOf(s.holders)
  {
    CacheOfIs(s.holders);
    CacheAfter(s, step);
  }

  lemma CacheAfter(s: Process, step: Step)
    requires Enabled(s, step)
    ensures CacheOf(Next(s, step).holders) ==
            if step.Publish? && CacheSlot(s.inflight[step.thread].key) !in s.holders
            then CacheOf(s.holders)[s.inflight[step.thread].key := s.holders[Creator(step.thread)]]
            else CacheOf(s.holders)
  {
    CacheOfIs(s.holders);
    CacheOfIs(Next(s, step).holders);
  }

  lemma CacheOfIs(holders: map<Holder, Ctx>)
    ensures forall key :: key in CacheOf(holders) <==> CacheSlot(key) in holders
    ensures forall key | key in CacheOf(holders) :: CacheOf(holders)[key] == holders[CacheSlot(key)]
  {
    forall key | CacheSlot(key) in holders
      ensures key in CacheOf(holders)
    {
      assert CacheSlot(key).key == key;
    }
  }

  function Initial(): Process { Process(Heap(map[], [], 0), map[], map[]) }

  // ---- counting references ----

  function HoldersOf(holders: map<Holder, Ctx>, c: Ctx): set<Holder> { set h | h in holders && holders[h] == c }

  lemma CountAdded(holders: map<Holder, Ctx>, h: Holder, c: Ctx, d: Ctx)
    requires h !in holders
    ensures |HoldersOf(holders[h := c], d)| == |HoldersOf(holders, d)| + if d == c then 1 else 0
  {
    if d == c {
      assert HoldersOf(holders[h := c], d) == HoldersOf(holders, d) + {h};
    } else {
      assert HoldersOf(holders[h := c], d) == HoldersOf(holders, d);
    }
  }

  lemma CountRemoved(holders: map<Holder, Ctx>, h: Holder, d: Ctx)
    requires h in holders
    ensures |HoldersOf(holders - {h}, d)| == |HoldersOf(holders, d)| - if d == holders[h] then 1 else 0
  {
    if d == holders[h] {
      assert HoldersOf(holders, d) == HoldersOf(holders - {h}, d) + {h};
    } else {
      assert HoldersOf(holders, d) == HoldersOf(holders - {h}, d);
    }
  }

  /** Every count is the number of holders, and what has no holder has been freed, once. */
  ghost predicate CountsAreExact(heap: Heap, holders: map<Holder, Ctx>) {
    && (forall h | h in holders :: holders[h] in heap.refs)
    && (forall c | c in heap.refs :: c < heap.next && heap.refs[c] == |HoldersOf(holders, c)| && heap.refs[c] > 0)
    && (forall c: nat | c < heap.next && c !in heap.refs :: c in heap.freed)
    && (forall i | 0 <= i < |heap.freed| :: heap.freed[i] < heap.next && heap.freed[i] !in heap.refs)
    && (forall i, j | 0 <= i < j < |heap.freed| :: heap.freed[i] != heap.freed[j])
  }

  /** The creators that hold a context are those that have created one. */
  ghost predicate CreatorsMatch(s: Process) {
    forall t :: Creator(t) in s.holders <==> t in s.inflight && s.inflight[t].Created?
  }

  /** A creator's context is its own. */
  ghost predicate CreatorsOwnTheirs(holders: map<Holder, Ctx>) {
    forall t, g | Creator(t) in holders && g in holders && g != Creator(t) :: holders[g] != holders[Creator(t)]
  }

  /** Guards and codecs of a key share the context cached for it. */
  ghost predicate HandlesAlias(holders: map<Holder, Ctx>) {
    forall h | h in holders && (h.Guard? || h.Codec?) ::
      CacheSlot(h.key) in holders && holders[h] == holders[CacheSlot(h.key)]
  }

  /** No two keys share a context. */
  ghost predicate SlotsDiffer(holders: map<Holder, Ctx>) {
    forall k, l | CacheSlot(k) in holders && CacheSlot(l) in holders && k != l ::
      holders[CacheSlot(k)] != holders[CacheSlot(l)]
  }

  ghost predicate Tidy(holders: map<Holder, Ctx>) {
    CreatorsOwnTheirs(holders) && HandlesAlias(holders) && SlotsDiffer(holders)
  }

  ghost predicate Inv(s: Process) { CountsAreExact(s.heap, s.holders) && CreatorsMatch(s) && Tidy(s.holders) }

  lemma RefCounts(heap: Heap, holders: map<Holder, Ctx>, h: Holder, c: Ctx)
    requires CountsAreExact(heap, holders) && h !in holders && c in heap.refs
    ensures CountsAreExact(AvRef(heap, c), holders[h := c])
  {
    forall d | d in heap.refs
      ensures AvRef(heap, c).refs[d] == |HoldersOf(holders[h := c], d)|
    {
      CountAdded(holders, h, c, d);
    }
  }

  lemma HeldTwice(holders: map<Holder, Ctx>, h: Holder, g: Holder)
    requires h in holders && g in holders && h != g && holders[h] == holders[g]
    ensures |HoldersOf(holders, holders[h])| > 1
  {
    assert {h, g} <= HoldersOf(holders, holders[h]);
    SubsetIsNotLarger({h, g}, HoldersOf(holders, holders[h]));
    assert |{h, g}| == 2;
  }

  lemma SubsetIsNotLarger(a: set<Holder>, b: set<Holder>)
    requires a <= b
    ensures |a| <= |b|
  {
    assert b == a + (b - a);
  }

  lemma UnrefCounts(heap: Heap, holders: map<Holder, Ctx>, h: Holder)
    requires CountsAreExact(heap, holders) && h in holders
    ensures CountsAreExact(AvUnref(heap, holders[h]), holders - {h})
  {
    var c := holders[h];
    forall d | d in heap.refs
      ensures d in AvUnref(heap, c).refs ==> AvUnref(heap, c).refs[d] == |HoldersOf(holders - {h}, d)|
    {
      CountRemoved(holders, h, d);
    }
    forall g | g in holders - {h}
      ensures holders[g] in AvUnref(heap, c).refs
    {
      if holders[g] == c { HeldTwice(holders, h, g); }
    }
  }

  lemma CreateCounts(heap: Heap, holders: map<Holder, Ctx>, h: Holder)
    requires CountsAreExact(heap, holders) && h !in holders
    ensures CountsAreExact(AvCreate(heap), holders[h := heap.next])
  {
    forall d | d in AvCreate(heap).refs
      ensures AvCreate(heap).refs[d] == |HoldersOf(holders[h := heap.next], d)|
    {
      CountAdded(holders, h, heap.next, d);
      if d == heap.next { assert HoldersOf(holders, d) == {}; }
    }
  }

  /** Moving a reference from one holder to another changes no count. */
  lemma MoveCounts(heap: Heap, holders: map<Holder, Ctx>, from: Holder, to: Holder)
    requires CountsAreExact(heap, holders) && from in holders && to !in holders
    ensures CountsAreExact(heap, holders[to := holders[from]] - {from})
  {
    var more := holders[to := holders[from]];
    forall d | d in heap.refs
      ensures heap.refs[d] == |HoldersOf(more - {from}, d)|
    {
      CountAdded(holders, to, holders[from], d);
      CountRemoved(more, from, d);
    }
  }

  lemma PublishCounts(s: Process, t: nat, id: nat)
    requires Inv(s) && Enabled(s, Publish(t, id))
    ensures CountsAreExact(Next(s, Publish(t, id)).heap, Next(s, Publish(t, id)).holders)
  {
    var key, raw := s.inflight[t].key, s.holders[Creator(t)];
    if CacheSlot(key) in s.holders {
      var c := s.holders[CacheSlot(key)];
      RefCounts(s.heap, s.holders, Guard(key, id), c);
      UnrefCounts(AvRef(s.heap, c), s.holders[Guard(key, id) := c], Creator(t));
    } else {
      RefCounts(s.heap, s.holders, CacheSlot(key), raw);
      MoveCounts(AvRef(s.heap, raw), s.holders[CacheSlot(key) := raw], Creator(t), Guard(key, id));
    }
  }

  lemma StepKeepsCounts(s: Process, step: Step)
    requires Inv(s) && Enabled(s, step)
    ensures CountsAreExact(Next(s, step).heap, Next(s, step).holders)
  {
    match step
    case Hit(t, id) => RefCounts(s.heap, s.holders, Guard(s.inflight[t].key, id),
                                 s.holders[CacheSlot(s.inflight[t].key)]);
    case Creates(t) => CreateCounts(s.heap, s.holders, Creator(t));
    case Publish(t, id) => PublishCounts(s, t, id);
    case DropGuard(key, id) => UnrefCounts(s.heap, s.holders, Guard(key, id));
    case Attach(key, id, codec) => MoveCounts(s.heap, s.holders, Guard(key, id), Codec(key, codec));
    case FreeCodec(key, id) => UnrefCounts(s.heap, s.holders, Codec(key, id));
    case _ =>
  }

  lemma HandleAdded(holders: map<Holder, Ctx>, h: Holder)
    requires Tidy(holders) && (h.Guard? || h.Codec?) && h !in holders && CacheSlot(h.key) in holders
    ensures Tidy(holders[h := holders[CacheSlot(h.key)]])
  {
    var more := holders[h := holders[CacheSlot(h.key)]];
    forall t, g | Creator(t) in more && g in more && g != Creator(t)
      ensures more[g] != more[Creator(t)]
    {
      if g == h { assert holders[CacheSlot(h.key)] != holders[Creator(t)]; }
    }
  }

  lemma HolderRemoved(holders: map<Holder, Ctx>, h: Holder)
    requires Tidy(holders) && !h.CacheSlot?
    ensures Tidy(holders - {h})
  {
  }

  lemma CreatorAdded(holders: map<Holder, Ctx>, t: nat, c: Ctx)
    requires Tidy(holders) && Creator(t) !in holders && forall h | h in holders :: holders[h] != c
    ensures Tidy(holders[Creator(t) := c])
  {
    var more := holders[Creator(t) := c];
    forall h | h in more && (h.Guard? || h.Codec?)
      ensures CacheSlot(h.key) in more && more[h] == more[CacheSlot(h.key)]
    {
      assert h in holders;
    }
  }

  lemma SlotFilled(holders: map<Holder, Ctx>, t: nat, key: Key)
    requires Tidy(holders) && Creator(t) in holders && CacheSlot(key) !in holders
    ensures Tidy(holders[CacheSlot(key) := holders[Creator(t)]] - {Creator(t)})
  {
    var raw := holders[Creator(t)];
    var more := holders[CacheSlot(key) := raw] - {Creator(t)};
    assert forall g | g in more && g != CacheSlot(key) :: more[g] == holders[g] != raw;
    forall u, g | Creator(u) in more && g in more && g != Creator(u)
      ensures more[g] != more[Creator(u)]
    {
    }
  }

  lemma PublishKeepsTidy(s: Process, t: nat, id: nat)
    requires Inv(s) && Enabled(s, Publish(t, id))
    ensures Tidy(Next(s, Publish(t, id)).holders)
  {
    var key, raw := s.inflight[t].key, s.holders[Creator(t)];
    var g, slot, w := Guard(key, id), CacheSlot(key), Next(s, Publish(t, id)).holders;
    if slot in s.holders {
      HandleAdded(s.holders, g);
      HolderRemoved(s.holders[g := s.holders[slot]], Creator(t));
    } else {
      var filled := s.holders[slot := raw] - {Creator(t)};
      SlotFilled(s.holders, t, key);
      HandleAdded(filled, g);
      assert w == filled[g := filled[slot]];
    }
  }

  lemma StepKeepsTidy(s: Process, step: Step)
    requires Inv(s) && Enabled(s, step)
    ensures Tidy(Next(s, step).holders)
  {
    match step
    case Hit(t, id) => HandleAdded(s.holders, Guard(s.inflight[t].key, id));
    case Creates(t) => CreatorAdded(s.holders, t, s.heap.next);
    case Publish(t, id) => PublishKeepsTidy(s, t, id);
    case DropGuard(key, id) => HolderRemoved(s.holders, Guard(key, id));
    case Attach(key, id, codec) =>
      HandleAdded(s.holders, Codec(key, codec));
      HolderRemoved(s.holders[Codec(key, codec) := s.holders[Guard(key, id)]], Guard(key, id));
    case FreeCodec(key, id) => HolderRemoved(s.holders, Codec(key, id));
    case _ =>
  }

  lemma StepKeepsMatch(s: Process, step: Step)
    requires CreatorsMatch(s) && Enabled(s, step)
    ensures CreatorsMatch(Next(s, step))
  {
  }

  ghost predicate KeepsCache(s: Process, w: Process) {
    forall key | CacheSlot(key) in s.holders ::
      CacheSlot(key) in w.holders && w.holders[CacheSlot(key)] == s.holders[CacheSlot(key)]
  }

  lemma StepKeepsCache(s: Process, step: Step)
    requires Enabled(s, step)
    ensures KeepsCache(s, Next(s, step)) && s.heap.freed <= Next(s, step).heap.freed
  {
  }

  lemma StepKeepsInv(s: Process, step: Step)
    requires Inv(s) && Enabled(s, step)
    ensures Inv(Next(s, step))
  {
    StepKeepsCounts(s, step);
    StepKeepsTidy(s, step);
    StepKeepsMatch(s, step);
  }

  // ---- whole runs ----

  ghost predicate IsRun(states: seq<Process>, steps: seq<Step>) {
    && |states| == |steps| + 1 && states[0] == Initial()
    && forall i | 0 <= i < |steps| :: Follows(states, steps, i)
  }

  ghost predicate Follows(states: seq<Process>, steps: seq<Step>, i: nat)
    requires |states| == |steps| + 1 && i < |steps|
  {
    Enabled(states[i], steps[i]) && states[i+1] == Next(states[i], steps[i])
  }

  lemma {:induction false} RunKeepsInv(states: seq<Process>, steps: seq<Step>, n: nat)
    requires IsRun(states, steps) && n <= |steps|
    ensures Inv(states[n])
  {
    if n > 0 {
      RunKeepsInv(states, steps, n - 1);
      assert Follows(states, steps, n - 1);
      StepKeepsInv(states[n-1], steps[n-1]);
    }
  }

  ghost function Guards(holders: map<Holder, Ctx>, c: Ctx): set<Holder> {
    set h | h in holders && holders[h] == c && h.Guard?
  }

  ghost function Codecs(holders: map<Holder, Ctx>, c: Ctx): set<Holder> {
    set h | h in holders && holders[h] == c && h.Codec?
  }

  ghost function Creators(holders: map<Holder, Ctx>, c: Ctx): set<Holder> {
    set h | h in holders && holders[h] == c && h.Creator?
  }

  ghost function Slots(holders: map<Holder, Ctx>, c: Ctx): set<Holder> {
    set h | h in holders && holders[h] == c && h.CacheSlot?
  }


  lemma AtMostOneSlot(holders: map<Holder, Ctx>, c: Ctx)
    requires SlotsDiffer(holders)
    ensures |Slots(holders, c)| ==
            if exists key :: CacheSlot(key) in holders && holders[CacheSlot(key)] == c then 1 else 0
  {
    if key :| CacheSlot(key) in holders && holders[CacheSlot(key)] == c {
      assert Slots(holders, c) == {CacheSlot(key)};
    } else {
      assert Slots(holders, c) == {};
    }
  }

  lemma HoldersByKind(holders: map<Holder, Ctx>, c: Ctx)
    ensures |HoldersOf(holders, c)| ==
            |Slots(holders, c)| + |Guards(holders, c)| + |Codecs(holders, c)| + |Creators(holders, c)|
  {
    var slots, guards := Slots(holders, c), Guards(holders, c);
    var codecs, creators := Codecs(holders, c), Creators(holders, c);
    assert HoldersOf(holders, c) == slots + guards + codecs + creators;
    assert slots !! guards && (slots + guards) !! codecs && (slots + guards + codecs) !! creators;
  }

  /** In every interleaving a live context's count is one if it is cached, plus its guards, its codecs and the creators
      still holding it. */
  lemma CountsByHolder(states: seq<Process>, steps: seq<Step>, n: nat, c: Ctx)
    requires IsRun(states, steps) && n <= |steps| && c in states[n].heap.refs
    ensures var holders := states[n].holders;
            states[n].heap.refs[c] ==
            (if exists key :: CacheSlot(key) in holders && holders[CacheSlot(key)] == c then 1 else 0)
                                      + |Guards(holders, c)| + |Codecs(holders, c)| + |Creators(holders, c)|
  {
    RunKeepsInv(states, steps, n);
    AtMostOneSlot(states[n].holders, c);
    HoldersByKind(states[n].holders, c);
  }

  /** Once a key has a cached context, it keeps that one. */
  lemma {:induction false} CacheNeverReplaced(states: seq<Process>, steps: seq<Step>, n: nat, m: nat, key: Key)
    requires IsRun(states, steps) && n <= m <= |steps| && CacheSlot(key) in states[n].holders
    ensures CacheSlot(key) in states[m].holders
            && states[m].holders[CacheSlot(key)] == states[n].holders[CacheSlot(key)]
    decreases m
  {
    if n < m {
      CacheNeverReplaced(states, steps, n, m - 1, key);
      assert Follows(states, steps, m - 1);
      StepKeepsCache(states[m-1], steps[m-1]);
    }
  }

  /** Every guard or codec for a key, whenever it was handed out, refers to the one context ever cached for that key,
      which is alive. */
  lemma HandlesShareOneContext(states: seq<Process>, steps: seq<Step>, n: nat, m: nat, h: Holder, g: Holder)
    requires IsRun(states, steps) && n <= m <= |steps|
    requires (h.Guard? || h.Codec?) && (g.Guard? || g.Codec?) && h.key == g.key
    requires h in states[n].holders && g in states[m].holders
    ensures CacheSlot(h.key) in states[m].holders && states[m].holders[CacheSlot(h.key)] in states[m].heap.refs
    ensures states[n].holders[h] == states[m].holders[g] == states[m].holders[CacheSlot(h.key)]
  {
    RunKeepsInv(states, steps, n);
    RunKeepsInv(states, steps, m);
    CacheNeverReplaced(states, steps, n, m, h.key);
  }

  /** A creator that publishes second has its own context freed there and then, and never again; no handle ever refers
      to it. */
  lemma LosersAreFreedOnce(states: seq<Process>, steps: seq<Step>, n: nat, m: nat)
    requires IsRun(states, steps) && n < m <= |steps|
    requires steps[n].Publish? && n < |steps| && Enabled(states[n], steps[n])
             && CacheSlot(states[n].inflight[steps[n].thread].key) in states[n].holders
    ensures var raw := states[n].holders[Creator(steps[n].thread)];
            && raw in states[n].heap.refs && raw !in states[n].heap.freed
            && states[n+1].heap.freed == states[n].heap.freed + [raw]
            && (forall i | 0 <= i < |states[m].heap.freed| && states[m].heap.freed[i] == raw ::
                i == |states[n].heap.freed|)
            && (forall h | h in states[m].holders :: states[m].holders[h] != raw)
  {
    var t := steps[n].thread;
    var raw := states[n].holders[Creator(t)];
    RunKeepsInv(states, steps, n);
    RunKeepsInv(states, steps, m);
    assert Follows(states, steps, n);
    LoserIsAlone(states[n], t);
    FreedOnlyGrows(states, steps, n + 1, m);
    assert states[m].heap.freed[|states[n].heap.freed|] == raw;
  }

  lemma LoserIsAlone(s: Process, t: nat)
    requires Inv(s) && Creator(t) in s.holders
    ensures s.heap.refs[s.holders[Creator(t)]] == 1
  {
    assert HoldersOf(s.holders, s.holders[Creator(t)]) == {Creator(t)};
  }

  lemma {:induction false} FreedOnlyGrows(states: seq<Process>, steps: seq<Step>, n: nat, m: nat)
    requires IsRun(states, steps) && n <= m <= |steps|
    ensures states[n].heap.freed <= states[m].heap.freed
    decreases m
  {
    if n < m {
      FreedOnlyGrows(states, steps, n, m - 1);
      assert Follows(states, steps, m - 1);
      StepKeepsCache(states[m-1], steps[m-1]);
    }
  }

  /** Nothing leaks: while no create call holds a context, the live contexts are exactly the cached ones. */
  lemma OnlyCachedContextsLive(states: seq<Process>, steps: seq<Step>, n: nat, c: Ctx)
    requires IsRun(states, steps) && n <= |steps|
    requires forall t | t in states[n].inflight :: !states[n].inflight[t].Created?
    ensures c in states[n].heap.refs <==>
              exists key :: CacheSlot(key) in states[n].holders && states[n].holders[CacheSlot(key)] == c
  {
    RunKeepsInv(states, steps, n);
    var s := states[n];
    if c in s.heap.refs {
      assert |HoldersOf(s.holders, c)| > 0;
      var h :| h in HoldersOf(s.holders, c);
      match h
      case CacheSlot(key) => assert CacheSlot(key) in s.holders;
      case Guard(key, _) => assert CacheSlot(key) in s.holders && s.holders[CacheSlot(key)] == c;
      case Codec(key, _) => assert CacheSlot(key) in s.holders && s.holders[CacheSlot(key)] == c;
      case Creator(_) => assert false;
    }
  }
}
