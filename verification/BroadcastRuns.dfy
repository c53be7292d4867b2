/** The frame-index stream of one file under any interleaving (server.rs): each step is what one task does under one
    lock, or between two of them. */
module BroadcastRuns {
  import opened Broadcast

  datatype Phase = Demuxing | Indexed | DonePushed | Finished | Announced | Gone | Stopped

  /** One Queue B and its progress; `idx` is what it will find in the file, `notified` how often it has woken the
      waiting. */
  datatype Queue = Queue(idx: FrameIndex, batches: seq<Msg>, done: bool, phase: Phase, notified: nat)

  datatype SubPhase =
    | Arrived                                       // nothing checked yet
    | Missed                                        // the cache had nothing
    | Answered(idx: FrameIndex)                     // sent from the cache
    | Copying(q: nat, next: nat)                    // about to copy new batches
    | Checking(q: nat, next: nat)                   // about to read the done flag
    | Unarmed(q: nat, next: nat)                    // has not seen done, about to wait
    | Waiting(q: nat, next: nat, heard: nat)        // until the next notification
    | Draining(q: nat, next: nat)                   // saw done, one more copy to go
    | Left(q: nat)                                  // bridge exited

  datatype Sub = Sub(phase: SubPhase, delivered: seq<Msg>)

  datatype Server = Server(cache: Option<FrameIndex>, registered: Option<nat>, queues: seq<Queue>, subs: seq<Sub>)

  datatype Step =
    | PushBatch(q: nat) | PutIndex(q: nat) | PushDone(q: nat) | Finish(q: nat)
    | Announce(q: nat) | Unregister(q: nat) | Fail(q: nat)
    | Evict | PutOther(idx: FrameIndex)
    | Arrive | Check(s: nat) | Subscribe(s: nat, found: FrameIndex)
    | Copy(s: nat) | ReadDone(s: nat) | Await(s: nat) | Wake(s: nat) | Drain(s: nat)

  predicate Enabled(v: Server, step: Step) {
    match step
    case PushBatch(q) =>
      q < |v.queues| && v.queues[q].phase.Demuxing? && |v.queues[q].batches| + 1 < |Messages(v.queues[q].idx)|
    case PutIndex(q) =>
      q < |v.queues| && v.queues[q].phase.Demuxing? && |v.queues[q].batches| + 1 == |Messages(v.queues[q].idx)|
    case PushDone(q) => q < |v.queues| && v.queues[q].phase.Indexed?
    case Finish(q) => q < |v.queues| && v.queues[q].phase.DonePushed?
    case Announce(q) => q < |v.queues| && v.queues[q].phase.Finished?
    case Unregister(q) => q < |v.queues| && v.queues[q].phase.Announced?
    case Fail(q) => q < |v.queues| && v.queues[q].phase.Demuxing?
    case Check(s) => s < |v.subs| && v.subs[s].phase.Arrived?
    case Subscribe(s, _) => s < |v.subs| && v.subs[s].phase.Missed?
    case Copy(s) =>
      && s < |v.subs| && v.subs[s].phase.Copying? && v.subs[s].phase.q < |v.queues|
      && v.subs[s].phase.next <= |v.queues[v.subs[s].phase.q].batches|
    case ReadDone(s) => s < |v.subs| && v.subs[s].phase.Checking? && v.subs[s].phase.q < |v.queues|
    case Await(s) => s < |v.subs| && v.subs[s].phase.Unarmed? && v.subs[s].phase.q < |v.queues|
    case Wake(s) =>
      && s < |v.subs| && v.subs[s].phase.Waiting? && v.subs[s].phase.q < |v.queues|
      && v.subs[s].phase.heard < v.queues[v.subs[s].phase.q].notified
    case Drain(s) =>
      && s < |v.subs| && v.subs[s].phase.Draining? && v.subs[s].phase.q < |v.queues|
      && v.subs[s].phase.next <= |v.queues[v.subs[s].phase.q].batches|
    case _ => true
  }

  function WithQueue(v: Server, q: nat, queue: Queue): Server
    requires q < |v.queues|
  {
    v.(queues := v.queues[q := queue])
  }

  function InPhase(v: Server, s: nat, phase: SubPhase): Server
    requires s < |v.subs|
  {
    v.(subs := v.subs[s := v.subs[s].(phase := phase)])
  }

  function Delivered(v: Server, s: nat, phase: SubPhase, more: seq<Msg>): Server
    requires s < |v.subs|
  {
    v.(subs := v.subs[s := Sub(phase, v.subs[s].delivered + more)])
  }

  function Next(v: Server, step: Step): Server
    requires Enabled(v, step)
  {
    match step
    case PushBatch(q) =>
      var x := v.queues[q];
      WithQueue(v, q, x.(batches := x.batches + [Messages(x.idx)[|x.batches|]], notified := x.notified + 1))
    case PutIndex(q) =>
      var x := v.queues[q];
      WithQueue(v, q, x.(phase := Indexed)).(cache := if v.cache.None? then Some(x.idx) else v.cache)
    case PushDone(q) =>
      var x := v.queues[q];
      WithQueue(v, q, x.(batches := x.batches + [Done], phase := DonePushed, notified := x.notified + 1))
    case Finish(q) => WithQueue(v, q, v.queues[q].(done := true, phase := Finished))
    case Announce(q) => WithQueue(v, q, v.queues[q].(phase := Announced, notified := v.queues[q].notified + 1))
    case Unregister(q) => WithQueue(v, q, v.queues[q].(phase := Gone)).(registered := None)
    case Fail(q) => WithQueue(v, q, v.queues[q].(phase := Stopped))
    case Evict => v.(cache := None)
    case PutOther(idx) => if v.cache.None? then v.(cache := Some(idx)) else v
    case Arrive => v.(subs := v.subs + [Sub(Arrived, [])])
    case Check(s) =>
      if v.cache.Some? then Delivered(v, s, Answered(v.cache.value), Messages(v.cache.value))
      else InPhase(v, s, Missed)
    case Subscribe(s, found) =>
      if v.registered.Some? then InPhase(v, s, Copying(v.registered.value, 0))
      else
        var started := InPhase(v, s, Copying(|v.queues|, 0));
        started.(registered := Some(|v.queues|), queues := v.queues + [Queue(found, [], false, Demuxing, 0)])
    case Copy(s) =>
      var p := v.subs[s].phase;
      var b := v.queues[p.q].batches;
      Delivered(v, s, Checking(p.q, |b|), b[p.next..])
    case ReadDone(s) =>
      var p := v.subs[s].phase;
      InPhase(v, s, if v.queues[p.q].done then Draining(p.q, p.next) else Unarmed(p.q, p.next))
    case Await(s) =>
      var p := v.subs[s].phase;
      InPhase(v, s, Waiting(p.q, p.next, v.queues[p.q].notified))
    case Wake(s) => InPhase(v, s, Copying(v.subs[s].phase.q, v.subs[s].phase.next))
    case Drain(s) =>
      var p := v.subs[s].phase;
      Delivered(v, s, Left(p.q), v.queues[p.q].batches[p.next..])
  }

  function Initial(): Server { Server(None, None, [], []) }

  predicate IsLive(q: Queue) { !q.phase.Gone? }

  predicate SaysDone(p: Phase) { p.Finished? || p.Announced? || p.Gone? }

  /** A queue has pushed a prefix of its stream, all of it once it is past its last push; `done` says so. */
  predicate QueueOk(q: Queue) {
    && q.batches <= Messages(q.idx)
    && (q.phase.Indexed? ==> |q.batches| + 1 == |Messages(q.idx)|)
    && (q.phase.DonePushed? || SaysDone(q.phase) ==> q.batches == Messages(q.idx))
    && (q.done <==> SaysDone(q.phase))
  }

  /** A subscriber has received exactly the first `next` batches of its queue. */
  predicate SubOk(v: Server, s: Sub) {
    match s.phase
    case Arrived => s.delivered == []
    case Missed => s.delivered == []
    case Answered(idx) => s.delivered == Messages(idx)
    case Copying(q, next) => HasFirst(v, s, q, next)
    case Checking(q, next) => HasFirst(v, s, q, next)
    case Unarmed(q, next) => HasFirst(v, s, q, next)
    case Waiting(q, next, heard) => HasFirst(v, s, q, next) && heard <= v.queues[q].notified
    case Draining(q, next) => HasFirst(v, s, q, next) && v.queues[q].done
    case Left(q) => q < |v.queues| && v.queues[q].done && s.delivered == Messages(v.queues[q].idx)
  }

  predicate HasFirst(v: Server, s: Sub, q: nat, next: nat) {
    q < |v.queues| && next <= |v.queues[q].batches| && s.delivered == v.queues[q].batches[..next]
  }

  ghost predicate QueuesOk(v: Server) { forall q | 0 <= q < |v.queues| :: QueueOk(v.queues[q]) }
  ghost predicate SubsOk(v: Server) { forall s | 0 <= s < |v.subs| :: SubOk(v, v.subs[s]) }

  /** The registered queue is there, and every queue not gone is the registered one. */
  ghost predicate RegistryOk(v: Server) {
    && (v.registered.Some? ==> v.registered.value < |v.queues| && IsLive(v.queues[v.registered.value]))
    && forall q | 0 <= q < |v.queues| && IsLive(v.queues[q]) :: v.registered == Some(q)
  }

  ghost predicate Inv(v: Server) { QueuesOk(v) && SubsOk(v) && RegistryOk(v) }

  /** Queues are only added, keep their index, and only ever push more. */
  ghost predicate Grows(v: Server, w: Server) {
    && |v.queues| <= |w.queues|
    && forall q | 0 <= q < |v.queues| ::
         && w.queues[q].idx == v.queues[q].idx && v.queues[q].batches <= w.queues[q].batches
         && (v.queues[q].done ==> w.queues[q].done) && v.queues[q].notified <= w.queues[q].notified
  }

  lemma SubStaysOk(v: Server, w: Server, s: Sub)
    requires SubOk(v, s) && Grows(v, w)
    ensures SubOk(w, s)
  {
    match s.phase
    case Copying(q, next) => assert w.queues[q].batches[..next] == v.queues[q].batches[..next];
    case Checking(q, next) => assert w.queues[q].batches[..next] == v.queues[q].batches[..next];
    case Unarmed(q, next) => assert w.queues[q].batches[..next] == v.queues[q].batches[..next];
    case Waiting(q, next, _) => assert w.queues[q].batches[..next] == v.queues[q].batches[..next];
    case Draining(q, next) => assert w.queues[q].batches[..next] == v.queues[q].batches[..next];
    case _ =>
  }

  predicate IsQueueStep(step: Step) {
    || step.PushBatch? || step.PutIndex? || step.PushDone? || step.Finish?
    || step.Announce? || step.Unregister? || step.Fail?
  }

  lemma QueueStepKeepsQueues(v: Server, step: Step)
    requires Inv(v) && Enabled(v, step) && IsQueueStep(step)
    ensures QueuesOk(Next(v, step)) && RegistryOk(Next(v, step))
  {
    var w, x := Next(v, step), v.queues[step.q];
    var m := Messages(x.idx);
    assert QueueOk(x);
    if step.PushBatch? {
      assert x.batches + [m[|x.batches|]] == m[..|x.batches|+1];
    } else if step.PushDone? {
      assert m[|m|-1] == Done;
      assert x.batches + [Done] == m;
    }
    assert QueueOk(w.queues[step.q]);
  }

  lemma QueueStepGrows(v: Server, step: Step)
    requires Enabled(v, step) && IsQueueStep(step)
    ensures Grows(v, Next(v, step)) && Next(v, step).subs == v.subs
  {
  }

  lemma SubscribeKeepsQueues(v: Server, s: nat, found: FrameIndex)
    requires Inv(v) && Enabled(v, Subscribe(s, found))
    ensures QueuesOk(Next(v, Subscribe(s, found))) && RegistryOk(Next(v, Subscribe(s, found)))
    ensures Grows(v, Next(v, Subscribe(s, found)))
  {
  }

  lemma CopyIsOk(v: Server, s: nat)
    requires Inv(v) && Enabled(v, Copy(s))
    ensures SubOk(Next(v, Copy(s)), Next(v, Copy(s)).subs[s])
  {
    var p := v.subs[s].phase;
    var b := v.queues[p.q].batches;
    assert SubOk(v, v.subs[s]);
    assert b[..p.next] + b[p.next..] == b == b[..|b|];
  }

  lemma DrainIsOk(v: Server, s: nat)
    requires Inv(v) && Enabled(v, Drain(s))
    ensures SubOk(Next(v, Drain(s)), Next(v, Drain(s)).subs[s])
  {
    var p := v.subs[s].phase;
    var b := v.queues[p.q].batches;
    assert SubOk(v, v.subs[s]) && QueueOk(v.queues[p.q]);
    assert b[..p.next] + b[p.next..] == b;
  }

  predicate IsSubStep(step: Step) {
    step.Check? || step.Subscribe? || step.Copy? || step.ReadDone? || step.Await? || step.Wake? || step.Drain?
  }

  lemma SubStepIsOk(v: Server, step: Step)
    requires Inv(v) && Enabled(v, step) && IsSubStep(step)
    ensures |Next(v, step).subs| == |v.subs| && SubOk(Next(v, step), Next(v, step).subs[step.s])
    ensures forall t | 0 <= t < |v.subs| && t != step.s :: Next(v, step).subs[t] == v.subs[t]
  {
    assert SubOk(v, v.subs[step.s]);
    if step.Copy? { CopyIsOk(v, step.s); }
    if step.Drain? { DrainIsOk(v, step.s); }
  }

  lemma StepKeepsInv(v: Server, step: Step)
    requires Inv(v) && Enabled(v, step)
    ensures Inv(Next(v, step)) && Grows(v, Next(v, step))
  {
    var w := Next(v, step);
    if IsQueueStep(step) {
      QueueStepKeepsQueues(v, step);
      QueueStepGrows(v, step);
    } else if step.Subscribe? {
      SubscribeKeepsQueues(v, step.s, step.found);
    } else {
      assert w.queues == v.queues && w.registered == v.registered;
    }
    if IsSubStep(step) { SubStepIsOk(v, step); }
    forall s | 0 <= s < |w.subs|
      ensures SubOk(w, w.subs[s])
    {
      if !(IsSubStep(step) && s == step.s) && s < |v.subs| { SubStaysOk(v, w, v.subs[s]); }
    }
  }

  ghost predicate IsRun(states: seq<Server>, steps: seq<Step>) {
    && |states| == |steps| + 1 && states[0] == Initial()
    && forall i | 0 <= i < |steps| :: Follows(states, steps, i)
  }

  ghost predicate Follows(states: seq<Server>, steps: seq<Step>, i: nat)
    requires |states| == |steps| + 1 && i < |steps|
  {
    Enabled(states[i], steps[i]) && states[i+1] == Next(states[i], steps[i])
  }

  lemma {:induction false} RunKeepsInv(states: seq<Server>, steps: seq<Step>, n: nat)
    requires IsRun(states, steps) && n <= |steps|
    ensures Inv(states[n])
  {
    if n > 0 {
      RunKeepsInv(states, steps, n - 1);
      assert Follows(states, steps, n - 1);
      StepKeepsInv(states[n-1], steps[n-1]);
    }
  }

  /** The queue a subscriber is bridged to. */
  function BridgeOf(s: Sub): Option<nat> {
    match s.phase
    case Copying(q, _) => Some(q)
    case Checking(q, _) => Some(q)
    case Unarmed(q, _) => Some(q)
    case Waiting(q, _, _) => Some(q)
    case Draining(q, _) => Some(q)
    case Left(q) => Some(q)
    case _ => None
  }

  /** In every interleaving, what a subscriber has received is a gap-free, duplicate-free prefix of what its queue has
      pushed. */
  lemma DeliveriesAreAPrefix(states: seq<Server>, steps: seq<Step>, n: nat, s: nat)
    requires IsRun(states, steps) && n <= |steps| && s < |states[n].subs| && BridgeOf(states[n].subs[s]).Some?
    ensures var q := BridgeOf(states[n].subs[s]).value;
            && q < |states[n].queues|
               && states[n].subs[s].delivered <= states[n].queues[q].batches <= Messages(states[n].queues[q].idx)
  {
    RunKeepsInv(states, steps, n);
    var v, sub := states[n], states[n].subs[s];
    assert SubOk(v, sub);
    assert QueueOk(v.queues[BridgeOf(sub).value]);
  }

  // ---- which index a stream shows ----

  /** Step i brings idx into the server: a new Queue B will find it, or another request puts it into the cache. */
  ghost predicate Brings(states: seq<Server>, steps: seq<Step>, i: int, idx: FrameIndex)
    requires |states| == |steps| + 1
  {
    && 0 <= i < |steps|
    && ((steps[i].Subscribe? && states[i].registered.None? && steps[i].found == idx)
        || (steps[i].PutOther? && states[i].cache.None? && steps[i].idx == idx))
  }

  /** Step i starts queue q, which will find idx. */
  ghost predicate Starts(states: seq<Server>, steps: seq<Step>, i: int, q: nat, idx: FrameIndex)
    requires |states| == |steps| + 1
  {
    Brings(states, steps, i, idx) && steps[i].Subscribe? && |states[i].queues| == q
  }

  /** Step i answers subscriber s from the cache, which holds idx. */
  ghost predicate Answers(states: seq<Server>, steps: seq<Step>, i: int, s: nat, idx: FrameIndex)
    requires |states| == |steps| + 1
  {
    0 <= i < |steps| && steps[i] == Check(s) && states[i].cache == Some(idx)
  }

  lemma QueuesKeepTheirIndex(v: Server, step: Step, q: nat)
    requires Enabled(v, step) && q < |v.queues|
    ensures q < |Next(v, step).queues| && Next(v, step).queues[q].idx == v.queues[q].idx
  {
  }

  lemma {:induction false} QueuesWereStarted(states: seq<Server>, steps: seq<Step>, n: nat, q: nat)
    requires IsRun(states, steps) && n <= |steps| && q < |states[n].queues|
    ensures exists i | i < n :: Starts(states, steps, i, q, states[n].queues[q].idx)
  {
    if n > 0 {
      assert Follows(states, steps, n - 1);
      if q < |states[n-1].queues| {
        QueuesWereStarted(states, steps, n - 1, q);
        QueuesKeepTheirIndex(states[n-1], steps[n-1], q);
        var i :| i < n - 1 && Starts(states, steps, i, q, states[n-1].queues[q].idx);
        assert Starts(states, steps, i, q, states[n].queues[q].idx);
      } else {
        assert Starts(states, steps, n - 1, q, states[n].queues[q].idx);
      }
    }
  }

  lemma {:induction false} CacheWasBrought(states: seq<Server>, steps: seq<Step>, n: nat)
    requires IsRun(states, steps) && n <= |steps| && states[n].cache.Some?
    ensures exists i | i < n :: Brings(states, steps, i, states[n].cache.value)
  {
    if n > 0 {
      var v, step := states[n-1], steps[n-1];
      assert Follows(states, steps, n - 1);
      if v.cache.Some? {
        CacheWasBrought(states, steps, n - 1);
      } else if step.PutIndex? {
        QueuesWereStarted(states, steps, n - 1, step.q);
        var i :| i < n - 1 && Starts(states, steps, i, step.q, v.queues[step.q].idx);
        assert Brings(states, steps, i, states[n].cache.value);
      } else {
        assert Brings(states, steps, n - 1, states[n].cache.value);
      }
    }
  }

  lemma {:induction false} AnsweredWasCached(states: seq<Server>, steps: seq<Step>, n: nat, s: nat)
    requires IsRun(states, steps) && n <= |steps| && s < |states[n].subs| && states[n].subs[s].phase.Answered?
    ensures exists i | i < n :: Answers(states, steps, i, s, states[n].subs[s].phase.idx)
  {
    if n > 0 {
      assert Follows(states, steps, n - 1);
      if s < |states[n-1].subs| && states[n-1].subs[s] == states[n].subs[s] {
        AnsweredWasCached(states, steps, n - 1, s);
      } else {
        assert Answers(states, steps, n - 1, s, states[n].subs[s].phase.idx);
      }
    }
  }

  predicate IsThrough(s: Sub) { s.phase.Answered? || s.phase.Left? }

  /** Whatever the interleaving and whatever each demux finds: a subscriber answered from the cache has received the
      stream of the index that was cached when it looked, and one that left its queue the stream of the index that
      the queue was started for. */
  lemma EveryStreamShowsItsIndex(states: seq<Server>, steps: seq<Step>, n: nat, s: nat)
    requires IsRun(states, steps) && n <= |steps| && s < |states[n].subs|
    ensures states[n].subs[s].phase.Answered? ==>
              exists i, idx | i < n && Answers(states, steps, i, s, idx) :: states[n].subs[s].delivered == Messages(idx)
    ensures states[n].subs[s].phase.Left? ==>
              exists i, idx | i < n && Starts(states, steps, i, states[n].subs[s].phase.q, idx) ::
                states[n].subs[s].delivered == Messages(idx)
  {
    RunKeepsInv(states, steps, n);
    var sub := states[n].subs[s];
    assert SubOk(states[n], sub);
    if sub.phase.Answered? {
      AnsweredWasCached(states, steps, n, s);
    } else if sub.phase.Left? {
      QueuesWereStarted(states, steps, n, sub.phase.q);
    }
  }

  /** So every stream that is through shows one index that some step has brought in. */
  lemma EveryStreamWasBrought(states: seq<Server>, steps: seq<Step>, n: nat, s: nat)
    requires IsRun(states, steps) && n <= |steps| && s < |states[n].subs| && IsThrough(states[n].subs[s])
    ensures exists i, idx | i < n && Brings(states, steps, i, idx) :: states[n].subs[s].delivered == Messages(idx)
  {
    EveryStreamShowsItsIndex(states, steps, n, s);
    if states[n].subs[s].phase.Answered? {
      var i, idx :| i < n && Answers(states, steps, i, s, idx) && states[n].subs[s].delivered == Messages(idx);
      CacheWasBrought(states, steps, i);
      var j :| j < i && Brings(states, steps, j, idx);
      assert Brings(states, steps, j, idx);
    } else {
      var i, idx :| i < n && Starts(states, steps, i, states[n].subs[s].phase.q, idx)
                    && states[n].subs[s].delivered == Messages(idx);
      assert Brings(states, steps, i, idx);
    }
  }

  /** Every demux of the run finds the same index in the file, and so does whoever else fills the cache. */
  ghost predicate FileIsStable(steps: seq<Step>, idx: FrameIndex) {
    forall i | 0 <= i < |steps| ::
      (steps[i].Subscribe? ==> steps[i].found == idx) && (steps[i].PutOther? ==> steps[i].idx == idx)
  }

  /** Then a subscriber that is through has received that stream, from the cache or from any Queue B. */
  lemma EveryFinishedStreamIsTheSame(states: seq<Server>, steps: seq<Step>, n: nat, s: nat, idx: FrameIndex)
    requires IsRun(states, steps) && n <= |steps| && FileIsStable(steps, idx)
    requires s < |states[n].subs| && IsThrough(states[n].subs[s])
    ensures states[n].subs[s].delivered == Messages(idx)
  {
    EveryStreamWasBrought(states, steps, n, s);
  }

  // ---- when all streams agree ----

  /** The indexes a Queue B may find in the file, and those another request may put into the cache. */
  datatype Finds = Finds(demux: FrameIndex -> bool, build: FrameIndex -> bool)

  predicate CanBeFound(f: Finds, idx: FrameIndex) { f.demux(idx) || f.build(idx) }

  predicate AllowedStep(f: Finds, step: Step) {
    (step.Subscribe? ==> f.demux(step.found)) && (step.PutOther? ==> f.build(step.idx))
  }

  ghost predicate Allowed(f: Finds, steps: seq<Step>) { forall i | 0 <= i < |steps| :: AllowedStep(f, steps[i]) }

  ghost predicate Ends(f: Finds, v: Server, states: seq<Server>, steps: seq<Step>) {
    IsRun(states, steps) && Allowed(f, steps) && states[|steps|] == v
  }

  ghost predicate Reachable(f: Finds, v: Server) { exists states, steps :: Ends(f, v, states, steps) }

  /** Any two subscribers that are through, in any run, have received the same. */
  ghost predicate StreamsAgree(f: Finds) {
    forall v, s, t | Reachable(f, v) && 0 <= s < |v.subs| && 0 <= t < |v.subs| && IsThrough(v.subs[s])
      && IsThrough(v.subs[t]) ::
      v.subs[s].delivered == v.subs[t].delivered
  }

  lemma StartIsReachable(f: Finds)
    ensures Reachable(f, Initial())
  {
    assert Ends(f, Initial(), [Initial()], []);
  }

  lemma Steps(f: Finds, v: Server, step: Step) returns (w: Server)
    requires Reachable(f, v) && Enabled(v, step) && AllowedStep(f, step)
    ensures w == Next(v, step) && Reachable(f, w)
  {
    w := Next(v, step);
    var states: seq<Server>, steps: seq<Step> :| Ends(f, v, states, steps);
    var more, longer := states + [w], steps + [step];
    forall i | 0 <= i < |longer|
      ensures Follows(more, longer, i) && AllowedStep(f, longer[i])
    {
      if i < |steps| { assert Follows(states, steps, i) && AllowedStep(f, steps[i]); }
    }
    assert Ends(f, w, more, longer);
  }

  /** Different indexes have different streams. */
  lemma StreamsTellIndexesApart(a: FrameIndex, b: FrameIndex)
    requires Messages(a) == Messages(b)
    ensures a == b
  {
    var ca, cb := Chunks(Entries(a.frames)), Chunks(Entries(b.frames));
    var ma, mb := Messages(a), Messages(b);
    assert |ca| == |cb|;
    forall i | 0 <= i < |ca|
      ensures ca[i] == cb[i]
    {
      assert ma[i+1] == Batch(ca[i]) && mb[i+1] == Batch(cb[i]);
    }
    assert ca == cb;
    ChunksPartition(Entries(a.frames));
    ChunksPartition(Entries(b.frames));
    SameEntries(a.frames, b.frames);
    assert ma[0] == mb[0];
  }

  lemma SameEntries(a: seq<Frame>, b: seq<Frame>)
    requires Entries(a) == Entries(b)
    ensures a == b
  {
    assert |a| == |Entries(a)| == |b|;
    forall i | 0 <= i < |a|
      ensures a[i] == b[i]
    {
      assert Entries(a)[i] == Entries(b)[i];
    }
  }

  lemma {:induction false} PushAll(f: Finds, v: Server, q: nat) returns (w: Server)
    requires Reachable(f, v) && q < |v.queues| && v.queues[q].phase.Demuxing?
    requires |v.queues[q].batches| < |Messages(v.queues[q].idx)|
    ensures Reachable(f, w) && w.(queues := v.queues) == v && |w.queues| == |v.queues|
    ensures w.queues[q].(batches := v.queues[q].batches, notified := v.queues[q].notified) == v.queues[q]
    ensures |w.queues[q].batches| + 1 == |Messages(w.queues[q].idx)|
    decreases |Messages(v.queues[q].idx)| - |v.queues[q].batches|
  {
    w := v;
    if |v.queues[q].batches| + 1 < |Messages(v.queues[q].idx)| {
      var next := Steps(f, v, PushBatch(q));
      w := PushAll(f, next, q);
    }
  }

  /** Nothing cached and nothing registered. */
  predicate IsIdle(v: Server) { v.cache.None? && v.registered.None? }

  /** Subscribers that were through before have what they had. */
  ghost predicate KeepsThrough(v: Server, w: Server) {
    |v.subs| <= |w.subs| && forall s | 0 <= s < |v.subs| :: w.subs[s] == v.subs[s]
  }

  /** A Queue B run to its end on idx leaves it in the cache. */
  lemma FillByDemux(f: Finds, v: Server, idx: FrameIndex) returns (w: Server)
    requires Reachable(f, v) && IsIdle(v) && f.demux(idx)
    ensures Reachable(f, w) && w.cache == Some(idx) && w.registered.None? && KeepsThrough(v, w)
  {
    var s, q := |v.subs|, |v.queues|;
    var v1 := Steps(f, v, Arrive);
    var v2 := Steps(f, v1, Check(s));
    var v3 := Steps(f, v2, Subscribe(s, idx));
    assert KeepsThrough(v, v3);
    var v4 := PushAll(f, v3, q);
    w := RunsToItsEnd(f, v4, q);
  }

  lemma RunsToItsEnd(f: Finds, v: Server, q: nat) returns (w: Server)
    requires Reachable(f, v) && v.cache.None? && q < |v.queues| && v.queues[q].phase.Demuxing?
    requires |v.queues[q].batches| + 1 == |Messages(v.queues[q].idx)|
    ensures Reachable(f, w) && w.cache == Some(v.queues[q].idx) && w.registered.None? && w.subs == v.subs
  {
    w := Steps(f, v, PutIndex(q));
    w := Steps(f, w, PushDone(q));
    w := Steps(f, w, Finish(q));
    w := Steps(f, w, Announce(q));
    w := Steps(f, w, Unregister(q));
  }

  /** From an idle server, some run ends with one more subscriber that has received the stream of idx. */
  lemma Serve(f: Finds, v: Server, idx: FrameIndex) returns (w: Server)
    requires Reachable(f, v) && IsIdle(v) && CanBeFound(f, idx)
    ensures Reachable(f, w) && IsIdle(w) && KeepsThrough(v, w) && |v.subs| < |w.subs|
    ensures w.subs[|w.subs|-1] == Sub(Answered(idx), Messages(idx))
  {
    if f.build(idx) { w := Steps(f, v, PutOther(idx)); } else { w := FillByDemux(f, v, idx); }
    var s := |w.subs|;
    w := Steps(f, w, Arrive);
    w := Steps(f, w, Check(s));
    w := Steps(f, w, Evict);
  }

  lemma DifferentIndexesDisagree(f: Finds, a: FrameIndex, b: FrameIndex)
    requires CanBeFound(f, a) && CanBeFound(f, b) && a != b
    ensures !StreamsAgree(f)
  {
    StartIsReachable(f);
    var v := Serve(f, Initial(), a);
    var w := Serve(f, v, b);
    var s, t := |v.subs| - 1, |w.subs| - 1;
    assert w.subs[s] == v.subs[s];
    if Messages(a) == Messages(b) { StreamsTellIndexesApart(a, b); }
    assert w.subs[s].delivered != w.subs[t].delivered;
  }

  lemma BroughtCanBeFound(f: Finds, v: Server, s: nat) returns (idx: FrameIndex)
    requires Reachable(f, v) && s < |v.subs| && IsThrough(v.subs[s])
    ensures CanBeFound(f, idx) && v.subs[s].delivered == Messages(idx)
  {
    var states: seq<Server>, steps: seq<Step> :| Ends(f, v, states, steps);
    EveryStreamWasBrought(states, steps, |steps|, s);
    var i, x :| i < |steps| && Brings(states, steps, i, x) && states[|steps|].subs[s].delivered == Messages(x);
    assert AllowedStep(f, steps[i]);
    idx := x;
  }

  /** Subscribers cannot tell who served them exactly when there is one index to be found. */
  lemma StreamsAgreeIff(f: Finds)
    ensures StreamsAgree(f) <==> forall a, b | CanBeFound(f, a) && CanBeFound(f, b) :: a == b
  {
    if forall a, b | CanBeFound(f, a) && CanBeFound(f, b) :: a == b {
      forall v, s, t | Reachable(f, v) && 0 <= s < |v.subs| && 0 <= t < |v.subs| && IsThrough(v.subs[s])
        && IsThrough(v.subs[t])
        ensures v.subs[s].delivered == v.subs[t].delivered
      {
        var a := BroughtCanBeFound(f, v, s);
        var b := BroughtCanBeFound(f, v, t);
        assert a == b;
      }
    } else {
      var a, b :| CanBeFound(f, a) && CanBeFound(f, b) && a != b;
      DifferentIndexesDisagree(f, a, b);
    }
  }

  /** What the two demuxes find in one file. */
  function FoundIn(packets: seq<Packet>, stream: int, startMs: int, parser: bool, num: int, den: int): Finds {
    var built := Built(packets, stream, startMs, parser);
    Finds(idx => idx == FrameIndex(Demuxed(packets, stream, startMs), num, den),
          idx => built != [] && idx == FrameIndex(built, num, den))
  }

  /** For one unchanging file: the streams agree if and only if the parser shows no packet at all,
      or every packet at the time the packet carries. */
  lemma FileStreamsAgreeIff(packets: seq<Packet>, stream: int, startMs: int, parser: bool, num: int, den: int)
    ensures StreamsAgree(FoundIn(packets, stream, startMs, parser, num, den)) <==>
            || (forall i | 0 <= i < |packets| && packets[i].stream == stream :: parser && packets[i].parsed.Held?)
            || (forall i | 0 <= i < |packets| && packets[i].stream == stream ::
                ListedAlike(packets[i], startMs, parser))
  {
    var f := FoundIn(packets, stream, startMs, parser, num, den);
    var built, demuxed := Built(packets, stream, startMs, parser), Demuxed(packets, stream, startMs);
    StreamsAgreeIff(f);
    BuiltIsNoLonger(packets, stream, startMs, parser);
    DemuxesAgreeIff(packets, stream, startMs, parser);
    assert f.demux(FrameIndex(demuxed, num, den));
    if built != [] {
      assert f.build(FrameIndex(built, num, den));
      assert CanBeFound(f, FrameIndex(demuxed, num, den)) && CanBeFound(f, FrameIndex(built, num, den));
    }
  }

  /** At most one Queue B per file has not unregistered, and it is the registered one, even when some stop with an
      error. */
  lemma OneLiveQueue(states: seq<Server>, steps: seq<Step>, n: nat, p: nat, q: nat)
    requires IsRun(states, steps) && n <= |steps|
    requires p < |states[n].queues| && IsLive(states[n].queues[p]) && q < |states[n].queues|
             && IsLive(states[n].queues[q])
    ensures p == q && states[n].registered == Some(p)
  {
    RunKeepsInv(states, steps, n);
  }

  // ---- a demux of a cached file ----

  predicate IsPut(step: Step) { step.PutIndex? || step.PutOther? }

  /** Step i puts an index into the cache, and nothing is evicted before step n. */
  ghost predicate PutAndKept(steps: seq<Step>, i: int, n: int) {
    0 <= i < n <= |steps| && IsPut(steps[i]) && forall k | i < k < n :: !steps[k].Evict?
  }

  lemma {:induction false} FilledSinceIff(states: seq<Server>, steps: seq<Step>, m: nat, n: nat)
    requires IsRun(states, steps) && m <= n <= |steps| && states[m].cache.None?
    ensures states[n].cache.Some? <==> exists i | m <= i :: PutAndKept(steps, i, n)
  {
    if m < n {
      FilledSinceIff(states, steps, m, n - 1);
      assert Follows(states, steps, n - 1);
      if IsPut(steps[n-1]) {
        assert PutAndKept(steps, n - 1, n);
      } else if states[n].cache.Some? {
        var i :| m <= i && PutAndKept(steps, i, n - 1);
        assert PutAndKept(steps, i, n);
      } else {
        forall i | m <= i
          ensures !PutAndKept(steps, i, n)
        {
          if PutAndKept(steps, i, n) { assert PutAndKept(steps, i, n - 1); }
        }
      }
    }
  }

  lemma {:induction false} MissedAtItsCheck(states: seq<Server>, steps: seq<Step>, n: nat, s: nat) returns (i: nat)
    requires IsRun(states, steps) && n <= |steps| && s < |states[n].subs| && states[n].subs[s].phase.Missed?
    ensures i < n && steps[i] == Check(s) && states[i].cache.None? && states[i+1].cache.None?
    ensures forall k | i < k < n :: steps[k] != Check(s)
  {
    assert n > 0;
    assert Follows(states, steps, n - 1);
    if s < |states[n-1].subs| && states[n-1].subs[s] == states[n].subs[s] {
      i := MissedAtItsCheck(states, steps, n - 1, s);
    } else {
      i := n - 1;
    }
  }

  /** Checking the cache and registering are two steps: a subscriber registers for a file that is cached by then
      exactly when the index was put in after its check and stayed; it starts a demux if none is registered. */
  lemma RegistersThoughCachedIff(states: seq<Server>, steps: seq<Step>, n: nat, s: nat)
    requires IsRun(states, steps) && n < |steps| && steps[n].Subscribe? && steps[n].s == s
    ensures exists i | 0 <= i < n && steps[i] == Check(s) && states[i].cache.None? ::
              states[n].cache.Some? <==> exists j: int | i < j :: PutAndKept(steps, j, n)
    ensures |states[n+1].queues| == |states[n].queues| + (if states[n].registered.None? then 1 else 0)
  {
    assert Follows(states, steps, n);
    var i := MissedAtItsCheck(states, steps, n, s);
    FilledSinceIff(states, steps, i + 1, n);
  }

  /** The shortest such run. */
  lemma QueueMayStartForACachedFile(idx: FrameIndex) returns (states: seq<Server>, steps: seq<Step>)
    ensures IsRun(states, steps)
    ensures var v := states[|steps|];
            v.cache == Some(idx) && v.registered == Some(0) && v.queues == [Queue(idx, [], false, Demuxing, 0)]
  {
    steps := [Arrive, Check(0), PutOther(idx), Subscribe(0, idx)];
    var s1 := Server(None, None, [], [Sub(Arrived, [])]);
    var s2 := Server(None, None, [], [Sub(Missed, [])]);
    var s3 := Server(Some(idx), None, [], [Sub(Missed, [])]);
    var s4 := Server(Some(idx), Some(0), [Queue(idx, [], false, Demuxing, 0)], [Sub(Copying(0, 0), [])]);
    assert s1 == Next(Initial(), Arrive) && s2 == Next(s1, Check(0));
    assert s3 == Next(s2, PutOther(idx)) && s4 == Next(s3, Subscribe(0, idx));
    states := [Initial(), s1, s2, s3, s4];
  }

  // ---- subscribers that never get through ----

  /** Waiting for a queue that has notified for the last time. */
  predicate IsStuck(v: Server, s: nat) {
    && s < |v.subs| && v.subs[s].phase.Waiting? && v.subs[s].phase.q < |v.queues|
    && var q := v.queues[v.subs[s].phase.q];
       (q.phase.Announced? || q.phase.Gone? || q.phase.Stopped?) && q.notified == v.subs[s].phase.heard
  }

  lemma StuckStep(v: Server, step: Step, s: nat)
    requires Enabled(v, step) && IsStuck(v, s)
    ensures IsStuck(Next(v, step), s) && Next(v, step).subs[s] == v.subs[s]
  {
  }

  /** Nothing that happens later wakes it. */
  lemma {:induction false} StuckForever(states: seq<Server>, steps: seq<Step>, n: nat, m: nat, s: nat)
    requires IsRun(states, steps) && n <= m <= |steps| && IsStuck(states[n], s)
    ensures IsStuck(states[m], s) && states[m].subs[s] == states[n].subs[s]
    decreases m
  {
    if n < m {
      StuckForever(states, steps, n, m - 1, s);
      assert Follows(states, steps, m - 1);
      StuckStep(states[m-1], steps[m-1], s);
    }
  }

  /** Subscriber s reads done as false at step r and starts to wait at step w, and that is the last it did before n. */
  ghost predicate Waits(states: seq<Server>, steps: seq<Step>, r: int, w: int, n: int, s: nat)
    requires |states| == |steps| + 1
  {
    && 0 <= r < w < n <= |steps| && steps[r] == ReadDone(s) && steps[w] == Await(s)
    && forall k | r < k < n && k != w :: !(IsSubStep(steps[k]) && steps[k].s == s)
  }

  lemma OwnStepsOnly(v: Server, step: Step, s: nat)
    requires Enabled(v, step) && s < |v.subs|
    ensures s < |Next(v, step).subs|
    ensures Next(v, step).subs[s] != v.subs[s] ==> IsSubStep(step) && step.s == s
    ensures IsSubStep(step) && step.s == s ==> Next(v, step).subs[s].phase != v.subs[s].phase
  {
  }

  lemma NewcomersArrive(v: Server, step: Step, s: nat)
    requires Enabled(v, step) && |v.subs| <= s < |Next(v, step).subs|
    ensures Next(v, step).subs[s].phase.Arrived?
  {
  }

  lemma UnarmedByReadDone(v: Server, step: Step, s: nat)
    requires Enabled(v, step) && s < |v.subs| && IsSubStep(step) && step.s == s && Next(v, step).subs[s].phase.Unarmed?
    ensures step == ReadDone(s) && !v.queues[Next(v, step).subs[s].phase.q].done
  {
  }

  lemma {:induction false} UnarmedSince(states: seq<Server>, steps: seq<Step>, n: nat, s: nat) returns (r: nat)
    requires IsRun(states, steps) && n <= |steps| && s < |states[n].subs| && states[n].subs[s].phase.Unarmed?
    ensures r < n && steps[r] == ReadDone(s) && states[n].subs[s].phase.q < |states[r].queues|
    ensures !states[r].queues[states[n].subs[s].phase.q].done
    ensures forall k | r < k < n :: !(IsSubStep(steps[k]) && steps[k].s == s)
  {
    var v, step := states[n-1], steps[n-1];
    assert Follows(states, steps, n - 1);
    if s >= |v.subs| {
      NewcomersArrive(v, step, s);
      assert false;
    } else if IsSubStep(step) && step.s == s {
      UnarmedByReadDone(v, step, s);
      r := n - 1;
    } else {
      OwnStepsOnly(v, step, s);
      r := UnarmedSince(states, steps, n - 1, s);
    }
  }

  lemma WaitingByAwait(v: Server, step: Step, s: nat)
    requires Enabled(v, step) && s < |v.subs| && IsSubStep(step) && step.s == s && Next(v, step).subs[s].phase.Waiting?
    ensures step == Await(s) && v.subs[s].phase.Unarmed? && v.subs[s].phase.q == Next(v, step).subs[s].phase.q
    ensures v.queues[v.subs[s].phase.q].notified == Next(v, step).subs[s].phase.heard
  {
  }

  /** How a subscriber came to wait: done was false when it read the flag, and it counts what it hears from when it
      starts to wait. */
  lemma {:induction false} WaitingSince(states: seq<Server>, steps: seq<Step>, n: nat, s: nat) returns (r: nat, w: nat)
    requires IsRun(states, steps) && n <= |steps| && s < |states[n].subs| && states[n].subs[s].phase.Waiting?
    ensures Waits(states, steps, r, w, n, s)
    ensures var p := states[n].subs[s].phase;
            && p.q < |states[r].queues| && !states[r].queues[p.q].done
            && p.q < |states[w].queues| && states[w].queues[p.q].notified == p.heard
  {
    var v, step := states[n-1], steps[n-1];
    assert Follows(states, steps, n - 1);
    if s >= |v.subs| {
      NewcomersArrive(v, step, s);
      assert false;
    } else if IsSubStep(step) && step.s == s {
      WaitingByAwait(v, step, s);
      w := n - 1;
      r := UnarmedSince(states, steps, w, s);
    } else {
      OwnStepsOnly(v, step, s);
      r, w := WaitingSince(states, steps, n - 1, s);
    }
  }

  predicate HasAnnounced(p: Phase) { p.Announced? || p.Gone? }

  lemma AnnouncedStep(v: Server, step: Step, q: nat)
    requires Enabled(v, step) && q < |v.queues|
    ensures q < |Next(v, step).queues|
    ensures var x, y := v.queues[q], Next(v, step).queues[q];
            && (HasAnnounced(x.phase) ==> HasAnnounced(y.phase) && y.notified == x.notified)
            && (!HasAnnounced(x.phase) && HasAnnounced(y.phase) ==> step == Announce(q) && y.notified == x.notified + 1)
            && (step == Announce(q) ==> !HasAnnounced(x.phase) && HasAnnounced(y.phase))
  {
  }

  lemma NotificationsGrow(v: Server, step: Step, q: nat)
    requires Enabled(v, step) && q < |v.queues|
    ensures q < |Next(v, step).queues| && v.queues[q].notified <= Next(v, step).queues[q].notified
  {
  }

  /** A queue announces at most once, and after that its count of notifications stands still. */
  lemma {:induction false} AnnouncedStays(states: seq<Server>, steps: seq<Step>, m: nat, n: nat, q: nat)
    requires IsRun(states, steps) && m <= n <= |steps| && q < |states[m].queues|
             && HasAnnounced(states[m].queues[q].phase)
    ensures q < |states[n].queues| && HasAnnounced(states[n].queues[q].phase)
    ensures states[n].queues[q].notified == states[m].queues[q].notified
    ensures forall a | m <= a < n :: steps[a] != Announce(q)
  {
    if m < n {
      AnnouncedStays(states, steps, m, n - 1, q);
      assert Follows(states, steps, n - 1);
      AnnouncedStep(states[n-1], steps[n-1], q);
    }
  }

  lemma {:induction false} AnnouncedBetween(states: seq<Server>, steps: seq<Step>, m: nat, n: nat, q: nat)
    returns (a: nat)
    requires IsRun(states, steps) && m <= n <= |steps| && q < |states[m].queues|
             && !HasAnnounced(states[m].queues[q].phase)
    requires q < |states[n].queues| && HasAnnounced(states[n].queues[q].phase)
    ensures m <= a < n && steps[a] == Announce(q) && states[m].queues[q].notified < states[n].queues[q].notified
    decreases n - m
  {
    assert Follows(states, steps, m);
    AnnouncedStep(states[m], steps[m], q);
    NotificationsGrow(states[m], steps[m], q);
    if HasAnnounced(states[m+1].queues[q].phase) {
      AnnouncedStays(states, steps, m + 1, n, q);
      a := m;
    } else {
      a := AnnouncedBetween(states, steps, m + 1, n, q);
    }
  }

  lemma {:induction false} QueuesStay(states: seq<Server>, steps: seq<Step>, m: nat, n: nat, q: nat)
    requires IsRun(states, steps) && m <= n <= |steps| && q < |states[m].queues|
    ensures q < |states[n].queues|
  {
    if m < n {
      QueuesStay(states, steps, m, n - 1, q);
      assert Follows(states, steps, n - 1);
      QueuesKeepTheirIndex(states[n-1], steps[n-1], q);
    }
  }

  /** Not announced when s read the flag, announced by step n: when was it? */
  lemma AnnouncedBeforeIff(states: seq<Server>, steps: seq<Step>, r: nat, w: nat, n: nat, q: nat)
    requires IsRun(states, steps) && r < w <= n <= |steps| && q < |states[r].queues| && !states[r].queues[q].done
    requires steps[r].ReadDone? && q < |states[n].queues| && HasAnnounced(states[n].queues[q].phase)
    ensures q < |states[w].queues|
    ensures states[w].queues[q].notified == states[n].queues[q].notified <==>
              exists a | r < a < w :: steps[a] == Announce(q)
  {
    RunKeepsInv(states, steps, r);
    assert QueueOk(states[r].queues[q]);
    QueuesStay(states, steps, r, w, q);
    if HasAnnounced(states[w].queues[q].phase) {
      AnnouncedStays(states, steps, w, n, q);
      var a := AnnouncedBetween(states, steps, r, w, q);
      assert r < a < w;
    } else {
      var b := AnnouncedBetween(states, steps, w, n, q);
      if a: nat :| r < a < w && steps[a] == Announce(q) {
        QueuesStay(states, steps, r, a, q);
        assert Follows(states, steps, a);
        AnnouncedStep(states[a], steps[a], q);
        AnnouncedStays(states, steps, a + 1, w, q);
      }
    }
  }

  /** A subscriber waiting for a queue that is through will wait forever if and only if the queue announced that it
      was done after the subscriber had read the flag and before it began to wait; otherwise it can go on. */
  lemma StuckIff(states: seq<Server>, steps: seq<Step>, n: nat, s: nat) returns (r: nat, w: nat)
    requires IsRun(states, steps) && n <= |steps| && s < |states[n].subs| && states[n].subs[s].phase.Waiting?
    requires states[n].subs[s].phase.q < |states[n].queues|
             && HasAnnounced(states[n].queues[states[n].subs[s].phase.q].phase)
    ensures Waits(states, steps, r, w, n, s)
    ensures IsStuck(states[n], s) <==> exists a | r < a < w :: steps[a] == Announce(states[n].subs[s].phase.q)
    ensures IsStuck(states[n], s) <==> !Enabled(states[n], Wake(s))
  {
    r, w := WaitingSince(states, steps, n, s);
    AnnouncedBeforeIff(states, steps, r, w, n, states[n].subs[s].phase.q);
    RunKeepsInv(states, steps, n);
    assert SubOk(states[n], states[n].subs[s]);
  }

  /** Such a run, for any index: all of it has been pushed, and the subscriber has received nothing and never will. */
  lemma WakeUpMayBeLost(f: Finds, idx: FrameIndex) returns (v: Server)
    requires f.demux(idx)
    ensures Reachable(f, v) && IsStuck(v, 0)
    ensures v.subs[0].delivered == [] && v.queues[0].batches == Messages(idx) && v.queues[0].done
  {
    v := ReadsTooEarly(f, idx);
    v := PushAll(f, v, 0);
    assert v.queues[0].idx == idx && v.queues[0].phase.Demuxing? && v.subs == [Sub(Unarmed(0, 0), [])];
    v := AnnounceAll(f, v);
    FinishedQueueIsComplete(f, v, 0);
    v := Steps(f, v, Await(0));
  }

  lemma ReadsTooEarly(f: Finds, idx: FrameIndex) returns (v: Server)
    requires f.demux(idx)
    ensures Reachable(f, v)
            && v == Server(None, Some(0), [Queue(idx, [], false, Demuxing, 0)], [Sub(Unarmed(0, 0), [])])
  {
    StartIsReachable(f);
    v := Steps(f, Initial(), Arrive);
    v := Steps(f, v, Check(0));
    v := Steps(f, v, Subscribe(0, idx));
    var queue: seq<Msg> := v.queues[0].batches;
    assert v.subs == [Sub(Copying(0, 0), [])] && queue == [];
    assert v.subs[0].delivered + queue[0..] == [];
    v := Steps(f, v, Copy(0));
    assert v.subs == [Sub(Checking(0, 0), [])];
    v := Steps(f, v, ReadDone(0));
    assert v.subs == [Sub(Unarmed(0, 0), [])];
  }

  lemma AnnounceAll(f: Finds, v: Server) returns (w: Server)
    requires Reachable(f, v) && |v.queues| > 0 && v.queues[0].phase.Demuxing?
    requires |v.queues[0].batches| + 1 == |Messages(v.queues[0].idx)|
    ensures Reachable(f, w) && w.subs == v.subs && |w.queues| == |v.queues|
    ensures w.queues[0].phase.Announced? && w.queues[0].idx == v.queues[0].idx
  {
    w := Steps(f, v, PutIndex(0));
    w := Steps(f, w, PushDone(0));
    w := Steps(f, w, Finish(0));
    w := Steps(f, w, Announce(0));
  }

  lemma FinishedQueueIsComplete(f: Finds, v: Server, q: nat)
    requires Reachable(f, v) && q < |v.queues| && SaysDone(v.queues[q].phase)
    ensures v.queues[q].batches == Messages(v.queues[q].idx) && v.queues[q].done
  {
    var states: seq<Server>, steps: seq<Step> :| Ends(f, v, states, steps);
    RunKeepsInv(states, steps, |steps|);
    assert QueueOk(v.queues[q]);
  }

  lemma StoppedStep(v: Server, step: Step, q: nat)
    requires Enabled(v, step) && q < |v.queues| && v.queues[q].phase.Stopped?
    ensures q < |Next(v, step).queues| && Next(v, step).queues[q] == v.queues[q]
  {
  }

  lemma {:induction false} StoppedStays(states: seq<Server>, steps: seq<Step>, n: nat, m: nat, q: nat)
    requires IsRun(states, steps) && n <= m <= |steps| && q < |states[n].queues| && states[n].queues[q].phase.Stopped?
    ensures q < |states[m].queues| && states[m].queues[q] == states[n].queues[q]
    decreases m
  {
    if n < m {
      StoppedStays(states, steps, n, m - 1, q);
      assert Follows(states, steps, m - 1);
      StoppedStep(states[m-1], steps[m-1], q);
    }
  }

  /** A demux that stops with an error stays registered: from then on no subscriber of its queue gets through,
      and everyone who still registers joins that queue. */
  lemma FailedDemuxBlocksTheFile(states: seq<Server>, steps: seq<Step>, n: nat, m: nat, q: nat)
    requires IsRun(states, steps) && n <= m <= |steps| && q < |states[n].queues| && states[n].queues[q].phase.Stopped?
    ensures states[m].registered == Some(q)
    ensures forall s | 0 <= s < |states[m].subs| && BridgeOf(states[m].subs[s]) == Some(q) ::
              !IsThrough(states[m].subs[s])
    ensures m < |steps| && steps[m].Subscribe? ==>
              steps[m].s < |states[m+1].subs| && BridgeOf(states[m+1].subs[steps[m].s]) == Some(q)
  {
    StoppedStays(states, steps, n, m, q);
    RunKeepsInv(states, steps, m);
    assert QueueOk(states[m].queues[q]) && IsLive(states[m].queues[q]);
    forall s | 0 <= s < |states[m].subs| && BridgeOf(states[m].subs[s]) == Some(q)
      ensures !IsThrough(states[m].subs[s])
    {
      assert SubOk(states[m], states[m].subs[s]);
    }
    if m < |steps| { assert Follows(states, steps, m); }
  }
}
