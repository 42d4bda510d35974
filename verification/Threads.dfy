/**
 * The threads as code: the ingress program, the vacuum worker and the consumer, run against
 * shared memory that the other threads may change before every one of their steps.
 * Each is shown to continue the run of the pipeline machine, the worker step for step.
 */
module Threads {
  import opened Words
  import opened SignalFrames
  import opened Vacuum
  import opened Filter
  import opened ProtoViews
  import opened Pipeline
  import opened PipelineInv
  import opened PipelineTheorems
  import opened PipelineShutdown
  import opened PipelineRuns

  // ---------------------------------------------------------------------
  // The other threads
  // ---------------------------------------------------------------------

  /** Threads other than `me` try the events of the chunk in order; those not enabled at their turn do not happen. */
  function Attempt(me: Actor, s: State, chunk: seq<Event>): State {
    if chunk == [] then s
    else
      var before := Attempt(me, s, chunk[..|chunk| - 1]);
      var e := chunk[|chunk| - 1];
      if ActorOf(e) != me && Enabled(before, e) then Apply(before, e) else before
  }

  /** What the others try next; when the script has run out, the signal arrives. */
  function NextChunk(script: seq<seq<Event>>): seq<Event> {
    if script == [] then [Signal] else script[0]
  }

  function Rest(script: seq<seq<Event>>): seq<seq<Event>> {
    if script == [] then [] else script[1..]
  }

  /** What an event of another thread leaves alone. */
  ghost predicate Untouched(me: Actor, s: State, s': State) {
    && (me == WorkerThread ==> s'.w == s.w)
    && |s'.k.cpu| == |s.k.cpu| && |s'.k.ctr| == |s.k.ctr| && |s'.k.slot| == |s.k.slot|
    && (me.Cpu? && me.c < |s.k.cpu| == |s.k.ctr| == |s.k.slot| ==>
          s'.k.cpu[me.c] == s.k.cpu[me.c] && s'.k.ctr[me.c] == s.k.ctr[me.c] && s'.k.slot[me.c] == s.k.slot[me.c])
    && s.k.produced <= s'.k.produced && s.k.now <= s'.k.now
    && (s.shutdown ==> s'.shutdown)
  }

  lemma OthersLeaveAlone(me: Actor, s: State, e: Event)
    requires Enabled(s, e) && ActorOf(e) != me
    ensures Untouched(me, s, Apply(s, e))
  {
    hide Parse, Encode;
  }

  lemma {:induction false} AttemptLeavesAlone(me: Actor, s: State, chunk: seq<Event>)
    ensures Untouched(me, s, Attempt(me, s, chunk))
  {
    hide Enabled, Apply;
    if chunk != [] {
      var before := Attempt(me, s, chunk[..|chunk| - 1]);
      AttemptLeavesAlone(me, s, chunk[..|chunk| - 1]);
      var e := chunk[|chunk| - 1];
      if ActorOf(e) != me && Enabled(before, e) { OthersLeaveAlone(me, before, e); }
    }
  }

  lemma {:induction false} AttemptInv(me: Actor, s: State, chunk: seq<Event>)
    requires Inv(s)
    ensures Inv(Attempt(me, s, chunk))
  {
    hide Inv, Enabled, Apply;
    if chunk != [] {
      var before := Attempt(me, s, chunk[..|chunk| - 1]);
      AttemptInv(me, s, chunk[..|chunk| - 1]);
      var e := chunk[|chunk| - 1];
      if ActorOf(e) != me && Enabled(before, e) { StepInv(before, e); }
    }
  }

  /** Scripts leave the others every freedom: whatever they could do in any number of steps, some first entry has them do. */
  lemma {:induction false} AnyInterference(me: Actor, s: State, es: seq<Event>, rest: seq<seq<Event>>)
    requires Run(s, es).Some? && forall e | e in es :: ActorOf(e) != me
    ensures Attempt(me, s, NextChunk([es] + rest)) == Run(s, es).value && Rest([es] + rest) == rest
  {
    hide Enabled, Apply;
    if es != [] { AnyInterference(me, s, es[..|es| - 1], rest); }
  }

  lemma SignalArrives(s: State)
    ensures Attempt(WorkerThread, s, [Signal]).shutdown
  {
    assert [Signal][..0] == [];
    assert Attempt(WorkerThread, s, []) == s;
  }

  /** What the worker finds before its next step. */
  ghost function Seen(s: State, script: seq<seq<Event>>): (seen: State)
    requires Inv(s)
    ensures Inv(seen) && seen.w == s.w && (script == [] || s.shutdown ==> seen.shutdown)
  {
    AttemptInv(WorkerThread, s, NextChunk(script));
    AttemptLeavesAlone(WorkerThread, s, NextChunk(script));
    SignalArrives(s);
    Attempt(WorkerThread, s, NextChunk(script))
  }

  /**
   * The machine's worker beside the scripted others: it takes its one enabled step again and again, the others
   * acting before each, until it has exited.
   */
  ghost function WorkerRuns(s: State, script: seq<seq<Event>>): State
    requires Inv(s)
    decreases |script|, Rank(s.w)
  {
    if s.w.pc.Exited? then s
    else
      var seen := Seen(s, script);
      var e := NextStep(seen.w);
      WorkerStep(seen, script);
      WorkerRuns(Apply(seen, e), Rest(script))
  }

  lemma WorkerStep(seen: State, script: seq<seq<Event>>)
    requires Inv(seen) && !seen.w.pc.Exited? && (script == [] ==> seen.shutdown)
    ensures ActorOf(NextStep(seen.w)) == WorkerThread && Enabled(seen, NextStep(seen.w))
    ensures Inv(Apply(seen, NextStep(seen.w)))
    ensures script == [] ==> Rank(Apply(seen, NextStep(seen.w)).w) < Rank(seen.w)
  {
    hide WorkerInv, KernelInv, RingInv, ChannelInv, NextStep, Enabled, Apply, Rank;
    NextStepEnabled(seen);
    StepInv(seen, NextStep(seen.w));
    if script == [] { StoppingStep(seen, NextStep(seen.w)); }
  }

  lemma WorkerRunsUnfold(s: State, script: seq<seq<Event>>)
    requires Inv(s) && !s.w.pc.Exited?
    ensures var seen := Seen(s, script);
            && Enabled(seen, NextStep(s.w)) && Inv(Apply(seen, NextStep(s.w)))
            && WorkerRuns(s, script) == WorkerRuns(Apply(seen, NextStep(s.w)), Rest(script))
  {
    hide Inv, Enabled, Apply, NextStep;
    WorkerStep(Seen(s, script), script);
  }

  // ---------------------------------------------------------------------
  // Shared memory
  // ---------------------------------------------------------------------

  /** Shared memory, the events so far, and a finite script of what the other threads will try to do. */
  class Shared {
    ghost const ncpu: nat
    ghost const start: u64
    ghost var trace: seq<Event>
    var st: State
    var script: seq<seq<Event>>

    ghost predicate Valid()
      reads this
    {
      IsRun(ncpu, start, trace, st)
    }

    constructor (ncpu: nat, start: u64, script: seq<seq<Event>>)
      requires ncpu <= U32_MOD
      ensures Valid() && st == Init(ncpu, start) && trace == [] && this.script == script
      ensures this.ncpu == ncpu && this.start == start
    {
      this.ncpu := ncpu;
      this.start := start;
      this.trace := [];
      this.st := Init(ncpu, start);
      this.script := script;
    }

    /** One atomic action. */
    method Step(e: Event)
      requires Valid() && Enabled(st, e)
      modifies this`st, this`trace
      ensures Valid() && st == Apply(old(st), e) && trace == old(trace) + [e]
    {
      RunSnoc(ncpu, start, trace, st, e);
      st := Apply(st, e);
      trace := trace + [e];
    }

    /** The other threads act. */
    method Interfere(me: Actor)
      requires Valid()
      modifies this
      ensures Valid() && old(trace) <= trace && script == Rest(old(script))
      ensures st == Attempt(me, old(st), NextChunk(old(script))) && Untouched(me, old(st), st)
    {
      hide IsRun, Enabled, Apply, Untouched;
      var chunk := NextChunk(script);
      script := Rest(script);
      var i := 0;
      while i < |chunk|
        invariant i <= |chunk| && Valid() && old(trace) <= trace && script == Rest(old(script))
        invariant st == Attempt(me, old(st), chunk[..i])
      {
        assert chunk[..i + 1][..i] == chunk[..i];
        if ActorOf(chunk[i]) != me && Enabled(st, chunk[i]) {
          Step(chunk[i]);
        }
        i := i + 1;
      }
      assert chunk[..i] == chunk;
      AttemptLeavesAlone(me, old(st), chunk);
    }

    /** One worker step, after the others have acted; `seen` is the memory it acts on. */
    method Act(e: Event) returns (seen: State)
      requires Valid() && !st.w.pc.Exited? && e == NextStep(st.w)
      modifies this
      ensures Valid() && old(trace) <= trace && script == Rest(old(script))
      ensures Inv(old(st)) && seen == Seen(old(st), old(script)) && Enabled(seen, e) && st == Apply(seen, e)
      ensures Inv(st) && WorkerRuns(st, script) == WorkerRuns(old(st), old(script))
    {
      hide IsRun, Enabled, Apply, Inv, Attempt, NextStep, WorkerRuns;
      RunReaches(this);
      ReachableInv(st);
      WorkerRunsUnfold(st, script);
      Interfere(WorkerThread);
      seen := st;
      Step(e);
    }
  }

  lemma RunReaches(sh: Shared)
    requires sh.Valid()
    ensures Reachable(sh.st)
  {}

  // ---------------------------------------------------------------------
  // The vacuum worker
  // ---------------------------------------------------------------------

  /** The worker's program point and its locals agree with the machine's. */
  ghost predicate At(sh: Shared, pc: Pc, batch: seq<SignalFrame>, lastTs: u64)
    reads sh
  {
    sh.Valid() && Inv(sh.st) && sh.st.w.pc == pc && sh.st.w.batch == batch && sh.st.w.lastTs == lastTs
  }

  /** Where the machine's worker ends up from here. */
  ghost function Destiny(sh: Shared): State
    reads sh
    requires Inv(sh.st)
  {
    WorkerRuns(sh.st, sh.script)
  }

  /** One turn of the drain loop with a ring item in hand: validate, then drop or push. */
  method Validate(sh: Shared, i: nat, item: Item, batch: seq<SignalFrame>, lastTs: u64)
    returns (batch': seq<SignalFrame>, lastTs': u64)
    requires At(sh, Took(i, item), batch, lastTs)
    modifies sh
    ensures At(sh, Draining(i + 1), batch', lastTs') && Destiny(sh) == old(Destiny(sh))
    ensures sh.st.w == CheckTaken(old(sh.st.w))
    ensures old(sh.trace) <= sh.trace && |sh.script| <= |old(sh.script)|
  {
    hide IsRun, Parse, KernelInv, FoldOk, SplitOk, CountsOk, RingInv, ChannelInv, WorkerRuns, Attempt;
    batch', lastTs' := batch, lastTs;
    var seen := sh.Act(Check);
    if |item| != SIGNAL_FRAME_SIZE {
      return;
    }
    var frame := Parse(item).value;
    if frame.timestampNs < SaturatingSub(lastTs, TIMESTAMP_SLACK_NS) {
      return;
    }
    lastTs' := frame.timestampNs;
    batch' := batch + [frame];
  }

  /** Drain up to a batch of items, stopping early at an empty ring. */
  method Drain(sh: Shared, lastTs0: u64) returns (batch: seq<SignalFrame>, lastTs: u64)
    requires At(sh, Draining(0), [], lastTs0)
    modifies sh
    ensures At(sh, Dispatching, batch, lastTs) && Destiny(sh) == old(Destiny(sh))
    ensures old(sh.trace) <= sh.trace && |sh.script| <= |old(sh.script)|
  {
    hide IsRun, Parse, Inv, WorkerRuns, Attempt, Encode, Seen, KernelSized, AcceptOn, StampOn, OutputOn, CheckTaken;
    batch, lastTs := [], lastTs0;
    var i := 0;
    while i < BATCH_SIZE
      invariant i <= BATCH_SIZE && At(sh, Draining(i), batch, lastTs) && Destiny(sh) == old(Destiny(sh))
      invariant old(sh.trace) <= sh.trace && |sh.script| <= |old(sh.script)|
    {
      var seen := sh.Act(RingNext);
      if seen.ring == [] {
        return;
      }
      batch, lastTs := Validate(sh, i, seen.ring[0], batch, lastTs);
      i := i + 1;
    }
    var seen := sh.Act(EndDrain);
  }

  /** Offer the batch frame by frame, counting each outcome. */
  method Dispatch(sh: Shared, batch0: seq<SignalFrame>, lastTs: u64)
    requires At(sh, Dispatching, batch0, lastTs)
    modifies sh
    ensures At(sh, Top, [], lastTs) && Destiny(sh) == old(Destiny(sh))
    ensures sh.st.w.taken == old(sh.st.w.taken) && sh.st.w.offered == old(sh.st.w.offered) + old(sh.st.w.pending)
    ensures FramesAt(sh.st.w.taken, old(sh.st.w.pending), batch0)
    ensures old(sh.trace) <= sh.trace && |sh.script| <= |old(sh.script)|
  {
    hide IsRun, Inv, WorkerRuns, Attempt, FramesAt, Seen, Enabled, Apply, TrySendResult;
    PendingIsBatch(sh.st);
    var batch := batch0;
    while batch != []
      invariant At(sh, Dispatching, batch, lastTs) && Destiny(sh) == old(Destiny(sh))
      invariant sh.st.w.taken == old(sh.st.w.taken)
      invariant sh.st.w.offered + sh.st.w.pending == old(sh.st.w.offered) + old(sh.st.w.pending)
      invariant old(sh.trace) <= sh.trace && |sh.script| <= |old(sh.script)|
      decreases |batch|
    {
      PendingIsBatch(sh.st);
      var seen := sh.Act(TrySend);
      SendEffect(seen);
      batch := batch[1..];
      match TrySendResult(seen.ch)
      case SendOk => seen := sh.Act(Count); CountEffect(seen);
      case SendFull => seen := sh.Act(Count); CountEffect(seen);
      case SendDisconnected =>
    }
    PendingIsBatch(sh.st);
    var seen := sh.Act(EndBatch);
    EndEffect(seen);
  }

  lemma SendEffect(s: State)
    requires Inv(s) && Enabled(s, TrySend)
    ensures var (w, w') := (s.w, Apply(s, TrySend).w);
            && w'.batch == w.batch[1..] && w'.lastTs == w.lastTs && w'.taken == w.taken
            && w'.offered + w'.pending == w.offered + w.pending
            && w'.pc == match TrySendResult(s.ch)
                        case SendOk => SentUncounted
                        case SendFull => FullUncounted
                        case SendDisconnected => Dispatching
  {
    hide Inv, FramesAt, Encode;
    PendingIsBatch(s);
  }

  lemma CountEffect(s: State)
    requires Enabled(s, Count)
    ensures var (w, w') := (s.w, Apply(s, Count).w); w' == w.(pc := Dispatching, ok := w'.ok, full := w'.full)
  {}

  lemma EndEffect(s: State)
    requires Enabled(s, EndBatch)
    ensures Apply(s, EndBatch).w == s.w.(pc := Top)
  {}

  lemma PendingIsBatch(s: State)
    requires Inv(s)
    ensures |s.w.pending| == |s.w.batch| && FramesAt(s.w.taken, s.w.pending, s.w.batch)
  {
    hide KernelInv, RingInv, ChannelInv, SplitOk, CountsOk;
  }

  /** The poll loop does, beside any other threads, exactly what the machine's worker does, and ends hung up. */
  method VacuumEntry(sh: Shared)
    requires At(sh, Top, [], 0)
    modifies sh
    ensures sh.Valid() && old(sh.trace) <= sh.trace && Grows(old(sh.st), sh.st)
    ensures sh.st == old(Destiny(sh)) && sh.st.w.pc.Exited? && !sh.st.ch.tx && !sh.st.exited && sh.st.shutdown
    ensures |sh.st.w.taken| == sh.st.w.dropped + sh.st.w.ok + sh.st.w.full
    ensures FramesAt(sh.st.w.taken, sh.st.w.offered, Fold(sh.st.w.taken))
  {
    hide IsRun, Inv, WorkerRuns, Attempt, Grows;
    var lastTs: u64 := 0;
    while true
      invariant At(sh, Top, [], lastTs) && Destiny(sh) == old(Destiny(sh))
      invariant old(sh.trace) <= sh.trace
      decreases |sh.script|
    {
      var seen := sh.Act(LoadFlag);
      if seen.shutdown { break; }
      var batch;
      batch, lastTs := Drain(sh, lastTs);
      Dispatch(sh, batch, lastTs);
    }
    NotExited(sh.st);
    AttemptNoExit(sh.st, NextChunk(sh.script));
    var seen := sh.Act(HangUp);
    DestinyReached(sh.st, sh.script);
    RunReaches(sh);
    WorkerFinished(sh.st);
    LongerRunContinues(sh.ncpu, sh.start, old(sh.trace), old(sh.st), sh.trace, sh.st);
  }

  lemma NotExited(s: State)
    requires Inv(s) && !s.w.pc.Exited?
    ensures !s.exited
  {}

  /** The process does not end while the worker is still there to be joined. */
  lemma {:induction false} AttemptNoExit(s: State, chunk: seq<Event>)
    requires !s.exited && !s.w.pc.Exited?
    ensures !Attempt(WorkerThread, s, chunk).exited && Attempt(WorkerThread, s, chunk).w == s.w
  {
    hide Encode;
    AttemptLeavesAlone(WorkerThread, s, chunk);
    if chunk != [] {
      AttemptNoExit(s, chunk[..|chunk| - 1]);
      AttemptLeavesAlone(WorkerThread, s, chunk[..|chunk| - 1]);
    }
  }

  lemma DestinyReached(s: State, script: seq<seq<Event>>)
    requires Inv(s) && s.w.pc.Exited?
    ensures WorkerRuns(s, script) == s
  {}

  lemma WorkerFinished(s: State)
    requires Reachable(s) && s.w.pc.Exited?
    ensures s.w.batch == [] && |s.w.taken| == s.w.dropped + s.w.ok + s.w.full
    ensures FramesAt(s.w.taken, s.w.offered, Fold(s.w.taken))
  {
    ReachableInv(s);
    Conservation(s);
    PendingIsBatch(s);
    FoldIsKept(s.w.taken);
    hide KernelInv, RingInv, ChannelInv, SplitOk, CountsOk, KeptIdx, LastTs, Fold, FramesAt;
    assert s.w.offered + s.w.pending == s.w.offered;
  }

  // ---------------------------------------------------------------------
  // The consumer, once the worker has hung up
  // ---------------------------------------------------------------------

  function Min(a: nat, b: nat): nat {
    if a < b then a else b
  }

  /**
   * The receive loop, for as many turns as the process lets it have: it takes the queue from the front and ends by
   * itself exactly when it has more turns than there are frames.
   */
  method ConsumerDrain(sh: Shared, turns: nat) returns (done: bool)
    requires sh.Valid() && !sh.st.ch.tx && sh.st.ch.rx && !sh.st.exited
    modifies sh
    ensures sh.Valid() && old(sh.trace) <= sh.trace && sh.st.w == old(sh.st.w) && !sh.st.exited
    ensures old(sh.st.shutdown) ==> sh.st.shutdown
    ensures var n := Min(turns, |old(sh.st.ch.queue)|);
            && sh.st.ch.received == old(sh.st.ch.received) + old(sh.st.ch.queue)[..n]
            && sh.st.ch.queue == old(sh.st.ch.queue)[n..]
    ensures done <==> turns > |old(sh.st.ch.queue)|
    ensures done <==> !sh.st.ch.rx
    ensures done ==> |sh.st.ch.received| == sh.st.w.ok && FramesAt(sh.st.w.taken, sh.st.w.sent, sh.st.ch.received)
  {
    hide IsRun, FramesAt;
    done := false;
    var i := 0;
    while i < turns
      invariant i <= turns && i <= |old(sh.st.ch.queue)|
      invariant sh.Valid() && old(sh.trace) <= sh.trace && sh.st.w == old(sh.st.w)
      invariant !sh.st.ch.tx && sh.st.ch.rx && !sh.st.exited && (old(sh.st.shutdown) ==> sh.st.shutdown)
      invariant sh.st.ch.received == old(sh.st.ch.received) + old(sh.st.ch.queue)[..i]
      invariant sh.st.ch.queue == old(sh.st.ch.queue)[i..]
    {
      Quiesce(sh);
      if sh.st.ch.queue == [] {
        sh.Step(RecvErr);
        RunReaches(sh);
        ConsumerLeavesWithAll(sh.st);
        done := true;
        return;
      }
      sh.Step(Recv);
      i := i + 1;
    }
  }

  /** Other threads run, short of ending the process; with the sender gone they cannot touch the channel. */
  method Quiesce(sh: Shared)
    requires sh.Valid() && !sh.st.ch.tx && !sh.st.exited
    modifies sh
    ensures sh.Valid() && old(sh.trace) <= sh.trace && sh.st.ch == old(sh.st.ch) && sh.st.w == old(sh.st.w)
    ensures !sh.st.exited && (old(sh.st.shutdown) ==> sh.st.shutdown)
  {
    hide IsRun, Enabled, Apply, Inv;
    var chunk := NextChunk(sh.script);
    sh.script := Rest(sh.script);
    var i := 0;
    while i < |chunk|
      invariant i <= |chunk| && sh.Valid() && old(sh.trace) <= sh.trace
      invariant sh.st.ch == old(sh.st.ch) && sh.st.w == old(sh.st.w)
      invariant !sh.st.exited && (old(sh.st.shutdown) ==> sh.st.shutdown)
    {
      if ActorOf(chunk[i]) != ConsumerThread && !chunk[i].ProcessExit? && Enabled(sh.st, chunk[i]) {
        RunReaches(sh);
        ReachableInv(sh.st);
        QuietStep(sh.st, chunk[i]);
        sh.Step(chunk[i]);
      }
      i := i + 1;
    }
  }

  lemma QuietStep(s: State, e: Event)
    requires Inv(s) && !s.ch.tx && Enabled(s, e) && ActorOf(e) != ConsumerThread && !e.ProcessExit?
    ensures var s' := Apply(s, e); s'.ch == s.ch && s'.w == s.w && s'.exited == s.exited && (s.shutdown ==> s'.shutdown)
  {
    HungUpStep(s, e);
    hide KernelInv, WorkerInv, RingInv;
  }

  /**
   * A whole capture. The worker runs to its end beside the scripted others; main then ends the process after the
   * consumer has had `turns` more turns. The run that was performed comes back with the final memory: what the worker
   * did is what the machine's worker does, and the consumer has received what it had plus a prefix of the channel.
   */
  method Capture(ncpu: nat, start: u64, script: seq<seq<Event>>, turns: nat) returns (s: State, ghost es: seq<Event>)
    requires ncpu <= U32_MOD
    ensures IsRun(ncpu, start, es, s) && s.exited
    ensures Inv(Init(ncpu, start))
    ensures var s1 := WorkerRuns(Init(ncpu, start), script);
            var n := if s1.ch.rx then Min(turns, |s1.ch.queue|) else 0;
            && s.w == s1.w && s.ch.received == s1.ch.received + s1.ch.queue[..n] && s.ch.queue == s1.ch.queue[n..]
    ensures s.w.ok == |s.ch.received| + |s.ch.queue| && |s.ch.queue| <= 1024
    ensures FramesAt(s.w.taken, s.w.sent, s.ch.received + s.ch.queue)
    ensures FramesAt(s.w.taken, s.w.offered, Fold(s.w.taken))
    ensures |s.w.taken| == s.w.dropped + s.w.ok + s.w.full
  {
    hide IsRun, FramesAt, Inv, WorkerRuns, Attempt, Grows;
    InitInv(ncpu, start);
    var sh := new Shared(ncpu, start, script);
    VacuumEntry(sh);
    if sh.st.ch.rx {
      var done := ConsumerDrain(sh, turns);
    } else {
      RunReaches(sh);
      ConsumerLeavesWithAll(sh.st);
    }
    sh.Step(ProcessExit);
    RunReaches(sh);
    AtProcessExit(sh.st);
    s, es := sh.st, sh.trace;
  }

  // ---------------------------------------------------------------------
  // The ingress program on CPU c
  // ---------------------------------------------------------------------

  /**
   * Parse, select, stamp, fill in, output. `fits` is whether the kernel grants the output; without room for the
   * record it cannot.
   */
  method XdpIngress(sh: Shared, c: nat, packet: seq<u8>, deny: DenyMap, fits: bool)
    requires sh.Valid() && c < |sh.st.k.cpu| && KernelSized(sh.st.k) && sh.st.k.cpu[c].Idle?
    modifies sh
    ensures sh.Valid() && old(sh.trace) <= sh.trace
    ensures KernelSized(sh.st.k) && c < |sh.st.k.cpu| == |old(sh.st.k.cpu)| && sh.st.k.cpu[c].Idle?
    ensures !Relevant(packet, deny) || old(sh.st.k.ctr[c]) >= 1_000_000 ==>
              sh.st.k.ctr[c] == old(sh.st.k.ctr[c]) && sh.st.k.slot[c] == old(sh.st.k.slot[c])
    ensures Relevant(packet, deny) && old(sh.st.k.ctr[c]) < 1_000_000 ==>
              && |packet| >= 54
              && sh.st.k.ctr[c] == old(sh.st.k.ctr[c]) + 1
              && |sh.st.k.slot[c]| == |old(sh.st.k.slot[c])| + 1
              && sh.st.k.slot[c][..|sh.st.k.slot[c]| - 1] == old(sh.st.k.slot[c])
              && var outcome := sh.st.k.slot[c][|sh.st.k.slot[c]| - 1];
                 && Emitted(sh.st.k, c, outcome, packet, old(sh.st.k.ctr[c]), old(sh.st.k.now))
                 && RoomDecides(sh.st, outcome, fits)
  {
    hide IsRun, Untouched, Inspect, DenyCheck, FlowHash, PacketHash, Encode, Attempt;
    CpuUntouched(c);
    sh.Interfere(Cpu(c));
    var view := Inspect(packet);
    if view.None? { return; }
    ViewOfPacket(packet);
    var (result, ctr') := SelectSpec(view.value, deny, sh.st.k.ctr[c]);
    if result.None? { return; }
    FlowHashFits(view.value);
    sh.Step(Accept(c, result.value.flowHash, view.value.l3Hdr));
    sh.Interfere(Cpu(c));
    var outcome := StampAndOutput(sh, c, fits);
  }

  /** Just after an output: the newest ring item is the new frame, or the output was not granted or had no room. */
  ghost predicate RoomDecides(s: State, outcome: Slot, fits: bool) {
    && (outcome.OnRing? ==>
          fits && outcome.j == |s.k.produced| - 1 && s.ring != [] && s.ring[|s.ring| - 1] == Encode(s.k.produced[outcome.j]))
    && (!outcome.OnRing? ==> outcome == RingFull && (!fits || RING_RECORD * (|s.ring| + 1) > RING_BYTES))
  }

  /** The second half of the program: read the clock, complete the frame, try to put it on the ring. */
  method StampAndOutput(sh: Shared, c: nat, fits: bool) returns (outcome: Slot)
    requires sh.Valid() && c < |sh.st.k.cpu| && KernelSized(sh.st.k) && sh.st.k.cpu[c].Accepted? && sh.st.k.slot[c] != []
    modifies sh
    ensures sh.Valid() && old(sh.trace) <= sh.trace
    ensures KernelSized(sh.st.k) && c < |sh.st.k.cpu| == |old(sh.st.k.cpu)| && sh.st.k.cpu[c].Idle?
    ensures sh.st.k.ctr[c] == old(sh.st.k.ctr[c]) && sh.st.k.slot[c] == Land(old(sh.st.k.slot[c]), outcome)
    ensures RoomDecides(sh.st, outcome, fits)
    ensures outcome.OnRing? ==>
              var a, f := old(sh.st.k.cpu[c]), sh.st.k.produced[outcome.j];
              && f == BuildFrame(a.flowHash, a.l3Hdr, a.pps, c, f.timestampNs)
              && old(sh.st.k.now) <= f.timestampNs <= sh.st.k.now
  {
    hide IsRun, Untouched, Encode, Attempt;
    CpuUntouched(c);
    sh.Step(Stamp(c));
    sh.Interfere(Cpu(c));
    var room := fits && RING_RECORD * (|sh.st.ring| + 1) <= RING_BYTES;
    outcome := if room then OnRing(|sh.st.k.produced|) else RingFull;
    sh.Step(Output(c, room));
  }

  lemma FlowHashFits(view: ProtoView)
    ensures FlowHash(view) / U32_MOD == 0
  {
    var h: u32 := FlowHash(view);
  }

  lemma CpuUntouched(c: nat)
    ensures forall s, s' | Untouched(Cpu(c), s, s') && c < |s.k.cpu| && KernelSized(s.k) ::
              KernelSized(s'.k) && |s'.k.cpu| == |s.k.cpu| && s'.k.cpu[c] == s.k.cpu[c]
              && s'.k.ctr[c] == s.k.ctr[c] && s'.k.slot[c] == s.k.slot[c] && s.k.now <= s'.k.now
  {}

  /** The ring refused the frame, or it is there with the packet's data, the CPU's count and a stamp from within the call. */
  ghost predicate Emitted(k: Kernel, c: nat, outcome: Slot, packet: seq<u8>, pps: u64, entered: u64)
    requires |packet| >= 54
  {
    outcome == RingFull ||
    (&& outcome.OnRing? && outcome.j < |k.produced|
     && var f := k.produced[outcome.j];
        && f.cpuId == c && f.ppsDelta == pps && f.l3Hdr == packet[14..34] && f.flowHash == PacketHash(packet)
        && f.l4Flags == 0 && entered <= f.timestampNs <= k.now
        && forall i | 0 <= i < 16 :: f.pad[i] == 0)
  }

  // ---------------------------------------------------------------------
  // Which workers are started
  // ---------------------------------------------------------------------

  /** The loop over the ring handles; `slots[i]` says whether slot i holds a ring. */
  method SpawnWorkers(slots: seq<bool>, requested: nat) returns (workers: seq<nat>)
    ensures forall i | i in workers :: i < |slots| && i < requested && i < 32 && slots[i]
    ensures forall i: nat | i < |slots| && i < requested && i < 32 && slots[i] :: i in workers
    ensures Increasing(workers)
  {
    var workerCount := if requested < NCPU then requested else NCPU;
    workers := [];
    var i := 0;
    while i < |slots| && i < workerCount
      invariant i <= |slots| && i <= workerCount
      invariant forall k | k in workers :: k < i && slots[k]
      invariant forall k: nat | k < i && slots[k] :: k in workers
      invariant Increasing(workers)
    {
      if slots[i] {
        forall k | 0 <= k < |workers| ensures workers[k] < i { assert workers[k] in workers; }
        workers := workers + [i];
      }
      i := i + 1;
    }
  }

  /** With the one shared ring in slot 0 there is exactly one worker, unless none was asked for. */
  method SpawnOnSharedRing(requested: nat) returns (workers: seq<nat>)
    ensures workers == if requested == 0 then [] else [0]
  {
    var slots := seq(NCPU, i => i == 0);
    workers := SpawnWorkers(slots, requested);
    OnlyZero(workers);
  }

  lemma OnlyZero(workers: seq<nat>)
    requires Increasing(workers) && forall i | i in workers :: i == 0
    ensures workers == if 0 in workers then [0] else []
  {
    forall k | 0 <= k < |workers| ensures workers[k] == 0 { assert workers[k] in workers; }
    DistinctBelow(workers, 1);
    if |workers| == 1 { assert workers == [0]; }
  }
}
