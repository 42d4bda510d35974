/** Concrete runs: a frame dropped that was merely overtaken, and a process that ends with a counted frame undelivered. */
module PipelineWitness {
  import opened Words
  import opened SignalFrames
  import opened Pipeline
  import opened PipelineTheorems
  import opened PipelineShutdown
  import opened PipelineRuns

  /** One more event. */
  lemma Then(ncpu: nat, now: u64, es: seq<Event>, s: State, e: Event) returns (es': seq<Event>, s': State)
    requires IsRun(ncpu, now, es, s) && Enabled(s, e)
    ensures IsRun(ncpu, now, es', s') && es' == es + [e] && s' == Apply(s, e)
  {
    RunSnoc(ncpu, now, es, s, e);
    es', s' := es + [e], Apply(s, e);
  }

  /** CPU 0 stamps at t0, CPU 1 stamps later at t1 but is the first to reach the ring. */
  lemma OvertakenOnRing(h: u32, l3Hdr: L3Header, t0: u64, t1: u64) returns (es: seq<Event>, s: State)
    requires t0 <= t1
    ensures IsRun(2, t0, es, s)
    ensures var (f, g) := (BuildFrame(h, l3Hdr, 0, 1, t1), BuildFrame(h, l3Hdr, 0, 0, t0));
            && s.k.produced == [f, g] && s.ring == [Encode(f), Encode(g)]
            && s.k.slot == [[OnRing(1)], [OnRing(0)]]
    ensures s.w == Init(2, t0).w && s.ch == Init(2, t0).ch && !s.shutdown
  {
    hide IsRun, Encode;
    es, s := Started(2, t0);
    es, s := Then(2, t0, es, s, Accept(0, h, l3Hdr));
    es, s := Then(2, t0, es, s, Stamp(0));
    es, s := Then(2, t0, es, s, Accept(1, h, l3Hdr));
    es, s := Then(2, t0, es, s, Tick(t1));
    es, s := Then(2, t0, es, s, Stamp(1));
    es, s := Then(2, t0, es, s, Output(1, true));
    es, s := Then(2, t0, es, s, Output(0, true));
    assert s.k.slot[0] == [OnRing(1)] && s.k.slot[1] == [OnRing(0)];
  }

  lemma Started(ncpu: nat, now: u64) returns (es: seq<Event>, s: State)
    requires ncpu <= U32_MOD
    ensures IsRun(ncpu, now, es, s) && es == [] && s == Init(ncpu, now)
  {
    es, s := [], Init(ncpu, now);
  }

  /**
   * For every two stamps t0 < t1 there is a run in which the frame stamped t0, from a CPU that sent nothing before,
   * is dropped as a timestamp error because the frame stamped t1 of another CPU overtook it.
   */
  lemma OvertakenIsDropped(h: u32, l3Hdr: L3Header, t0: u64, t1: u64) returns (es: seq<Event>, s: State)
    requires t0 < t1
    ensures IsRun(2, t0, es, s) && Overtakes(s.k, 0, 1)
    ensures s.w.dropped == 1 && |s.k.produced| == 2
    ensures |s.k.slot| == 2 && |s.k.slot[0]| == |s.k.slot[1]| == 1
    ensures FateOf(s, 0, 0) == LostTimestamp && FateOf(s, 1, 0) == InBatch
  {
    hide IsRun, Encode, Parse;
    es, s := OvertakenOnRing(h, l3Hdr, t0, t1);
    ParseEncode(s.k.produced[0]);
    ParseEncode(s.k.produced[1]);
    es, s := Then(2, t0, es, s, LoadFlag);
    es, s := Then(2, t0, es, s, RingNext);
    es, s := Then(2, t0, es, s, Check);
    es, s := Then(2, t0, es, s, RingNext);
    es, s := Then(2, t0, es, s, Check);
  }

  /** One CPU between packets, a worker that has not run, n frames on the ring. */
  predicate Waiting(s: State, n: nat, t: u64) {
    && KernelSized(s.k) && |s.k.cpu| == 1 && s.k.cpu[0].Idle? && s.k.ctr[0] == n && s.k.now == t
    && |s.ring| == n && s.w == Init(1, t).w && s.ch == Init(1, t).ch && !s.shutdown
    && forall x | x in s.ring :: Parse(x).Some? && Parse(x).value.timestampNs == t
  }

  lemma WaitOneMore(t: u64, es0: seq<Event>, s0: State, n: nat) returns (es: seq<Event>, s: State)
    requires IsRun(1, t, es0, s0) && Waiting(s0, n, t) && n < 3640
    ensures IsRun(1, t, es, s) && Waiting(s, n + 1, t)
  {
    hide IsRun, Encode, Parse;
    es, s := Then(1, t, es0, s0, Accept(0, 0, Zeroed().l3Hdr));
    es, s := Then(1, t, es, s, Stamp(0));
    ParseEncode(s.k.cpu[0].frame);
    es, s := Then(1, t, es, s, Output(0, true));
  }

  lemma {:induction false} FillRing(t: u64, n: nat) returns (es: seq<Event>, s: State)
    requires n <= 3640
    ensures IsRun(1, t, es, s) && Waiting(s, n, t)
  {
    hide IsRun;
    if n == 0 {
      es, s := Started(1, t);
    } else {
      hide Waiting;
      es, s := FillRing(t, n - 1);
      es, s := WaitOneMore(t, es, s, n - 1);
    }
  }

  /** The ring does fill up: 3640 frames wait, and the next packet of the only CPU can only be refused. */
  lemma RingFillsUp(t: u64) returns (es: seq<Event>, s: State)
    ensures IsRun(1, t, es, s) && |s.ring| == 3640 && |s.k.cpu| == 1 && s.k.cpu[0].Stamped?
    ensures Enabled(s, Output(0, false)) && !Enabled(s, Output(0, true))
  {
    hide IsRun, Encode;
    es, s := FillRing(t, 3640);
    es, s := Then(1, t, es, s, Accept(0, 0, Zeroed().l3Hdr));
    es, s := Then(1, t, es, s, Stamp(0));
  }

  /** One CPU between packets, the worker at its flag, nothing received, n frames sent and counted. */
  predicate Piled(s: State, n: nat, t: u64) {
    && KernelSized(s.k) && |s.k.cpu| == 1 && s.k.cpu[0].Idle? && s.k.ctr[0] == n && s.k.now == t
    && s.ring == [] && s.w.pc.Top? && s.w.batch == [] && s.w.pending == [] && s.w.lastTs <= t
    && s.w.ok == n && |s.ch.queue| == n && s.ch.received == [] && s.ch.rx && !s.shutdown && !s.exited
  }

  /** One more packet goes all the way into the channel. */
  lemma PileOne(t: u64, es0: seq<Event>, s0: State, n: nat) returns (es: seq<Event>, s: State)
    requires IsRun(1, t, es0, s0) && Piled(s0, n, t) && n < DISPATCH_CAPACITY
    ensures IsRun(1, t, es, s) && Piled(s, n + 1, t)
  {
    hide IsRun, Encode, Parse;
    es, s := CaptureOne(t, es0, s0, n);
    es, s := ValidateOne(t, es, s, s.ring[0]);
    es, s := Then(1, t, es, s, RingNext);
    es, s := Then(1, t, es, s, TrySend);
    es, s := Then(1, t, es, s, Count);
    es, s := Then(1, t, es, s, EndBatch);
  }

  lemma CaptureOne(t: u64, es0: seq<Event>, s0: State, n: nat) returns (es: seq<Event>, s: State)
    requires IsRun(1, t, es0, s0) && Piled(s0, n, t) && n < DISPATCH_CAPACITY
    ensures IsRun(1, t, es, s) && KernelSized(s.k) && |s.k.cpu| == 1 && s.k.cpu[0].Idle? && s.k.ctr[0] == n + 1 && s.k.now == t
    ensures |s.ring| == 1 && Parse(s.ring[0]).Some? && Parse(s.ring[0]).value.timestampNs == t
    ensures s.w == s0.w && s.ch == s0.ch && !s.shutdown && !s.exited
  {
    hide IsRun, Encode, Parse;
    es, s := Then(1, t, es0, s0, Accept(0, 0, Zeroed().l3Hdr));
    es, s := Then(1, t, es, s, Stamp(0));
    ParseEncode(s.k.cpu[0].frame);
    es, s := Then(1, t, es, s, Output(0, true));
  }

  lemma ValidateOne(t: u64, es0: seq<Event>, s0: State, item: Item) returns (es: seq<Event>, s: State)
    requires IsRun(1, t, es0, s0) && s0.w.pc.Top? && !s0.shutdown && s0.w.lastTs <= t
    requires s0.ring == [item] && Parse(item).Some? && Parse(item).value.timestampNs == t
    ensures IsRun(1, t, es, s) && s.k == s0.k && s.ch == s0.ch && s.ring == [] && !s.shutdown && s.exited == s0.exited
    ensures s.w.pc == Draining(1) && |s.w.batch| == 1 && |s.w.pending| == 1 && s.w.lastTs == t && s.w.ok == s0.w.ok
  {
    hide IsRun, Encode, Parse;
    es, s := Then(1, t, es0, s0, LoadFlag);
    es, s := Then(1, t, es, s, RingNext);
    es, s := Then(1, t, es, s, Check);
  }

  lemma {:induction false} PileUp(t: u64, n: nat) returns (es: seq<Event>, s: State)
    requires n <= DISPATCH_CAPACITY
    ensures IsRun(1, t, es, s) && Piled(s, n, t)
  {
    hide IsRun;
    if n == 0 {
      es, s := Started(1, t);
    } else {
      hide Piled;
      es, s := PileUp(t, n - 1);
      es, s := PileOne(t, es, s, n - 1);
    }
  }

  /**
   * The process can end with any number of counted frames left in the channel, up to its capacity: the consumer may not
   * have run at all.
   */
  lemma ExitLeavesFrames(t: u64, n: nat) returns (es: seq<Event>, s: State)
    requires n <= DISPATCH_CAPACITY
    ensures IsRun(1, t, es, s) && s.exited && s.w.ok == n && |s.ch.queue| == n && s.ch.received == []
  {
    hide IsRun;
    es, s := PileUp(t, n);
    es, s := Then(1, t, es, s, Signal);
    es, s := Then(1, t, es, s, LoadFlag);
    es, s := Then(1, t, es, s, HangUp);
    es, s := Then(1, t, es, s, ProcessExit);
  }

  // ---------------------------------------------------------------------
  // The longest shutdown
  // ---------------------------------------------------------------------

  /** One more event of a continuation. */
  lemma Next(s0: State, es: seq<Event>, s: State, e: Event) returns (es': seq<Event>, s': State)
    requires Run(s0, es) == Some(s) && Enabled(s, e)
    ensures Run(s0, es') == Some(s') && s' == Apply(s, e)
    ensures WorkerSteps(es') == WorkerSteps(es) + (if ActorOf(e) == WorkerThread then 1 else 0)
  {
    hide Enabled, Apply;
    es', s' := es + [e], Apply(s, e);
    assert es'[..|es|] == es;
  }

  /** A stopping worker in its drain loop, i items taken and kept, the rest of 256 waiting. */
  predicate DrainingAt(s: State, i: nat, t: u64) {
    && s.shutdown && i <= 256 && s.w.pc == Draining(i) && |s.w.batch| == |s.w.pending| == |s.w.taken| == i && s.w.lastTs <= t
    && s.ch == Channel([], true, true, []) && |s.ring| == 256 - i
    && forall x | x in s.ring :: Parse(x).Some? && Parse(x).value.timestampNs == t
  }

  lemma DrainOne(s0: State, es0: seq<Event>, s1: State, i: nat, t: u64) returns (es: seq<Event>, s: State)
    requires Run(s0, es0) == Some(s1) && DrainingAt(s1, i, t) && i < 256
    ensures Run(s0, es) == Some(s) && DrainingAt(s, i + 1, t) && WorkerSteps(es) == WorkerSteps(es0) + 2
  {
    hide Run, WorkerSteps, Parse;
    assert s1.ring[0] in s1.ring;
    es, s := Next(s0, es0, s1, RingNext);
    es, s := Next(s0, es, s, Check);
  }

  lemma {:induction false} DrainUpTo(s0: State, i: nat, t: u64) returns (es: seq<Event>, s: State)
    requires DrainingAt(s0, 0, t) && i <= 256
    ensures Run(s0, es) == Some(s) && DrainingAt(s, i, t) && WorkerSteps(es) == 2 * i
  {
    hide DrainingAt;
    if i == 0 {
      es, s := [], s0;
    } else {
      es, s := DrainUpTo(s0, i - 1, t);
      es, s := DrainOne(s0, es, s, i - 1, t);
    }
  }

  /** A stopping worker in its dispatch loop, j frames left. */
  predicate DispatchingAt(s: State, j: nat) {
    && s.shutdown && s.w.pc.Dispatching? && j <= 256 && |s.w.batch| == j && |s.w.taken| == 256
    && s.ch.rx && |s.ch.queue| == 256 - j
  }

  lemma {:induction false} DispatchAll(s0: State, es0: seq<Event>, s1: State, j: nat) returns (es: seq<Event>, s: State)
    requires Run(s0, es0) == Some(s1) && DispatchingAt(s1, j)
    ensures Run(s0, es) == Some(s) && DispatchingAt(s, 0) && WorkerSteps(es) == WorkerSteps(es0) + 2 * j
    decreases j
  {
    hide Run, WorkerSteps;
    if j == 0 {
      es, s := es0, s1;
    } else {
      es, s := Next(s0, es0, s1, TrySend);
      es, s := Next(s0, es, s, Count);
      es, s := DispatchAll(s0, es, s, j - 1);
    }
  }

  /** 256 frames wait, the worker has begun a batch, and the signal arrives. */
  lemma SignalMidBatch(t: u64) returns (es: seq<Event>, s: State)
    ensures IsRun(1, t, es, s) && DrainingAt(s, 0, t)
  {
    hide IsRun, Parse, Encode;
    es, s := FillRing(t, 256);
    es, s := Then(1, t, es, s, LoadFlag);
    es, s := Then(1, t, es, s, Signal);
  }

  /** Both bounds of a shutdown are reached: 256 more items are taken and 1028 worker steps made after the signal. */
  lemma LongestShutdown(t: u64) returns (s0: State, es: seq<Event>, s: State)
    ensures Reachable(s0) && s0.shutdown && Run(s0, es) == Some(s)
    ensures s.w.pc.Exited? && WorkerSteps(es) == 1028 && |s.w.taken| == |s0.w.taken| + 256
  {
    hide Run, WorkerSteps, IsRun;
    var es0;
    es0, s0 := SignalMidBatch(t);
    assert Reachable(s0);
    es, s := DrainUpTo(s0, 256, t);
    es, s := Next(s0, es, s, EndDrain);
    es, s := DispatchAll(s0, es, s, 256);
    es, s := Next(s0, es, s, EndBatch);
    es, s := Next(s0, es, s, LoadFlag);
    es, s := Next(s0, es, s, HangUp);
  }
}
