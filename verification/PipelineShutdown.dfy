/** From the shutdown signal to the last frame: what every continuation of a run can still do. */
module PipelineShutdown {
  import opened Words
  import opened SignalFrames
  import opened Vacuum
  import opened Pipeline
  import opened PipelineInv

  /** The flag is set, or the worker has already seen it. */
  predicate Stopping(s: State) {
    s.shutdown || s.w.pc.Leaving? || s.w.pc.Exited?
  }

  function Left(i: nat): nat {
    if i <= BATCH_SIZE then BATCH_SIZE - i else 0
  }

  /** How many ring items a stopping worker can still take: the rest of the batch it has begun. */
  function Budget(pc: Pc): nat {
    match pc
    case Draining(i) => Left(i)
    case Took(i, _) => Left(i + 1)
    case _ => 0
  }

  /** How many worker steps a stopping worker can still make. */
  function Rank(w: Worker): nat {
    match w.pc
    case Exited => 0
    case Leaving => 1
    case Top => 2
    case Dispatching => 3 + 2 * |w.batch|
    case SentUncounted => 4 + 2 * |w.batch|
    case FullUncounted => 4 + 2 * |w.batch|
    case Draining(i) => 4 + 2 * |w.batch| + 4 * Left(i)
    case Took(i, _) => 7 + 2 * |w.batch| + 4 * Left(i + 1)
  }

  function WorkerSteps(es: seq<Event>): nat {
    if es == [] then 0
    else WorkerSteps(es[..|es| - 1]) + (if ActorOf(es[|es| - 1]) == WorkerThread then 1 else 0)
  }

  function Receives(es: seq<Event>): nat {
    if es == [] then 0 else Receives(es[..|es| - 1]) + (if es[|es| - 1].Recv? then 1 else 0)
  }

  lemma StoppingStep(s: State, e: Event)
    requires Inv(s) && Stopping(s) && Enabled(s, e)
    ensures var s' := Apply(s, e);
            && Stopping(s') && Rank(s'.w) + (if ActorOf(e) == WorkerThread then 1 else 0) <= Rank(s.w)
            && |s'.w.taken| + Budget(s'.w.pc) <= |s.w.taken| + Budget(s.w.pc)
  {
    hide KernelInv, FoldOk, SplitOk, CountsOk, RingInv, ChannelInv, Parse, Passes, Encode, AcceptOn, StampOn, OutputOn;
  }

  /** After the flag is stored every continuation takes at most the rest of one batch and runs out of worker steps. */
  lemma {:induction false} ShutdownBounded(s: State, es: seq<Event>)
    requires Inv(s) && Stopping(s) && Run(s, es).Some?
    ensures var s' := Run(s, es).value;
            && Inv(s') && Stopping(s') && WorkerSteps(es) + Rank(s'.w) <= Rank(s.w)
            && |s'.w.taken| + Budget(s'.w.pc) <= |s.w.taken| + Budget(s.w.pc)
  {
    hide Inv, Stopping, Rank, Budget, Apply, Enabled;
    if es != [] {
      var front := es[..|es| - 1];
      ShutdownBounded(s, front);
      StoppingStep(Run(s, front).value, es[|es| - 1]);
      StepInv(Run(s, front).value, es[|es| - 1]);
    }
  }

  /** In every run: at most 256 items and 1,028 worker steps from the signal on, and no item once the flag is observed. */
  lemma ShutdownDrains(s: State, es: seq<Event>)
    requires Reachable(s) && Stopping(s) && Run(s, es).Some?
    ensures var s' := Run(s, es).value;
            && |s'.w.taken| <= |s.w.taken| + 256
            && WorkerSteps(es) <= 1028
            && (s.w.pc.Leaving? || s.w.pc.Exited? ==> |s'.w.taken| <= |s.w.taken|)
  {
    hide Reachable, KernelInv, FoldOk, SplitOk, CountsOk, RingInv, ChannelInv, Run, WorkerSteps;
    ReachableInv(s);
    ShutdownBounded(s, es);
  }

  /** A stopping worker that has not exited has a step to take: it does exit. */
  lemma WorkerNeverStuck(s: State)
    requires Reachable(s) && !s.w.pc.Exited?
    ensures exists e: Event :: ActorOf(e) == WorkerThread && Enabled(s, e)
  {
    ReachableInv(s);
    hide KernelInv, WorkerInv, RingInv, ChannelInv, Enabled, NextStep;
    NextStepEnabled(s);
  }

  /** The one step the worker's code takes next. */
  function NextStep(w: Worker): Event {
    match w.pc
    case Top => LoadFlag
    case Draining(i) => if i < BATCH_SIZE then RingNext else EndDrain
    case Took(_, _) => Check
    case Dispatching => if w.batch == [] then EndBatch else TrySend
    case SentUncounted => Count
    case FullUncounted => Count
    case _ => HangUp
  }

  lemma NextStepEnabled(s: State)
    requires WorkerInv(s.w) && !s.w.pc.Exited?
    ensures ActorOf(NextStep(s.w)) == WorkerThread && Enabled(s, NextStep(s.w))
  {
    hide FoldOk, SplitOk, CountsOk;
  }

  lemma HungUpStep(s: State, e: Event)
    requires Inv(s) && !s.ch.tx && Enabled(s, e)
    ensures var s' := Apply(s, e);
            && !s'.ch.tx && s'.w == s.w
            && |s'.ch.queue| + (if e.Recv? then 1 else 0) == |s.ch.queue|
  {
    hide KernelInv, WorkerInv, RingInv;
  }

  /** After the worker hangs up, the queue only shrinks, by one frame per receive: the consumer's loop ends. */
  lemma {:induction false} ConsumerDrains(s: State, es: seq<Event>)
    requires Inv(s) && !s.ch.tx && Run(s, es).Some?
    ensures var s' := Run(s, es).value;
            && Inv(s') && !s'.ch.tx && s'.w == s.w && |s'.ch.queue| + Receives(es) == |s.ch.queue|
  {
    hide Inv, Apply, Enabled;
    if es != [] {
      var front := es[..|es| - 1];
      ConsumerDrains(s, front);
      HungUpStep(Run(s, front).value, es[|es| - 1]);
      StepInv(Run(s, front).value, es[|es| - 1]);
    }
  }

  /** When the consumer has left by itself, it holds exactly the frames counted ok, and every taken item is counted. */
  lemma ConsumerLeavesWithAll(s: State)
    requires Reachable(s) && !s.ch.rx
    ensures s.w.pc.Exited? && s.ch.queue == []
    ensures |s.ch.received| == s.w.ok && FramesAt(s.w.taken, s.w.sent, s.ch.received)
    ensures |s.w.taken| == s.w.dropped + s.w.ok + s.w.full
  {
    ReachableInv(s);
    hide KernelInv, RingInv, KeptIdx, LastTs;
    assert s.ch.received + s.ch.queue == s.ch.received;
  }

  // ---------------------------------------------------------------------
  // The end of the process, which does not wait for the consumer
  // ---------------------------------------------------------------------

  /**
   * When the process ends every taken item is counted, and the frames counted ok are those received and the at most
   * 1024 left in the channel, in order. All of them were received exactly when the channel is empty.
   */
  lemma AtProcessExit(s: State)
    requires Reachable(s) && s.exited
    ensures s.w.pc.Exited? && |s.w.taken| == s.w.dropped + s.w.ok + s.w.full
    ensures s.w.ok == |s.ch.received| + |s.ch.queue| && |s.ch.queue| <= 1024
    ensures FramesAt(s.w.taken, s.w.sent, s.ch.received + s.ch.queue)
    ensures s.w.ok == |s.ch.received| <==> s.ch.queue == []
  {
    ReachableInv(s);
    hide KernelInv, RingInv, KeptIdx, LastTs;
  }

  /** From the worker's exit on, all counted frames are received exactly when the consumer gets one receive per queued frame. */
  lemma AllReceivedExactlyWhen(s: State, es: seq<Event>)
    requires Reachable(s) && s.w.pc.Exited? && Run(s, es).Some?
    ensures var s' := Run(s, es).value;
            |s'.ch.received| == s'.w.ok <==> Receives(es) == |s.ch.queue|
  {
    hide KernelInv, WorkerInv, RingInv, Run, Receives;
    ReachableInv(s);
    ConsumerDrains(s, es);
    SentOnly(Run(s, es).value);
  }

  lemma SentOnly(s: State)
    requires Inv(s) && s.w.pc.Exited?
    ensures s.w.ok == |s.ch.received| + |s.ch.queue|
  {
    hide KernelInv, RingInv, FoldOk, SplitOk, KeptIdx;
  }

  /** From then on neither the worker's side nor the channel ever changes again. */
  lemma {:induction false} ExitIsFinal(s: State, es: seq<Event>)
    requires Inv(s) && s.exited && Run(s, es).Some?
    ensures var s' := Run(s, es).value; Inv(s') && s'.exited && s'.w == s.w && s'.ch == s.ch
  {
    hide Inv, Apply, Enabled;
    if es != [] {
      var front := es[..|es| - 1];
      ExitIsFinal(s, front);
      StepAfterExit(Run(s, front).value, es[|es| - 1]);
      StepInv(Run(s, front).value, es[|es| - 1]);
    }
  }

  lemma StepAfterExit(s: State, e: Event)
    requires Inv(s) && s.exited && Enabled(s, e)
    ensures var s' := Apply(s, e); s'.exited && s'.w == s.w && s'.ch == s.ch
  {
    hide KernelInv, WorkerInv, RingInv, ChannelInv;
  }
}
