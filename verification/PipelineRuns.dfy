/** What continuing a run can and cannot change. */
module PipelineRuns {
  import opened Words
  import opened SignalFrames
  import opened Vacuum
  import opened Pipeline
  import opened PipelineInv
  import opened PipelineTheorems

  lemma RunSnoc(ncpu: nat, now: u64, es: seq<Event>, s: State, e: Event)
    requires IsRun(ncpu, now, es, s) && Enabled(s, e)
    ensures IsRun(ncpu, now, es + [e], Apply(s, e))
  {
    hide Enabled, Apply;
    assert (es + [e])[..|es|] == es;
  }

  /** A run can be cut at any point and taken up again there. */
  lemma {:induction false} RunSplit(s: State, a: seq<Event>, b: seq<Event>)
    requires Run(s, a + b).Some?
    ensures Run(s, a).Some? && Run(Run(s, a).value, b) == Run(s, a + b)
    decreases |b|
  {
    hide Enabled, Apply;
    if b == [] {
      assert a + b == a;
    } else {
      var b' := b[..|b| - 1];
      assert (a + b)[..|a + b| - 1] == a + b';
      RunSplit(s, a, b');
    }
  }

  // ---------------------------------------------------------------------
  // Histories only grow
  // ---------------------------------------------------------------------

  ghost predicate Grows(s: State, s': State) {
    && s.k.produced <= s'.k.produced && s.w.taken <= s'.w.taken && s.w.offered <= s'.w.offered
    && s.w.sent <= s'.w.sent && s.w.refused <= s'.w.refused && s.ch.received <= s'.ch.received
    && |s.k.slot| == |s'.k.slot| && (forall c | 0 <= c < |s.k.slot| :: |s.k.slot[c]| <= |s'.k.slot[c]|)
    && s.k.now <= s'.k.now && (s.shutdown ==> s'.shutdown) && (s.exited ==> s'.exited)
  }

  lemma StepGrows(s: State, e: Event)
    requires Enabled(s, e)
    ensures Grows(s, Apply(s, e))
  {
    hide AcceptOn, StampOn, OutputOn, Encode, Parse, Passes;
    if ActorOf(e).Cpu? { CpuStepGrows(s, e); }
  }

  lemma CpuStepGrows(s: State, e: Event)
    requires Enabled(s, e) && ActorOf(e).Cpu?
    ensures Grows(s, Apply(s, e))
  {
    hide Encode;
  }

  lemma {:induction false} ContinuationGrows(s: State, es: seq<Event>)
    requires Run(s, es).Some?
    ensures Grows(s, Run(s, es).value)
  {
    hide Enabled, Apply;
    if es != [] {
      ContinuationGrows(s, es[..|es| - 1]);
      StepGrows(Run(s, es[..|es| - 1]).value, es[|es| - 1]);
    }
  }

  /** A longer run of the same system continues the shorter one. */
  lemma LongerRunContinues(ncpu: nat, now: u64, es: seq<Event>, s: State, es': seq<Event>, s': State)
    requires IsRun(ncpu, now, es, s) && IsRun(ncpu, now, es', s') && es <= es'
    ensures Run(s, es'[|es|..]) == Some(s') && Grows(s, s')
  {
    hide Run, Grows;
    assert es' == es + es'[|es|..];
    RunSplit(Init(ncpu, now), es, es'[|es|..]);
    ContinuationGrows(s, es'[|es|..]);
  }

  // ---------------------------------------------------------------------
  // Lost and received are for good
  // ---------------------------------------------------------------------

  predicate IsSettled(f: Fate) {
    IsLoss(f) || f.Received?
  }

  lemma SlotStays(s: State, e: Event, c: nat, p: nat)
    requires Inv(s) && Enabled(s, e) && c < |s.k.slot| && p < |s.k.slot[c]| && s.k.slot[c][p] != Flying
    ensures var s' := Apply(s, e); c < |s'.k.slot| && p < |s'.k.slot[c]| && s'.k.slot[c][p] == s.k.slot[c][p]
  {
    hide WorkerInv, RingInv, ChannelInv, SlotOk, FrameOk, OrderOk, Encode, Parse;
    assert CpuOk(s.k, c);
  }

  lemma {:induction false} PositionSnoc(xs: seq<nat>, y: nat, x: nat)
    requires x in xs
    ensures Position(xs + [y], x) == Position(xs, x)
  {
    if xs[0] != x {
      assert (xs + [y])[1..] == xs[1..] + [y];
      PositionSnoc(xs[1..], y, x);
    }
  }

  lemma CheckLeavesFate(w: Worker, received: nat, j: nat)
    requires WorkerInv(w) && w.pc.Took? && IsSettled(RingFate(w, received, j))
    ensures RingFate(CheckTaken(w), received, j) == RingFate(w, received, j)
  {
    hide FoldOk, SplitOk, CountsOk, Parse, Passes, Position;
  }

  lemma OfferLeavesFate(w: Worker, received: nat, j: nat, r: SendResult)
    requires WorkerInv(w) && w.pc.Dispatching? && w.batch != [] && IsSettled(RingFate(w, received, j))
    requires received <= |w.sent|
    ensures RingFate(Offer(w, r), received, j) == RingFate(w, received, j)
  {
    hide CountsOk, Position, KeptIdx, LastTs;
    assert w.pending != [] && j !in w.pending;
    var x := w.pending[0];
    assert x in w.pending && j != x;
    if j in w.sent { PositionSnoc(w.sent, x, j); }
  }

  lemma RingFateStays(s: State, e: Event, j: nat)
    requires Inv(s) && Enabled(s, e) && IsSettled(RingFate(s.w, |s.ch.received|, j))
    ensures var s' := Apply(s, e); RingFate(s'.w, |s'.ch.received|, j) == RingFate(s.w, |s.ch.received|, j)
  {
    match e
    case Check => CheckLeavesFate(s.w, |s.ch.received|, j);
    case TrySend => SendLeavesFate(s, j);
    case _ => PlainStepLeavesFate(s, e, j);
  }

  lemma SendLeavesFate(s: State, j: nat)
    requires Inv(s) && Enabled(s, TrySend) && IsSettled(RingFate(s.w, |s.ch.received|, j))
    ensures var s' := Apply(s, TrySend); RingFate(s'.w, |s'.ch.received|, j) == RingFate(s.w, |s.ch.received|, j)
  {
    hide RingFate, KernelInv, WorkerInv, RingInv;
    OfferLeavesFate(s.w, |s.ch.received|, j, TrySendResult(s.ch));
  }

  lemma PlainStepLeavesFate(s: State, e: Event, j: nat)
    requires Inv(s) && Enabled(s, e) && !e.Check? && !e.TrySend? && IsSettled(RingFate(s.w, |s.ch.received|, j))
    ensures var s' := Apply(s, e); RingFate(s'.w, |s'.ch.received|, j) == RingFate(s.w, |s.ch.received|, j)
  {
    hide KernelInv, RingInv, ChannelInv, WorkerInv, RingFate, Encode, Parse, AcceptOn, StampOn, OutputOn;
    if ActorOf(e) == WorkerThread { PlainWorkerStep(s.w, Apply(s, e).w, |s.ch.received|, j); }
    if e.Recv? { MoreReceived(s.w, |s.ch.received|, j); }
  }

  lemma PlainWorkerStep(w: Worker, w': Worker, received: nat, j: nat)
    requires WorkerInv(w) && !w.pc.Took? && IsSettled(RingFate(w, received, j))
    requires w'.offered == w.offered && w'.sent == w.sent && w'.refused == w.refused
    requires w'.pending == w.pending || w'.pending == []
    requires w.taken <= w'.taken && Validated(w') == w.taken
    ensures RingFate(w', received, j) == RingFate(w, received, j)
  {
    hide FoldOk, SplitOk, CountsOk, Position;
  }

  lemma MoreReceived(w: Worker, received: nat, j: nat)
    requires IsSettled(RingFate(w, received, j))
    ensures RingFate(w, received + 1, j) == RingFate(w, received, j)
  {}

  lemma FateStays(s: State, e: Event, c: nat, p: nat)
    requires Inv(s) && Enabled(s, e) && c < |s.k.slot| && p < |s.k.slot[c]| && IsSettled(FateOf(s, c, p))
    ensures var s' := Apply(s, e); c < |s'.k.slot| && p < |s'.k.slot[c]| && FateOf(s', c, p) == FateOf(s, c, p)
  {
    hide Inv, Enabled, Apply, RingFate;
    SlotStays(s, e, c, p);
    if s.k.slot[c][p].OnRing? { RingFateStays(s, e, s.k.slot[c][p].j); }
  }

  /** A packet once lost stays lost in the same way, and one received stays received, however the run goes on. */
  lemma {:induction false} FateIsPermanent(s: State, es: seq<Event>, c: nat, p: nat)
    requires Reachable(s) && Run(s, es).Some?
    requires c < |s.k.slot| && p < |s.k.slot[c]|
    requires FateOf(s, c, p) in {LostRingFull, LostTimestamp, LostChannelFull, Received}
    ensures var s' := Run(s, es).value;
            Inv(s') && c < |s'.k.slot| && p < |s'.k.slot[c]| && FateOf(s', c, p) == FateOf(s, c, p)
  {
    hide Reachable, Inv, Enabled, Apply, FateOf;
    if es == [] {
      ReachableInv(s);
    } else {
      var front := es[..|es| - 1];
      FateIsPermanent(s, front, c, p);
      FateStays(Run(s, front).value, es[|es| - 1], c, p);
      StepInv(Run(s, front).value, es[|es| - 1]);
    }
  }
}
