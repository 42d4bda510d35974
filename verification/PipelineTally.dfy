/** The counters against the packets: how many packets have each fate. */
module PipelineTally {
  import opened Words
  import opened SignalFrames
  import opened Vacuum
  import opened Pipeline
  import opened PipelineInv
  import opened PipelineTheorems

  /** The accepted packets with a given fate, by CPU and number. */
  ghost function Packets(s: State, f: Fate): set<(nat, nat)> {
    set c: nat, p: nat | c < |s.k.slot| && p < |s.k.slot[c]| && FateOf(s, c, p) == f :: (c, p)
  }

  function Key(k: Kernel, j: nat): (nat, nat)
    requires j < |k.produced|
  {
    (k.produced[j].cpuId, k.produced[j].ppsDelta)
  }

  ghost predicate Indices(k: Kernel, idx: seq<nat>) {
    Increasing(idx) && forall x | x in idx :: x < |k.produced|
  }

  ghost function Keys(k: Kernel, idx: seq<nat>): set<(nat, nat)>
    requires Indices(k, idx)
  {
    set x | x in idx :: Key(k, x)
  }

  lemma KeysDistinct(k: Kernel, i: nat, j: nat)
    requires KernelInv(k) && i < |k.produced| && j < |k.produced| && Key(k, i) == Key(k, j)
    ensures i == j
  {
    hide CountersOk, CpuOk, SlotOk, OrderOk;
    assert FrameOk(k, i) && FrameOk(k, j);
  }

  /** Distinct ring indices are distinct packets. */
  lemma {:induction false} KeysCount(k: Kernel, idx: seq<nat>)
    requires KernelInv(k) && Indices(k, idx)
    ensures |Keys(k, idx)| == |idx|
  {
    hide KernelInv;
    if idx != [] {
      var n := |idx| - 1;
      var front := idx[..n];
      assert idx == front + [idx[n]] && idx[n] in idx;
      forall x | x in front ensures x in idx {}
      KeysCount(k, front);
      assert Keys(k, idx) == Keys(k, front) + {Key(k, idx[n])};
      if Key(k, idx[n]) in Keys(k, front) {
        var x :| x in front && Key(k, x) == Key(k, idx[n]);
        KeysDistinct(k, x, idx[n]);
      }
    }
  }

  /** If the ring frames with a fate are those at some indices, there are as many packets with that fate. */
  lemma CountByIndices(s: State, f: Fate, idx: seq<nat>)
    requires Inv(s) && Indices(s.k, idx) && !f.InFlight? && !f.LostRingFull?
    requires forall j: nat | j < |s.k.produced| :: RingFate(s.w, |s.ch.received|, j) == f <==> j in idx
    ensures |Packets(s, f)| == |idx|
  {
    hide WorkerInv, RingInv, ChannelInv, RingFate, CpuOk, OrderOk;
    KeysCount(s.k, idx);
    forall c: nat, p: nat | (c, p) in Packets(s, f) ensures (c, p) in Keys(s.k, idx) {
      assert SlotOk(s.k, c, p);
      assert Key(s.k, s.k.slot[c][p].j) == (c, p);
    }
    forall x | x in idx ensures Key(s.k, x) in Packets(s, f) {
      assert FrameOk(s.k, x);
    }
    assert Packets(s, f) == Keys(s.k, idx);
  }

  lemma Sizes(s: State)
    requires Inv(s)
    ensures |Validated(s.w)| <= |s.w.taken| <= |s.k.produced| && Validated(s.w) == s.w.taken[..|Validated(s.w)|]
    ensures |s.w.taken| == |Validated(s.w)| + (if s.w.pc.Took? then 1 else 0)
  {
    hide KernelInv, FoldOk, SplitOk, CountsOk, ChannelInv, Encode;
  }

  /** What the worker's lists say about validated indices. */
  lemma Lists(w: Worker)
    requires WorkerInv(w)
    ensures forall x | x in w.offered || x in w.pending :: x < |Validated(w)|
    ensures forall x | x in w.sent || x in w.refused :: x in w.offered && x !in w.pending
    ensures Increasing(w.pending)
  {
    hide KeptIdx, CountsOk;
    KeptIdxExact(Validated(w));
    var all := w.offered + w.pending;
    forall x | x in w.offered || x in w.pending ensures x < |Validated(w)| { assert x in all; }
    forall i, j | 0 <= i < j < |w.pending| ensures w.pending[i] < w.pending[j] {
      assert all[|w.offered| + i] == w.pending[i] && all[|w.offered| + j] == w.pending[j];
    }
    PendingFollows(w);
    assert forall x | x in w.offered :: x !in w.pending;
  }

  lemma TimestampTally(s: State)
    requires Inv(s)
    ensures |Packets(s, LostTimestamp)| == s.w.dropped
  {
    hide KernelInv, RingInv, ChannelInv, SplitOk, KeptIdx, StaleIdx, LastTs, Fresh, Position, Packets;
    var v := Validated(s.w);
    Sizes(s); Lists(s.w);
    KeptIdxExact(v);
    StaleIdxExact(v);
    var idx := StaleIdx(v);
    forall j: nat | j < |s.k.produced| ensures RingFate(s.w, |s.ch.received|, j) == LostTimestamp <==> j in idx {
      assert j in s.w.offered + s.w.pending <==> j in s.w.offered || j in s.w.pending;
    }
    CountByIndices(s, LostTimestamp, idx);
  }

  lemma ChannelFullTally(s: State)
    requires Inv(s)
    ensures |Packets(s, LostChannelFull)| == |s.w.refused|
  {
    hide KernelInv, RingInv, ChannelInv, FoldOk, CountsOk, Position, Packets;
    Sizes(s); Lists(s.w);
    CountByIndices(s, LostChannelFull, s.w.refused);
  }

  lemma BatchTally(s: State)
    requires Inv(s)
    ensures |Packets(s, InBatch)| == |s.w.batch|
  {
    hide KernelInv, RingInv, ChannelInv, SplitOk, CountsOk, KeptIdx, LastTs, Position, Packets;
    Sizes(s); Lists(s.w);
    CountByIndices(s, InBatch, s.w.pending);
  }

  lemma SentTally(s: State)
    requires Inv(s)
    ensures |Packets(s, Received)| == |s.ch.received| && |Packets(s, InChannel)| == |s.ch.queue|
  {
    hide KernelInv, RingInv, FoldOk, CountsOk, Packets, Position;
    Sizes(s); Lists(s.w);
    var n := |s.ch.received|;
    var got, rest := s.w.sent[..n], s.w.sent[n..];
    forall j | j in s.w.sent ensures j in got <==> Position(s.w.sent, j) < n {
      PositionSplit(s.w.sent, j, n);
    }
    forall j | j in s.w.sent ensures j in rest <==> Position(s.w.sent, j) >= n {
      PositionSplit(s.w.sent, j, n);
    }
    SentFates(s.w, n);
    CountByIndices(s, Received, got);
    CountByIndices(s, InChannel, rest);
  }

  lemma PositionSplit(xs: seq<nat>, x: nat, n: nat)
    requires Increasing(xs) && x in xs && n <= |xs|
    ensures x in xs[..n] <==> Position(xs, x) < n
    ensures x in xs[n..] <==> Position(xs, x) >= n
  {
    hide Position;
    var i := Position(xs, x);
    assert xs[i] == x;
    if i < n { assert xs[..n][i] == x; } else { assert xs[n..][i - n] == x; }
  }

  lemma SentFates(w: Worker, n: nat)
    requires WorkerInv(w) && n <= |w.sent|
    ensures forall j: nat :: RingFate(w, n, j) == Received <==> j in w.sent && Position(w.sent, j) < n
    ensures forall j: nat :: RingFate(w, n, j) == InChannel <==> j in w.sent && Position(w.sent, j) >= n
  {
    hide FoldOk, CountsOk, Position;
    Lists(w);
    LengthTaken(w);
  }

  lemma LengthTaken(w: Worker)
    ensures |Validated(w)| <= |w.taken|
  {}

  lemma RingTally(s: State)
    requires Inv(s)
    ensures |Packets(s, WaitsOnRing)| == |s.ring|
    ensures |Packets(s, InHand)| == if s.w.pc.Took? then 1 else 0
  {
    hide KernelInv, WorkerInv, ChannelInv, Position, Packets, Encode;
    Sizes(s);
    var n := |s.w.taken|;
    var idx := seq(|s.ring|, i requires 0 <= i < |s.ring| => n + i);
    forall j: nat | j < |s.k.produced| ensures j in idx <==> j >= n {
      if j >= n { assert idx[j - n] == j; }
    }
    CountByIndices(s, WaitsOnRing, idx);
    CountByIndices(s, InHand, if s.w.pc.Took? then [n - 1] else []);
  }

  /** The counters are the numbers of packets with the matching fate, up to the outcome about to be counted. */
  lemma FatesMatchCounters(s: State)
    requires Reachable(s)
    ensures |Packets(s, LostTimestamp)| == s.w.dropped
    ensures |Packets(s, LostChannelFull)| == s.w.full + (if s.w.pc.FullUncounted? then 1 else 0)
    ensures |Packets(s, Received)| + |Packets(s, InChannel)| == s.w.ok + (if s.w.pc.SentUncounted? then 1 else 0)
    ensures |Packets(s, Received)| == |s.ch.received| && |Packets(s, InChannel)| == |s.ch.queue|
    ensures |Packets(s, InBatch)| == |s.w.batch| && |Packets(s, WaitsOnRing)| == |s.ring|
    ensures |Packets(s, InHand)| == if s.w.pc.Took? then 1 else 0
  {
    ReachableInv(s);
    hide KernelInv, RingInv, FoldOk, SplitOk, KeptIdx, Packets;
    TimestampTally(s);
    ChannelFullTally(s);
    BatchTally(s);
    SentTally(s);
    RingTally(s);
  }

  // ---------------------------------------------------------------------
  // Ring successes over all CPUs
  // ---------------------------------------------------------------------

  function TotalIn(slots: seq<seq<Slot>>, onRing: bool): nat {
    if slots == [] then 0 else TotalIn(slots[..|slots| - 1], onRing) + CountIn(slots[|slots| - 1], onRing)
  }

  lemma {:induction false} TotalUpdate(slots: seq<seq<Slot>>, c: nat, x: seq<Slot>, onRing: bool)
    requires c < |slots|
    ensures TotalIn(slots[c := x], onRing) + CountIn(slots[c], onRing) == TotalIn(slots, onRing) + CountIn(x, onRing)
  {
    hide CountIn;
    var n := |slots| - 1;
    if c < n {
      TotalUpdate(slots[..n], c, x, onRing);
      assert slots[c := x][..n] == slots[..n][c := x];
    } else {
      assert slots[c := x][..n] == slots[..n];
    }
  }

  lemma CountSnoc(slots: seq<Slot>, x: Slot)
    ensures CountIn(slots + [x], true) == CountIn(slots, true) + (if x.OnRing? then 1 else 0)
  {
    assert (slots + [x])[..|slots|] == slots;
  }

  lemma CountLand(slots: seq<Slot>, outcome: Slot)
    requires slots != [] && slots[|slots| - 1] == Flying
    ensures CountIn(Land(slots, outcome), true) == CountIn(slots, true) + (if outcome.OnRing? then 1 else 0)
  {
    var front := slots[..|slots| - 1];
    assert slots == front + [Flying] && Land(slots, outcome) == front + [outcome];
    CountSnoc(front, Flying);
    CountSnoc(front, outcome);
  }

  lemma TallyStep(s: State, e: Event)
    requires Inv(s) && Enabled(s, e) && TotalIn(s.k.slot, true) == |s.k.produced|
    ensures TotalIn(Apply(s, e).k.slot, true) == |Apply(s, e).k.produced|
  {
    hide WorkerInv, RingInv, ChannelInv, SlotOk, FrameOk, OrderOk, TotalIn, CountIn, Encode, Parse;
    match e
    case Accept(c, _, _) =>
      CountSnoc(s.k.slot[c], Flying);
      TotalUpdate(s.k.slot, c, s.k.slot[c] + [Flying], true);
    case Output(c, fits) =>
      assert CpuOk(s.k, c);
      var outcome := if fits then OnRing(|s.k.produced|) else RingFull;
      CountLand(s.k.slot[c], outcome);
      TotalUpdate(s.k.slot, c, Land(s.k.slot[c], outcome), true);
    case _ =>
  }

  lemma {:induction false} NothingAccepted(n: nat)
    ensures TotalIn(seq(n, _ => []), true) == 0
  {
    if n > 0 {
      var slots: seq<seq<Slot>> := seq(n, _ => []);
      assert slots[..n - 1] == seq(n - 1, _ => []);
      NothingAccepted(n - 1);
    }
  }

  lemma {:induction false} TallyRun(s: State, es: seq<Event>)
    requires Inv(s) && Run(s, es).Some? && TotalIn(s.k.slot, true) == |s.k.produced|
    ensures var s' := Run(s, es).value; Inv(s') && TotalIn(s'.k.slot, true) == |s'.k.produced|
  {
    hide Inv, Enabled, Apply, TotalIn;
    if es != [] {
      var front := es[..|es| - 1];
      TallyRun(s, front);
      TallyStep(Run(s, front).value, es[|es| - 1]);
      StepInv(Run(s, front).value, es[|es| - 1]);
    }
  }

  /** The ring successes of all CPUs together are the frames produced. */
  lemma RingSuccessesAreProduced(s: State)
    requires Reachable(s)
    ensures TotalIn(s.k.slot, true) == |s.k.produced|
  {
    hide Inv, TotalIn;
    var ncpu: nat, now: u64, es: seq<Event> :| IsRun(ncpu, now, es, s);
    InitInv(ncpu, now);
    NothingAccepted(ncpu);
    TallyRun(Init(ncpu, now), es);
  }
}
