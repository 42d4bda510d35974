/** What every event of the pipeline keeps. */
module PipelineInv {
  import opened Words
  import opened SignalFrames
  import opened Vacuum
  import opened Filter
  import opened Pipeline

  // ---------------------------------------------------------------------
  // Kernel side
  // ---------------------------------------------------------------------

  ghost predicate CountersOk(k: Kernel) {
    KernelSized(k) && forall c | 0 <= c < |k.slot| :: k.ctr[c] == |k.slot[c]| <= MAXPPS_THRESHOLD
  }

  function PpsOf(s: CpuState): u32
    requires !s.Idle?
  {
    if s.Accepted? then s.pps else s.frame.ppsDelta
  }

  /** Only the packet the CPU is working on is in flight; its stamp is no earlier than its CPU's ring frames. */
  ghost predicate CpuOk(k: Kernel, c: nat)
    requires KernelSized(k) && c < |k.cpu|
  {
    && (k.cpu[c].Idle? ==> forall p | 0 <= p < |k.slot[c]| :: k.slot[c][p] != Flying)
    && (!k.cpu[c].Idle? ==>
          && |k.slot[c]| > 0 && PpsOf(k.cpu[c]) == |k.slot[c]| - 1
          && forall p | 0 <= p < |k.slot[c]| :: k.slot[c][p] == Flying <==> p == |k.slot[c]| - 1)
    && (k.cpu[c].Stamped? ==>
          && k.cpu[c].frame.cpuId == c && k.cpu[c].frame.timestampNs <= k.now
          && forall j | 0 <= j < |k.produced| && k.produced[j].cpuId == c ::
               k.produced[j].timestampNs <= k.cpu[c].frame.timestampNs)
  }

  /** The slot of an accepted packet points at its frame on the ring. */
  ghost predicate SlotOk(k: Kernel, c: nat, p: nat)
    requires c < |k.slot| && p < |k.slot[c]|
  {
    k.slot[c][p].OnRing? ==>
      var j := k.slot[c][p].j;
      j < |k.produced| && k.produced[j].cpuId == c && k.produced[j].ppsDelta == p
  }

  /** Every ring frame is the one of the slot named by its own cpu_id and pps_delta. */
  ghost predicate FrameOk(k: Kernel, j: nat)
    requires j < |k.produced|
  {
    var f := k.produced[j];
    && f.cpuId < |k.slot| && f.ppsDelta < |k.slot[f.cpuId]| && k.slot[f.cpuId][f.ppsDelta] == OnRing(j)
    && f.timestampNs <= k.now
  }

  /** Per CPU, ring order is acceptance order and stamp order. */
  ghost predicate OrderOk(k: Kernel) {
    forall i, j | 0 <= i < j < |k.produced| && k.produced[i].cpuId == k.produced[j].cpuId ::
      k.produced[i].ppsDelta < k.produced[j].ppsDelta && k.produced[i].timestampNs <= k.produced[j].timestampNs
  }

  ghost predicate KernelInv(k: Kernel) {
    && CountersOk(k)
    && (forall c | 0 <= c < |k.cpu| :: CpuOk(k, c))
    && (forall c, p | 0 <= c < |k.slot| && 0 <= p < |k.slot[c]| :: SlotOk(k, c, p))
    && (forall j | 0 <= j < |k.produced| :: FrameOk(k, j))
    && OrderOk(k)
  }

  lemma TickKeeps(k: Kernel, now: u64)
    requires KernelInv(k) && now >= k.now
    ensures KernelInv(k.(now := now))
  {
    var k' := k.(now := now);
    forall c | 0 <= c < |k.cpu| ensures CpuOk(k', c) { assert CpuOk(k, c); }
    forall c, p | 0 <= c < |k.slot| && 0 <= p < |k.slot[c]| ensures SlotOk(k', c, p) { assert SlotOk(k, c, p); }
    forall j | 0 <= j < |k.produced| ensures FrameOk(k', j) { assert FrameOk(k, j); }
  }

  lemma AcceptKeeps(k: Kernel, c: nat, flowHash: u64, l3Hdr: L3Header)
    requires KernelInv(k) && c < |k.cpu| && k.cpu[c].Idle? && k.ctr[c] < MAXPPS_THRESHOLD
    ensures KernelInv(AcceptOn(k, c, flowHash, l3Hdr))
  {
    var k' := AcceptOn(k, c, flowHash, l3Hdr);
    assert k'.slot[c] == k.slot[c] + [Flying];
    forall d | 0 <= d < |k'.cpu| ensures CpuOk(k', d) { assert CpuOk(k, d); }
    forall d, p | 0 <= d < |k'.slot| && 0 <= p < |k'.slot[d]| ensures SlotOk(k', d, p) {
      if d != c || p < |k.slot[c]| { assert SlotOk(k, d, p); }
    }
    forall j | 0 <= j < |k'.produced| ensures FrameOk(k', j) { assert FrameOk(k, j); }
  }

  lemma StampKeeps(k: Kernel, c: nat)
    requires KernelInv(k) && c < |k.cpu| && k.cpu[c].Accepted?
    ensures KernelInv(StampOn(k, c))
  {
    var k' := StampOn(k, c);
    forall j | 0 <= j < |k'.produced| ensures FrameOk(k', j) && k'.produced[j].timestampNs <= k.now { assert FrameOk(k, j); }
    forall d | 0 <= d < |k'.cpu| ensures CpuOk(k', d) { assert CpuOk(k, d); }
    forall d, p | 0 <= d < |k'.slot| && 0 <= p < |k'.slot[d]| ensures SlotOk(k', d, p) { assert SlotOk(k, d, p); }
  }

  lemma OutputKeeps(k: Kernel, c: nat, fits: bool)
    requires KernelInv(k) && c < |k.cpu| && k.cpu[c].Stamped?
    ensures KernelInv(OutputOn(k, c, fits))
  {
    var k' := OutputOn(k, c, fits);
    var f := k.cpu[c].frame;
    var n := |k.produced|;
    assert CpuOk(k, c);
    var last := |k.slot[c]| - 1;
    forall j | 0 <= j < n ensures FrameOk(k', j) && (k.produced[j].cpuId == c ==> k.produced[j].ppsDelta < last) {
      assert FrameOk(k, j);
    }
    forall j | 0 <= j < |k'.produced| ensures FrameOk(k', j) {
      if j == n { assert k'.produced[j] == f; }
    }
    forall d | 0 <= d < |k'.cpu| ensures CpuOk(k', d) {
      assert CpuOk(k, d);
    }
    forall d, p | 0 <= d < |k'.slot| && 0 <= p < |k'.slot[d]| ensures SlotOk(k', d, p) {
      assert SlotOk(k, d, p);
    }
  }

  // ---------------------------------------------------------------------
  // Worker side
  // ---------------------------------------------------------------------

  /** The readings the worker has finished validating. */
  function Validated(w: Worker): seq<Reading> {
    if w.pc.Took? && w.taken != [] then w.taken[..|w.taken| - 1] else w.taken
  }

  /** What was offered and what is still in the batch are together the fresh readings, in order. */
  ghost predicate FoldOk(w: Worker) {
    && w.offered + w.pending == KeptIdx(Validated(w))
    && FramesAt(w.taken, w.pending, w.batch)
    && w.lastTs == LastTs(Validated(w))
  }

  /** Every offered frame was either sent or refused, in order. */
  ghost predicate SplitOk(w: Worker) {
    && Increasing(w.sent) && Increasing(w.refused)
    && |w.sent| + |w.refused| == |w.offered|
    && (forall x | x in w.offered :: x in w.sent || x in w.refused)
    && (forall x | x in w.sent :: x in w.offered && x !in w.refused)
    && (forall x | x in w.refused :: x in w.offered)
  }

  /** The counters are exact, but for the outcome about to be counted. */
  ghost predicate CountsOk(w: Worker) {
    && w.dropped + |KeptIdx(Validated(w))| == |Validated(w)|
    && w.ok + (if w.pc.SentUncounted? then 1 else 0) == |w.sent|
    && w.full + (if w.pc.FullUncounted? then 1 else 0) == |w.refused|
  }

  ghost predicate PcOk(w: Worker) {
    match w.pc
    case Draining(i) => |w.batch| <= i <= BATCH_SIZE
    case Took(i, item) => |w.batch| <= i < BATCH_SIZE && w.taken != [] && w.taken[|w.taken| - 1] == Parse(item)
    case Top => w.batch == []
    case Leaving => w.batch == []
    case Exited => w.batch == []
    case _ => |w.batch| <= BATCH_SIZE
  }

  ghost predicate WorkerInv(w: Worker) {
    FoldOk(w) && SplitOk(w) && CountsOk(w) && PcOk(w)
  }

  lemma LoadKeeps(w: Worker, shutdown: bool)
    requires WorkerInv(w) && w.pc.Top?
    ensures WorkerInv(Load(w, shutdown))
  {
  }

  lemma TakeKeeps(w: Worker, ring: seq<Item>)
    requires WorkerInv(w) && w.pc.Draining? && w.pc.i < BATCH_SIZE
    ensures WorkerInv(Take(w, ring))
  {
    hide Parse, KeptIdx, LastTs;
    var w' := Take(w, ring);
    if ring != [] { assert Validated(w') == w.taken; }
  }

  lemma CheckKeeps(w: Worker)
    requires WorkerInv(w) && w.pc.Took? && |w.taken| < U64_MOD
    ensures WorkerInv(CheckTaken(w))
  {
    hide FoldOk, CountsOk, Parse, Passes;
    CheckFolds(w);
    CheckCounts(w);
  }

  lemma CheckCounts(w: Worker)
    requires FoldOk(w) && CountsOk(w) && PcOk(w) && w.pc.Took? && |w.taken| < U64_MOD
    ensures CountsOk(CheckTaken(w))
  {
    hide FoldOk, Parse, KeptIdx, LastTs, Passes, WrappingInc;
    LastTsOf(w);
    var front, r := Validated(w), w.taken[|w.taken| - 1];
    assert w.taken == front + [r] == Validated(CheckTaken(w));
    KeptIdxSnoc(front, r);
    assert r == Parse(w.pc.item);
    IncFits(w.dropped);
  }

  lemma IncFits(x: u64)
    ensures x + 1 < U64_MOD ==> WrappingInc(x) == x + 1
  {}

  lemma LastTsOf(w: Worker)
    requires FoldOk(w)
    ensures w.lastTs == LastTs(Validated(w))
  {}

  lemma CheckFolds(w: Worker)
    requires FoldOk(w) && PcOk(w) && w.pc.Took?
    ensures FoldOk(CheckTaken(w))
  {
    hide Parse, KeptIdx, LastTs, Passes;
    var front, r := Validated(w), w.taken[|w.taken| - 1];
    assert w.taken == front + [r] == Validated(CheckTaken(w));
    KeptIdxSnoc(front, r);
    PassesIffFresh(front, r);
    if Passes(r, w.lastTs) {
      assert r.Some?;
      assert CheckTaken(w).offered + CheckTaken(w).pending == (w.offered + w.pending) + [|front|];
    }
  }

  lemma HeadFollows(w: Worker)
    requires FoldOk(w) && w.pending != []
    ensures forall x | x in w.offered :: x < w.pending[0]
  {
    hide KeptIdx;
    KeptIdxExact(Validated(w));
    var all := w.offered + w.pending;
    forall x | x in w.offered ensures x < w.pending[0] {
      var i :| 0 <= i < |w.offered| && w.offered[i] == x;
      assert all[i] == x && all[|w.offered|] == w.pending[0];
    }
  }

  lemma OfferKeeps(w: Worker, r: SendResult)
    requires WorkerInv(w) && w.pc.Dispatching? && w.batch != [] && !r.SendDisconnected?
    ensures WorkerInv(Offer(w, r))
  {
    hide KeptIdx, LastTs, SplitOk;
    var w' := Offer(w, r);
    HeadFollows(w);
    assert w'.offered + w'.pending == w.offered + w.pending;
    OfferSplits(w, r);
  }

  lemma OfferSplits(w: Worker, r: SendResult)
    requires SplitOk(w) && w.batch != [] && w.pending != [] && !r.SendDisconnected?
    requires forall x | x in w.offered :: x < w.pending[0]
    ensures SplitOk(Offer(w, r))
  {
    var w' := Offer(w, r);
    var x := w.pending[0];
    forall i | 0 <= i < |w.sent| ensures w.sent[i] < x { assert w.sent[i] in w.sent; }
    forall i | 0 <= i < |w.refused| ensures w.refused[i] < x { assert w.refused[i] in w.refused; }
    assert x !in w.offered && x !in w.sent && x !in w.refused;
    forall y | y in w'.offered ensures y in w'.sent || y in w'.refused {
      if y != x { assert y in w.offered; }
    }
  }

  lemma CountKeeps(w: Worker)
    requires WorkerInv(w) && (w.pc.SentUncounted? || w.pc.FullUncounted?) && |w.taken| < U64_MOD
    ensures WorkerInv(CountOutcome(w))
  {
    hide KeptIdx, LastTs;
    KeptIdxExact(Validated(w));
    assert |w.offered| <= |KeptIdx(Validated(w))|;
  }

  // ---------------------------------------------------------------------
  // Ring and channel
  // ---------------------------------------------------------------------

  /** Taken readings then ring items are the produced frames, in order and unmodified. */
  ghost predicate RingInv(k: Kernel, ring: seq<Item>, w: Worker) {
    && |w.taken| + |ring| == |k.produced|
    && (forall j | 0 <= j < |w.taken| :: w.taken[j] == Some(k.produced[j]))
    && (forall i | 0 <= i < |ring| :: ring[i] == Encode(k.produced[|w.taken| + i]))
    && RING_RECORD * |ring| <= RING_BYTES
  }

  /** Received then queued frames are the sent ones, in order; each end hangs up in turn. */
  ghost predicate ChannelInv(w: Worker, ch: Channel) {
    && FramesAt(w.taken, w.sent, ch.received + ch.queue)
    && |ch.queue| <= DISPATCH_CAPACITY
    && (w.refused != [] ==> |w.sent| >= DISPATCH_CAPACITY)
    && (ch.tx <==> !w.pc.Exited?)
    && (!ch.rx ==> !ch.tx && ch.queue == [])
  }

  ghost predicate Inv(s: State) {
    && KernelInv(s.k) && WorkerInv(s.w) && RingInv(s.k, s.ring, s.w) && ChannelInv(s.w, s.ch)
    && (s.exited ==> s.shutdown && s.w.pc.Exited?)
  }

  lemma FramesAtGrows(rs: seq<Reading>, r: Reading, idx: seq<nat>, frames: seq<SignalFrame>)
    requires FramesAt(rs, idx, frames)
    ensures FramesAt(rs + [r], idx, frames)
  {
    forall i | 0 <= i < |idx| ensures idx[i] < |rs + [r]| && (rs + [r])[idx[i]] == Some(frames[i]) {}
  }

  // ---------------------------------------------------------------------
  // How many frames there can ever be
  // ---------------------------------------------------------------------

  ghost function Below(n: nat): (r: set<nat>)
    ensures |r| == n && forall x: nat :: x in r <==> x < n
  {
    if n == 0 then {} else Below(n - 1) + {n - 1}
  }

  ghost function Elements(keys: seq<nat>): (r: set<nat>)
    requires forall i, j | 0 <= i < j < |keys| :: keys[i] != keys[j]
    ensures |r| == |keys| && forall x :: x in r <==> x in keys
  {
    if keys == [] then {}
    else
      var n := |keys| - 1;
      assert keys[n] !in keys[..n];
      assert keys == keys[..n] + [keys[n]];
      Elements(keys[..n]) + {keys[n]}
  }

  lemma DistinctBelow(keys: seq<nat>, bound: nat)
    requires forall i | 0 <= i < |keys| :: keys[i] < bound
    requires forall i, j | 0 <= i < j < |keys| :: keys[i] != keys[j]
    ensures |keys| <= bound
  {
    SubsetSize(Elements(keys), Below(bound));
  }

  lemma SubsetSize(a: set<nat>, b: set<nat>)
    requires a <= b
    ensures |a| <= |b|
  {
    assert b == a + (b - a);
  }

  /** No CPU passes the threshold, so the ring never carries 2^64 frames, and no counter can wrap. */
  lemma ProducedBound(k: Kernel)
    requires KernelInv(k)
    ensures |k.produced| <= |k.cpu| * MAXPPS_THRESHOLD < U64_MOD
  {
    var keys := seq(|k.produced|, j requires 0 <= j < |k.produced| =>
      k.produced[j].cpuId * MAXPPS_THRESHOLD + k.produced[j].ppsDelta);
    forall j | 0 <= j < |keys| ensures keys[j] < |k.cpu| * MAXPPS_THRESHOLD && k.produced[j].ppsDelta < MAXPPS_THRESHOLD {
      assert FrameOk(k, j);
    }
    forall i, j | 0 <= i < j < |keys| ensures keys[i] != keys[j] {
      assert k.produced[i].cpuId == k.produced[j].cpuId ==> k.produced[i].ppsDelta < k.produced[j].ppsDelta;
    }
    DistinctBelow(keys, |k.cpu| * MAXPPS_THRESHOLD);
  }

  // ---------------------------------------------------------------------
  // Every event keeps the invariant
  // ---------------------------------------------------------------------

  lemma InitInv(ncpu: nat, now: u64)
    requires ncpu <= U32_MOD
    ensures Inv(Init(ncpu, now))
  {
  }

  lemma KernelEventKeeps(s: State, e: Event)
    requires Inv(s) && Enabled(s, e) && (e.Tick? || e.Accept? || e.Stamp?)
    ensures Inv(Apply(s, e))
  {
    hide WorkerInv, ChannelInv, KernelInv, RingInv, Encode;
    SameRing(s.k, Apply(s, e).k, s.ring, s.w);
    match e
    case Tick(now) => TickKeeps(s.k, now);
    case Accept(c, flowHash, l3Hdr) => AcceptKeeps(s.k, c, flowHash, l3Hdr);
    case Stamp(c) => StampKeeps(s.k, c);
  }

  lemma SameRing(k: Kernel, k': Kernel, ring: seq<Item>, w: Worker)
    requires RingInv(k, ring, w) && k'.produced == k.produced
    ensures RingInv(k', ring, w)
  {
    hide Encode;
  }

  lemma OutputEventKeeps(s: State, c: nat, fits: bool)
    requires Inv(s) && Enabled(s, Output(c, fits))
    ensures Inv(Apply(s, Output(c, fits)))
  {
    hide WorkerInv, ChannelInv, KernelInv, RingInv, Encode;
    OutputKeeps(s.k, c, fits);
    if fits {
      RingGrows(s.k, Apply(s, Output(c, fits)).k, s.ring, s.w, s.k.cpu[c].frame);
    } else {
      SameRing(s.k, Apply(s, Output(c, fits)).k, s.ring, s.w);
    }
  }

  lemma RingGrows(k: Kernel, k': Kernel, ring: seq<Item>, w: Worker, f: SignalFrame)
    requires RingInv(k, ring, w) && k'.produced == k.produced + [f] && RING_RECORD * (|ring| + 1) <= RING_BYTES
    ensures RingInv(k', ring + [Encode(f)], w)
  {
    hide Encode;
  }

  lemma RingNextKeeps(s: State)
    requires Inv(s) && Enabled(s, RingNext)
    ensures Inv(Apply(s, RingNext))
  {
    hide WorkerInv, KernelInv, Encode, Parse;
    var s' := Apply(s, RingNext);
    TakeKeeps(s.w, s.ring);
    if s.ring != [] {
      ParseEncode(s.k.produced[|s.w.taken|]);
      FramesAtGrows(s.w.taken, Parse(s.ring[0]), s.w.sent, s.ch.received + s.ch.queue);
    }
  }

  lemma BatchFrames(w: Worker)
    requires FoldOk(w)
    ensures FramesAt(w.taken, w.pending, w.batch)
  {}

  lemma TrySendKeeps(s: State)
    requires Inv(s) && Enabled(s, TrySend)
    ensures Inv(Apply(s, TrySend))
  {
    hide KernelInv, FoldOk, SplitOk, CountsOk, Encode;
    BatchFrames(s.w);
    var s' := Apply(s, TrySend);
    OfferKeeps(s.w, TrySendResult(s.ch));
    if TrySendResult(s.ch).SendOk? {
      assert s'.ch.received + s'.ch.queue == (s.ch.received + s.ch.queue) + [s.w.batch[0]];
    }
  }

  lemma CheckFrame(w: Worker)
    requires w.pc.Took?
    ensures var w' := CheckTaken(w); w'.pc.Draining? && w'.taken == w.taken && w'.sent == w.sent && w'.refused == w.refused
  {}

  lemma CheckEventKeeps(s: State)
    requires Inv(s) && Enabled(s, Check)
    ensures Inv(Apply(s, Check))
  {
    hide KernelInv, WorkerInv, FramesAt, Encode, CheckTaken;
    ProducedBound(s.k);
    CheckKeeps(s.w);
    CheckFrame(s.w);
  }

  lemma CountEventKeeps(s: State)
    requires Inv(s) && Enabled(s, Count)
    ensures Inv(Apply(s, Count))
  {
    hide KernelInv, WorkerInv, FramesAt, Encode;
    ProducedBound(s.k);
    CountKeeps(s.w);
  }

  lemma WorkerEventKeeps(s: State, e: Event)
    requires Inv(s) && Enabled(s, e)
    requires e.LoadFlag? || e.EndDrain? || e.EndBatch? || e.HangUp?
    ensures Inv(Apply(s, e))
  {
    hide KernelInv, WorkerInv, FramesAt, Encode;
    PcHolds(s.w);
    match e
    case LoadFlag => LoadKeeps(s.w, s.shutdown);
    case EndDrain => MoveKeeps(s.w, Dispatching);
    case EndBatch => MoveKeeps(s.w, Top);
    case HangUp => MoveKeeps(s.w, Exited);
  }

  /** A step that only moves the program point, and not to or from an item or an outcome in hand. */
  lemma MoveKeeps(w: Worker, pc: Pc)
    requires WorkerInv(w) && PcOk(w.(pc := pc))
    requires !w.pc.Took? && !w.pc.SentUncounted? && !w.pc.FullUncounted?
    requires !pc.Took? && !pc.SentUncounted? && !pc.FullUncounted?
    ensures WorkerInv(w.(pc := pc))
  {
    hide KeptIdx, LastTs;
  }

  lemma PcHolds(w: Worker)
    requires WorkerInv(w)
    ensures PcOk(w)
  {
    hide FoldOk, SplitOk, CountsOk;
  }

  lemma ConsumerEventKeeps(s: State, e: Event)
    requires Inv(s) && Enabled(s, e) && (e.Recv? || e.RecvErr? || e.Signal? || e.ProcessExit?)
    ensures Inv(Apply(s, e))
  {
    hide KernelInv, WorkerInv, Encode;
    if e.Recv? {
      var s' := Apply(s, e);
      assert s'.ch.received + s'.ch.queue == s.ch.received + s.ch.queue;
    }
  }

  lemma StepInv(s: State, e: Event)
    requires Inv(s) && Enabled(s, e)
    ensures Inv(Apply(s, e))
  {
    hide Inv, Apply;
    match e
    case RingNext => RingNextKeeps(s);
    case Check => CheckEventKeeps(s);
    case Count => CountEventKeeps(s);
    case TrySend => TrySendKeeps(s);
    case Recv => ConsumerEventKeeps(s, e);
    case RecvErr => ConsumerEventKeeps(s, e);
    case Signal => ConsumerEventKeeps(s, e);
    case ProcessExit => ConsumerEventKeeps(s, e);
    case Tick(_) => KernelEventKeeps(s, e);
    case Accept(_, _, _) => KernelEventKeeps(s, e);
    case Stamp(_) => KernelEventKeeps(s, e);
    case Output(c, fits) => OutputEventKeeps(s, c, fits);
    case _ => WorkerEventKeeps(s, e);
  }

  /** Every run from a state that satisfies the invariant ends in one. */
  lemma {:induction false} RunInv(s: State, es: seq<Event>)
    requires Inv(s) && Run(s, es).Some?
    ensures Inv(Run(s, es).value)
  {
    hide Inv, Apply, Enabled;
    if es != [] {
      RunInv(s, es[..|es| - 1]);
      StepInv(Run(s, es[..|es| - 1]).value, es[|es| - 1]);
    }
  }

  lemma ReachableInv(s: State)
    requires Reachable(s)
    ensures Inv(s)
  {
    hide Inv;
    var ncpu: nat, now: u64, es: seq<Event> :| IsRun(ncpu, now, es, s);
    InitInv(ncpu, now);
    RunInv(Init(ncpu, now), es);
  }
}
