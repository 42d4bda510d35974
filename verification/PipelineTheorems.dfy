/** What holds of every run of the pipeline. */
module PipelineTheorems {
  import opened Words
  import opened SignalFrames
  import opened Vacuum
  import opened Filter
  import opened Pipeline
  import opened PipelineInv

  // ---------------------------------------------------------------------
  // What becomes of each accepted packet
  // ---------------------------------------------------------------------

  datatype Fate =
    | InFlight | LostRingFull | WaitsOnRing | InHand | LostTimestamp | InBatch | LostChannelFull | InChannel | Received
    | Vanished

  /** Where the p-th packet accepted on CPU c is now, or where it was lost. */
  ghost function FateOf(s: State, c: nat, p: nat): Fate
    requires c < |s.k.slot| && p < |s.k.slot[c]|
  {
    match s.k.slot[c][p]
    case Flying => InFlight
    case RingFull => LostRingFull
    case OnRing(j) => RingFate(s.w, |s.ch.received|, j)
  }

  /** Where the j-th frame of the ring is, by the worker's own record and the number of frames received. */
  ghost function RingFate(w: Worker, received: nat, j: nat): Fate {
    if j >= |w.taken| then WaitsOnRing
    else if j >= |Validated(w)| then InHand
    else if j in w.pending then InBatch
    else if j !in w.offered then LostTimestamp
    else if j in w.refused then LostChannelFull
    else if Position(w.sent, j) < received then Received
    else if j in w.sent then InChannel
    else Vanished
  }

  /** The first place of x in the sequence, or its length. */
  ghost function Position(xs: seq<nat>, x: nat): (i: nat)
    ensures i <= |xs| && (i < |xs| ==> xs[i] == x) && (x in xs ==> i < |xs|)
  {
    if xs == [] then 0 else if xs[0] == x then 0 else 1 + Position(xs[1..], x)
  }

  predicate IsLoss(f: Fate) {
    f.LostRingFull? || f.LostTimestamp? || f.LostChannelFull?
  }

  /** The p-th packet accepted on CPU c exists and is lost. */
  ghost predicate Lost(s: State, c: nat, p: int) {
    c < |s.k.slot| && 0 <= p < |s.k.slot[c]| && IsLoss(FateOf(s, c, p))
  }

  lemma SentIsKept(w: Worker, x: nat)
    requires WorkerInv(w) && x in w.sent
    ensures x in w.offered && x !in w.pending && x < |Validated(w)| <= |w.taken| && Fresh(w.taken, x)
  {
    hide KeptIdx, Fresh;
    KeptIdxExact(Validated(w));
    assert x in w.offered + w.pending;
    PendingFollows(w);
    FreshPrefix(w.taken, |Validated(w)|, x);
    assert w.taken[..|Validated(w)|] == Validated(w);
  }

  /** The frames still in the batch come after every offered one. */
  lemma PendingFollows(w: Worker)
    requires WorkerInv(w)
    ensures forall x, y | x in w.offered && y in w.pending :: x < y
  {
    hide KeptIdx, SplitOk, CountsOk;
    KeptIdxExact(Validated(w));
    var all := w.offered + w.pending;
    forall x, y | x in w.offered && y in w.pending ensures x < y {
      var i :| 0 <= i < |w.offered| && w.offered[i] == x;
      var j :| 0 <= j < |w.pending| && w.pending[j] == y;
      assert all[i] == x && all[|w.offered| + j] == y;
    }
  }

  /** The frame received i-th is the ring frame of the i-th sent index. */
  lemma ReceivedFrame(s: State, i: nat)
    requires Inv(s) && i < |s.ch.received|
    ensures i < |s.w.sent| && s.w.sent[i] in s.w.sent && s.w.sent[i] < |s.w.taken| <= |s.k.produced|
    ensures s.k.produced[s.w.sent[i]] == s.ch.received[i]
  {
    hide KernelInv, WorkerInv, Encode;
    var x := s.w.sent[i];
    assert s.w.taken[x] == Some((s.ch.received + s.ch.queue)[i]);
  }

  /** Any packet accepted before a received one of the same CPU was received before it or is lost. */
  lemma EarlierReceivedOrLost(s: State, j: nat, p: nat)
    requires Inv(s) && j < |s.ch.received| && p < s.ch.received[j].ppsDelta
    requires forall m | 0 <= m < j && s.ch.received[m].cpuId == s.ch.received[j].cpuId :: s.ch.received[m].ppsDelta != p
    ensures Lost(s, s.ch.received[j].cpuId, p)
  {
    hide WorkerInv, RingInv, ChannelInv, Fresh;
    PendingFollows(s.w);
    var c := s.ch.received[j].cpuId;
    ReceivedFrame(s, j);
    var x := s.w.sent[j];
    assert FrameOk(s.k, x);
    assert CpuOk(s.k, c);
    assert SlotOk(s.k, c, p);
    if s.k.slot[c][p].OnRing? {
      var y := s.k.slot[c][p].j;
      assert y < x;
      SentIsKept(s.w, x);
      if y in s.w.offered { NotSentBefore(s, j, y); }
    }
  }

  lemma NotSentBefore(s: State, j: nat, y: nat)
    requires Inv(s) && j < |s.ch.received| && j < |s.w.sent| && y in s.w.offered && y < s.w.sent[j]
    requires y < |s.k.produced|
    requires forall m | 0 <= m < j && s.ch.received[m].cpuId == s.ch.received[j].cpuId ::
               s.ch.received[m].ppsDelta != s.k.produced[y].ppsDelta
    requires s.k.produced[y].cpuId == s.ch.received[j].cpuId
    ensures y in s.w.refused
  {
    hide KernelInv, RingInv, ChannelInv, FoldOk, CountsOk;
    if y in s.w.sent {
      var m :| 0 <= m < |s.w.sent| && s.w.sent[m] == y;
      assert m < j;
      ReceivedFrame(s, m);
    }
  }

  /** The packets with numbers strictly between a and b. */
  ghost function Between(a: int, b: int): (r: set<int>)
    ensures forall p :: p in r <==> a < p < b
    ensures a < b ==> |r| == b - a - 1
    decreases b - a
  {
    if a + 1 >= b then {} else Between(a, b - 1) + {b - 1}
  }

  /**
   * End-to-end loss accounting. When the consumer receives two successive frames of one CPU with pps_delta
   * a then b, a < b and the b-a-1 packets in between are exactly lost packets, each in exactly one way.
   */
  lemma LossAccounting(s: State, i: nat, j: nat)
    requires Reachable(s) && i < j < |s.ch.received|
    requires s.ch.received[i].cpuId == s.ch.received[j].cpuId
    requires forall m | i < m < j :: s.ch.received[m].cpuId != s.ch.received[j].cpuId
    ensures var (c, a, b) := (s.ch.received[j].cpuId, s.ch.received[i].ppsDelta, s.ch.received[j].ppsDelta);
            && a < b && |Between(a, b)| == b - a - 1
            && forall p | p in Between(a, b) :: Lost(s, c, p)
  {
    ReachableInv(s);
    hide Inv, Lost;
    var (c, a, b) := (s.ch.received[j].cpuId, s.ch.received[i].ppsDelta, s.ch.received[j].ppsDelta);
    ReceivedOrder(s, i, j);
    forall p | p in Between(a, b) ensures Lost(s, c, p) {
      forall m | 0 <= m < j && s.ch.received[m].cpuId == c ensures s.ch.received[m].ppsDelta != p {
        if m < i { ReceivedOrder(s, m, i); }
      }
      EarlierReceivedOrLost(s, j, p);
    }
  }

  /** Before the first frame received from a CPU, all its earlier packets were lost. */
  lemma LossBeforeFirst(s: State, j: nat)
    requires Reachable(s) && j < |s.ch.received|
    requires forall m | 0 <= m < j :: s.ch.received[m].cpuId != s.ch.received[j].cpuId
    ensures forall p: nat | p < s.ch.received[j].ppsDelta :: Lost(s, s.ch.received[j].cpuId, p)
  {
    ReachableInv(s);
    hide Inv, Lost;
    forall p: nat | p < s.ch.received[j].ppsDelta ensures Lost(s, s.ch.received[j].cpuId, p) {
      EarlierReceivedOrLost(s, j, p);
    }
  }

  lemma ReceivedOrder(s: State, i: nat, j: nat)
    requires Inv(s) && i < j < |s.ch.received|
    ensures s.ch.received[i].cpuId == s.ch.received[j].cpuId ==> s.ch.received[i].ppsDelta < s.ch.received[j].ppsDelta
    ensures s.ch.received[i].timestampNs <= s.ch.received[j].timestampNs
  {
    hide RingInv, ChannelInv, FoldOk, CountsOk, CpuOk, SlotOk, FrameOk;
    ReceivedFrame(s, i);
    ReceivedFrame(s, j);
    var x, y := s.w.sent[i], s.w.sent[j];
    assert x < y;
    SentIsKept(s.w, y);
    ReadingsAreFrames(s, x); ReadingsAreFrames(s, y);
  }

  lemma ReadingsAreFrames(s: State, x: nat)
    requires Inv(s) && x < |s.w.taken|
    ensures x < |s.k.produced| && s.w.taken[x] == Some(s.k.produced[x])
  {
    hide KernelInv, WorkerInv, ChannelInv, Encode;
  }

  /** A packet counts as received exactly when the consumer holds a frame with its cpu_id and pps_delta. */
  lemma ReceivedExactly(s: State, c: nat, p: nat)
    requires Reachable(s) && c < |s.k.slot| && p < |s.k.slot[c]|
    ensures FateOf(s, c, p) == Received <==> exists i: nat :: Holds(s, i, c, p)
  {
    ReachableInv(s);
    hide Inv, FateOf;
    if FateOf(s, c, p) == Received { ReceivedIsHeld(s, c, p); }
    if i: nat :| Holds(s, i, c, p) { HeldIsReceived(s, i, c, p); }
  }

  ghost predicate Holds(s: State, i: nat, c: nat, p: nat) {
    i < |s.ch.received| && s.ch.received[i].cpuId == c && s.ch.received[i].ppsDelta == p
  }

  lemma ReceivedIsHeld(s: State, c: nat, p: nat)
    requires Inv(s) && c < |s.k.slot| && p < |s.k.slot[c]| && FateOf(s, c, p) == Received
    ensures exists i: nat :: Holds(s, i, c, p)
  {
    hide WorkerInv, RingInv, ChannelInv, Fresh, CpuOk, FrameOk, OrderOk;
    assert SlotOk(s.k, c, p);
    var i := Position(s.w.sent, s.k.slot[c][p].j);
    ReceivedFrame(s, i);
    assert Holds(s, i, c, p);
  }

  lemma HeldIsReceived(s: State, i: nat, c: nat, p: nat)
    requires Inv(s) && Holds(s, i, c, p)
    ensures c < |s.k.slot| && p < |s.k.slot[c]| && FateOf(s, c, p) == Received
  {
    hide WorkerInv, RingInv, ChannelInv, Fresh, CpuOk, SlotOk, OrderOk;
    ReceivedFrame(s, i);
    assert FrameOk(s.k, s.w.sent[i]);
    SentIsKept(s.w, s.w.sent[i]);
    SentPosition(s.w, i);
  }

  lemma SentPosition(w: Worker, i: nat)
    requires WorkerInv(w) && i < |w.sent|
    ensures Position(w.sent, w.sent[i]) == i && w.sent[i] !in w.refused
  {
    hide FoldOk, CountsOk;
    var m := Position(w.sent, w.sent[i]);
    assert w.sent[i] in w.sent;
    assert w.sent[m] == w.sent[i];
  }

  /** No packet ever vanishes uncounted. */
  lemma NothingVanishes(s: State, c: nat, p: nat)
    requires Reachable(s) && c < |s.k.slot| && p < |s.k.slot[c]|
    ensures FateOf(s, c, p) != Vanished
  {
    ReachableInv(s);
    hide KernelInv, RingInv, ChannelInv, FoldOk, CountsOk;
  }

  /**
   * Once the consumer has left or the process has ended, every accepted packet is received, lost in one way, still on
   * its CPU or the ring, or in a channel that the consumer had not emptied.
   */
  lemma FinalFates(s: State, c: nat, p: nat)
    requires Reachable(s) && (!s.ch.rx || s.exited) && c < |s.k.slot| && p < |s.k.slot[c]|
    ensures var f := FateOf(s, c, p);
            f.Received? || IsLoss(f) || f.InFlight? || f.WaitsOnRing? || (f.InChannel? && s.ch.rx && s.ch.queue != [])
  {
    NothingVanishes(s, c, p);
    ReachableInv(s);
    hide KernelInv, RingInv, CountsOk, KeptIdx, LastTs;
    if s.ch.queue == [] { assert s.ch.received + s.ch.queue == s.ch.received; }
  }

  // ---------------------------------------------------------------------
  // Conservation
  // ---------------------------------------------------------------------

  /** Items taken but in neither a counter nor the batch: the one in hand, or the one sent or refused and not yet counted. */
  function Uncounted(w: Worker): nat {
    if w.pc.Took? || w.pc.SentUncounted? || w.pc.FullUncounted? then 1 else 0
  }

  /** Exact conservation in every reachable state, although the counters are 64-bit and wrap. */
  lemma Conservation(s: State)
    requires Reachable(s)
    ensures |s.w.taken| == s.w.dropped + s.w.ok + s.w.full + |s.w.batch| + Uncounted(s.w)
    ensures |s.k.produced| == |s.w.taken| + |s.ring| <= |s.k.cpu| * 1_000_000 < U64_MOD
    ensures |s.ch.received| + |s.ch.queue| == s.w.ok + (if s.w.pc.SentUncounted? then 1 else 0)
  {
    ReachableInv(s);
    ProducedBound(s.k);
    hide KernelInv, KeptIdx, LastTs, Encode;
  }

  /** The receiver outlives the worker, so a send never finds the channel disconnected. */
  lemma NeverDisconnected(s: State)
    requires Reachable(s) && Enabled(s, TrySend)
    ensures !TrySendResult(s.ch).SendDisconnected?
  {
    ReachableInv(s);
    hide KernelInv, WorkerInv, RingInv;
  }

  /** Backpressure needs a full channel: nothing is refused before 1024 frames have been sent. */
  lemma NoRefusalBeforeCapacity(s: State)
    requires Reachable(s) && |s.w.sent| < 1024
    ensures s.w.refused == [] && s.w.full == 0
  {
    ReachableInv(s);
    hide KernelInv, RingInv, FoldOk, SplitOk;
  }

  /**
   * A send is refused exactly when the queue holds 1024 frames at that moment, and then the channel is untouched;
   * otherwise the first frame of the batch is the new last one of the queue. Either way it leaves the batch.
   */
  lemma RefusedExactlyWhenFull(s: State)
    requires Reachable(s) && Enabled(s, TrySend)
    ensures var s' := Apply(s, TrySend);
            && |s.ch.queue| <= 1024 && s.w.batch != [] && s.w.pending != []
            && (s'.w.pc.FullUncounted? <==> |s.ch.queue| == 1024) && (s'.w.pc.SentUncounted? <==> |s.ch.queue| < 1024)
            && s'.ch == (if |s.ch.queue| == 1024 then s.ch else s.ch.(queue := s.ch.queue + [s.w.batch[0]]))
            && s'.w.batch == s.w.batch[1..]
            && (s'.w.sent, s'.w.refused) == (if |s.ch.queue| == 1024 then (s.w.sent, s.w.refused + [s.w.pending[0]])
                                             else (s.w.sent + [s.w.pending[0]], s.w.refused))
  {
    ReachableInv(s);
    NeverDisconnected(s);
    hide KernelInv, RingInv, SplitOk, CountsOk, KeptIdx, LastTs, Reachable;
  }

  /** A CPU is never stuck in the ingress program; its output finds room as long as fewer than 3640 frames wait. */
  lemma CpuNeverStuck(s: State, c: nat, flowHash: u64, l3Hdr: L3Header)
    requires Reachable(s) && c < |s.k.cpu|
    ensures s.k.cpu[c].Idle? ==> c < |s.k.ctr| && (Enabled(s, Accept(c, flowHash, l3Hdr)) <==> s.k.ctr[c] < 1_000_000)
    ensures s.k.cpu[c].Accepted? ==> Enabled(s, Stamp(c))
    ensures s.k.cpu[c].Stamped? ==> Enabled(s, Output(c, false)) && (Enabled(s, Output(c, true)) <==> |s.ring| < 3640)
  {
    hide Reachable, WorkerInv, RingInv, ChannelInv, CpuOk, SlotOk, FrameOk, OrderOk;
    ReachableInv(s);
  }

  /** While the process lasts the consumer takes the queue's front whenever there is one, and leaves only after the worker. */
  lemma ConsumerNeverStuck(s: State)
    requires Reachable(s) && !s.exited
    ensures Enabled(s, Recv) <==> s.ch.queue != []
    ensures s.ch.queue != [] ==>
              Apply(s, Recv).ch == s.ch.(queue := s.ch.queue[1..], received := s.ch.received + [s.ch.queue[0]])
    ensures Enabled(s, RecvErr) <==> s.ch.queue == [] && s.w.pc.Exited? && s.ch.rx
  {
    hide Reachable, KernelInv, WorkerInv, RingInv, FramesAt;
    ReachableInv(s);
  }

  /** Time can pass and the signal can arrive whatever the others do; the process can end as soon as main has joined the worker. */
  lemma ClockAndMainNeverStuck(s: State, now: u64)
    requires Reachable(s)
    ensures Enabled(s, Tick(now)) <==> now >= s.k.now
    ensures now >= s.k.now ==> Apply(s, Tick(now)) == s.(k := s.k.(now := now))
    ensures Enabled(s, Signal) && Apply(s, Signal) == s.(shutdown := true)
    ensures Enabled(s, ProcessExit) <==> s.shutdown && !s.ch.tx && !s.exited
  {
    hide Reachable, KernelInv, WorkerInv, RingInv, FramesAt;
    ReachableInv(s);
  }

  /** The push onto the batch never fails. */
  lemma PushNeverFails(s: State)
    requires Reachable(s) && Enabled(s, Check)
    ensures |s.w.batch| < 256
  {
    ReachableInv(s);
    hide KernelInv, FoldOk, RingInv, ChannelInv;
  }

  /** The ring never holds more than its bytes: at most 3640 frames wait at any time. */
  lemma RingWithinCapacity(s: State)
    requires Reachable(s)
    ensures RING_RECORD * |s.ring| <= RING_BYTES && |s.ring| <= 3640
  {
    ReachableInv(s);
    hide KernelInv, WorkerInv, ChannelInv, Encode;
  }

  /** Every reading is a frame: the size check never fires on what the CPUs write. */
  lemma SizeCheckNeverFires(s: State, j: nat)
    requires Reachable(s) && j < |s.w.taken|
    ensures s.w.taken[j].Some?
  {
    ReachableInv(s);
    hide Inv;
    ReadingsAreFrames(s, j);
  }

  // ---------------------------------------------------------------------
  // Per-CPU counters
  // ---------------------------------------------------------------------

  function CountIn(slots: seq<Slot>, onRing: bool): nat {
    if slots == [] then 0
    else CountIn(slots[..|slots| - 1], onRing)
         + (if (onRing && slots[|slots| - 1].OnRing?) || (!onRing && slots[|slots| - 1].RingFull?) then 1 else 0)
  }

  lemma {:induction false} CountsCover(slots: seq<Slot>)
    requires forall p | 0 <= p < |slots| :: slots[p] != Flying
    ensures CountIn(slots, true) + CountIn(slots, false) == |slots|
  {
    if slots != [] { CountsCover(slots[..|slots| - 1]); }
  }

  /** A CPU's counter is its ring successes plus ring-full failures plus the packet in flight, never over the threshold. */
  lemma CounterIsAccepted(s: State, c: nat)
    requires Reachable(s) && c < |s.k.cpu|
    ensures c < |s.k.ctr| == |s.k.slot| == |s.k.cpu|
    ensures s.k.ctr[c] == CountIn(s.k.slot[c], true) + CountIn(s.k.slot[c], false) + (if s.k.cpu[c].Idle? then 0 else 1)
    ensures s.k.ctr[c] <= 1_000_000
  {
    ReachableInv(s);
    hide WorkerInv, RingInv, ChannelInv, SlotOk, FrameOk, OrderOk, CountIn;
    assert CpuOk(s.k, c);
    var slots := s.k.slot[c];
    if s.k.cpu[c].Idle? { CountsCover(slots); } else { CountsCoverAllButLast(slots); }
  }

  lemma CountsCoverAllButLast(slots: seq<Slot>)
    requires slots != [] && forall p | 0 <= p < |slots| :: slots[p] == Flying <==> p == |slots| - 1
    ensures CountIn(slots, true) + CountIn(slots, false) + 1 == |slots|
  {
    CountsCover(slots[..|slots| - 1]);
  }

  /** The p-th accepted packet of a CPU carries pps_delta p: in its ring frame, and while in flight. */
  lemma AcceptedNumbering(s: State, c: nat, p: nat)
    requires Reachable(s) && c < |s.k.slot| && p < |s.k.slot[c]|
    ensures s.k.slot[c][p].OnRing? ==>
              var j := s.k.slot[c][p].j;
              j < |s.k.produced| && s.k.produced[j].cpuId == c && s.k.produced[j].ppsDelta == p
    ensures c < |s.k.cpu| && (s.k.slot[c][p].Flying? <==> !s.k.cpu[c].Idle? && PpsOf(s.k.cpu[c]) == p)
  {
    ReachableInv(s);
    hide WorkerInv, RingInv, ChannelInv;
    assert SlotOk(s.k, c, p);
    assert CpuOk(s.k, c);
  }

  // ---------------------------------------------------------------------
  // Timestamps and order
  // ---------------------------------------------------------------------

  ghost predicate Overtakes(k: Kernel, i: int, j: int) {
    && 0 <= i < j < |k.produced| && k.produced[i].cpuId != k.produced[j].cpuId
    && k.produced[i].timestampNs > k.produced[j].timestampNs
  }

  /** A validated frame was dropped exactly when a later-stamped frame of another CPU overtook it on the ring. */
  lemma DroppedExactlyWhenOvertaken(s: State, j: nat)
    requires Reachable(s) && j < |Validated(s.w)|
    ensures j !in s.w.offered && j !in s.w.pending <==> exists i :: Overtakes(s.k, i, j)
  {
    ReachableInv(s);
    hide KernelInv, RingInv, ChannelInv, Fresh, KeptIdx;
    var v := Validated(s.w);
    assert v == s.w.taken[..|v|];
    KeptIdxExact(v);
    FreshPrefix(s.w.taken, |v|, j);
    assert j in KeptIdx(v) <==> j in s.w.offered || j in s.w.pending;
    StaleIsOvertaken(s, j);
  }

  /** The packets lost to the timestamp check are those whose validated frame was overtaken. */
  lemma LostTimestampExactlyWhen(s: State, c: nat, p: nat)
    requires Reachable(s) && c < |s.k.slot| && p < |s.k.slot[c]|
    ensures FateOf(s, c, p) == LostTimestamp <==>
              && s.k.slot[c][p].OnRing? && s.k.slot[c][p].j < |Validated(s.w)|
              && exists i :: Overtakes(s.k, i, s.k.slot[c][p].j)
  {
    if s.k.slot[c][p].OnRing? && s.k.slot[c][p].j < |Validated(s.w)| { DroppedExactlyWhenOvertaken(s, s.k.slot[c][p].j); }
  }

  lemma StaleIsOvertaken(s: State, j: nat)
    requires Inv(s) && j < |s.w.taken|
    ensures !Fresh(s.w.taken, j) <==> exists i :: Overtakes(s.k, i, j)
  {
    hide WorkerInv, ChannelInv, CpuOk, SlotOk, FrameOk, Encode;
    ReadingsAreFrames(s, j);
    if !Fresh(s.w.taken, j) {
      var i :| 0 <= i < j && s.w.taken[i].Some? && s.w.taken[i].value.timestampNs > s.w.taken[j].value.timestampNs;
      ReadingsAreFrames(s, i);
      assert Overtakes(s.k, i, j);
    }
    if i :| Overtakes(s.k, i, j) {
      ReadingsAreFrames(s, i);
    }
  }

  /** With one producing CPU nothing is ever dropped. */
  lemma SingleCpuDropsNothing(s: State, c: u32)
    requires Reachable(s) && forall j | 0 <= j < |s.k.produced| :: s.k.produced[j].cpuId == c
    ensures s.w.dropped == 0
  {
    ReachableInv(s);
    hide KernelInv, RingInv, ChannelInv, Fresh, KeptIdx;
    var v := Validated(s.w);
    assert v == s.w.taken[..|v|];
    forall j: nat | j < |v| ensures Fresh(v, j) {
      FreshPrefix(s.w.taken, |v|, j);
      StaleIsOvertaken(s, j);
    }
    AllFresh(v);
  }

  lemma {:induction false} AllFresh(rs: seq<Reading>)
    requires forall j: nat | j < |rs| :: Fresh(rs, j)
    ensures |KeptIdx(rs)| == |rs|
  {
    if rs != [] {
      var front := rs[..|rs| - 1];
      forall j: nat | j < |front| ensures Fresh(front, j) { FreshPrefix(rs, |front|, j); }
      AllFresh(front);
    }
  }

  /** Batch boundaries leave no trace: offered frames then the batch are the one-at-a-time fold of what was taken. */
  lemma BatchingInvisible(s: State)
    requires Reachable(s)
    ensures s.w.offered + s.w.pending == KeptIdx(Validated(s.w))
    ensures exists offeredFrames ::
              FramesAt(s.w.taken, s.w.offered, offeredFrames) && offeredFrames + s.w.batch == Fold(Validated(s.w))
  {
    ReachableInv(s);
    hide KernelInv, SplitOk, CountsOk, RingInv, ChannelInv, KeptIdx, Fold, LastTs;
    var v := Validated(s.w);
    var n, frames := |s.w.offered|, Fold(v);
    FoldIsKept(v);
    assert v == s.w.taken[..|v|];
    FramesAtPrefix(s.w.taken, |v|, s.w.offered + s.w.pending, frames);
    FramesAtSplit(s.w.taken, s.w.offered, s.w.pending, frames);
    FramesAtUnique(s.w.taken, s.w.pending, frames[n..], s.w.batch);
    assert frames[..n] + s.w.batch == frames;
  }

  /**
   * The consumer receives an in-order, unmodified subsequence of what the CPUs put on the ring,
   * with non-decreasing timestamps and no repeated (cpu_id, pps_delta).
   */
  lemma ConsumerView(s: State)
    requires Reachable(s)
    ensures exists idx: seq<nat> :: Increasing(idx) && |idx| == |s.ch.received|
              && forall i | 0 <= i < |idx| :: idx[i] < |s.k.produced| && s.k.produced[idx[i]] == s.ch.received[i]
    ensures forall i, j | 0 <= i < j < |s.ch.received| :: s.ch.received[i].timestampNs <= s.ch.received[j].timestampNs
    ensures forall i, j | 0 <= i < j < |s.ch.received| ::
              (s.ch.received[i].cpuId, s.ch.received[i].ppsDelta) != (s.ch.received[j].cpuId, s.ch.received[j].ppsDelta)
  {
    hide Inv, Reachable;
    ReachableInv(s);
    ReceivedIndices(s);
    forall i: nat, j: nat | i < j < |s.ch.received|
      ensures s.ch.received[i].timestampNs <= s.ch.received[j].timestampNs
      ensures (s.ch.received[i].cpuId, s.ch.received[i].ppsDelta) != (s.ch.received[j].cpuId, s.ch.received[j].ppsDelta)
    {
      ReceivedOrder(s, i, j);
    }
  }

  lemma ReceivedIndices(s: State)
    requires Inv(s)
    ensures exists idx: seq<nat> :: Increasing(idx) && |idx| == |s.ch.received|
              && forall i | 0 <= i < |idx| :: idx[i] < |s.k.produced| && s.k.produced[idx[i]] == s.ch.received[i]
  {
    hide KernelInv, RingInv, FoldOk, CountsOk, Encode;
    var idx := s.w.sent[..|s.ch.received|];
    forall i | 0 <= i < |idx| ensures idx[i] < |s.k.produced| && s.k.produced[idx[i]] == s.ch.received[i] {
      ReceivedFrame(s, i);
    }
    assert Increasing(idx);
  }
}
