/**
 * The capture pipeline as a step machine: CPUs running the ingress program, one shared ring,
 * the vacuum worker, a bounded channel, the consumer, the shutdown flag, the end of the process and the clock.
 * Each event is one atomic action of one thread; threads interleave freely.
 */
module Pipeline {
  import opened Words
  import opened SignalFrames
  import opened Vacuum
  import opened Filter

  const DISPATCH_CAPACITY: nat := BATCH_SIZE * 4
  const RING_BYTES: nat := 262_144
  /** A frame on the ring takes the kernel's 8-byte record header besides its own bytes. */
  const RING_RECORD: nat := 8 + SIGNAL_FRAME_SIZE

  // ---------------------------------------------------------------------
  // State. Fields after a "history" comment record the past and steer nothing.
  // ---------------------------------------------------------------------

  /** Where one CPU stands in the ingress program between its counter increment and its ring output. */
  datatype CpuState =
    | Idle
    | Accepted(flowHash: u64, l3Hdr: L3Header, pps: u32)
    | Stamped(frame: SignalFrame)

  /** What became of one accepted packet on its CPU. */
  datatype Slot = Flying | RingFull | OnRing(j: nat)

  datatype Kernel = Kernel(
    now: u64,
    ctr: seq<u64>,
    cpu: seq<CpuState>,
    // history: slot[c][p] is the p-th packet accepted on CPU c; produced is all that was put on the ring
    slot: seq<seq<Slot>>,
    produced: seq<SignalFrame>
  )

  /** Where the worker stands in its poll loop. */
  datatype Pc =
    | Top
    | Draining(i: nat)
    | Took(i: nat, item: Item)
    | Dispatching
    | SentUncounted
    | FullUncounted
    | Leaving
    | Exited

  datatype Worker = Worker(
    pc: Pc,
    batch: seq<SignalFrame>,
    lastTs: u64,
    ok: u64,
    dropped: u64,
    full: u64,
    // history: readings taken from the ring, and indices into them
    taken: seq<Reading>,
    pending: seq<nat>,
    offered: seq<nat>,
    sent: seq<nat>,
    refused: seq<nat>
  )

  datatype Channel = Channel(
    queue: seq<SignalFrame>,
    tx: bool,
    rx: bool,
    // history
    received: seq<SignalFrame>
  )

  datatype State = State(k: Kernel, ring: seq<Item>, w: Worker, ch: Channel, shutdown: bool, exited: bool)

  function Init(ncpu: nat, now: u64): State {
    State(
      Kernel(now, seq(ncpu, _ => 0), seq(ncpu, _ => Idle), seq(ncpu, _ => []), []),
      [],
      Worker(Top, [], 0, 0, 0, 0, [], [], [], [], []),
      Channel([], true, true, []),
      false,
      false)
  }

  // ---------------------------------------------------------------------
  // Events
  // ---------------------------------------------------------------------

  datatype Event =
    | Tick(now: u64)
    | Accept(c: nat, flowHash: u64, l3Hdr: L3Header)
    | Stamp(c: nat)
    | Output(c: nat, fits: bool)
    | LoadFlag
    | RingNext
    | Check
    | EndDrain
    | TrySend
    | Count
    | EndBatch
    | HangUp
    | Recv
    | RecvErr
    | Signal
    | ProcessExit

  datatype Actor = Clock | Cpu(c: nat) | WorkerThread | ConsumerThread | MainThread

  function ActorOf(e: Event): Actor {
    match e
    case Tick(_) => Clock
    case Accept(c, _, _) => Cpu(c)
    case Stamp(c) => Cpu(c)
    case Output(c, _) => Cpu(c)
    case Recv => ConsumerThread
    case RecvErr => ConsumerThread
    case Signal => MainThread
    case ProcessExit => MainThread
    case _ => WorkerThread
  }

  predicate Enabled(s: State, e: Event) {
    match e
    case Tick(now) => now >= s.k.now
    case Accept(c, _, _) => KernelSized(s.k) && c < |s.k.cpu| && s.k.cpu[c].Idle? && s.k.ctr[c] < MAXPPS_THRESHOLD
    case Stamp(c) => KernelSized(s.k) && c < |s.k.cpu| && s.k.cpu[c].Accepted?
    case Output(c, fits) =>
      && KernelSized(s.k) && c < |s.k.cpu| && s.k.cpu[c].Stamped?
      && (fits ==> RING_RECORD * (|s.ring| + 1) <= RING_BYTES)
    case LoadFlag => s.w.pc.Top?
    case RingNext => s.w.pc.Draining? && s.w.pc.i < BATCH_SIZE
    case Check => s.w.pc.Took?
    case EndDrain => s.w.pc.Draining? && s.w.pc.i == BATCH_SIZE
    case TrySend => s.w.pc.Dispatching? && s.w.batch != []
    case Count => s.w.pc.SentUncounted? || s.w.pc.FullUncounted?
    case EndBatch => s.w.pc.Dispatching? && s.w.batch == []
    case HangUp => s.w.pc.Leaving?
    case Recv => !s.exited && s.ch.rx && s.ch.queue != []
    case RecvErr => !s.exited && s.ch.rx && s.ch.queue == [] && !s.ch.tx
    case Signal => true
    // main joins the worker but not the consumer, then returns
    case ProcessExit => s.shutdown && s.w.pc.Exited? && !s.exited
  }

  predicate KernelSized(k: Kernel) {
    |k.ctr| == |k.cpu| == |k.slot| <= U32_MOD
  }

  // --- the ingress program on CPU c ---

  /** Counter increment and acceptance, inside `select`. */
  function AcceptOn(k: Kernel, c: nat, flowHash: u64, l3Hdr: L3Header): Kernel
    requires KernelSized(k) && c < |k.cpu| && k.ctr[c] < MAXPPS_THRESHOLD
  {
    k.(ctr := k.ctr[c := k.ctr[c] + 1],
       cpu := k.cpu[c := Accepted(flowHash, l3Hdr, k.ctr[c])],
       slot := k.slot[c := k.slot[c] + [Flying]])
  }

  /** The frame as the program fills it in. */
  function BuildFrame(flowHash: u64, l3Hdr: L3Header, pps: u32, c: u32, now: u64): SignalFrame {
    Zeroed().(flowHash := flowHash, timestampNs := now, l3Hdr := l3Hdr,
              l4Flags := flowHash / U32_MOD, ppsDelta := pps, cpuId := c)
  }

  function StampOn(k: Kernel, c: nat): Kernel
    requires KernelSized(k) && c < |k.cpu| && k.cpu[c].Accepted?
  {
    k.(cpu := k.cpu[c := Stamped(BuildFrame(k.cpu[c].flowHash, k.cpu[c].l3Hdr, k.cpu[c].pps, c, k.now))])
  }

  /** History: the packet in flight is the last one accepted. */
  function Land(slots: seq<Slot>, outcome: Slot): seq<Slot> {
    if slots == [] then [] else slots[|slots| - 1 := outcome]
  }

  function OutputOn(k: Kernel, c: nat, fits: bool): Kernel
    requires KernelSized(k) && c < |k.cpu| && k.cpu[c].Stamped?
  {
    var outcome := if fits then OnRing(|k.produced|) else RingFull;
    k.(cpu := k.cpu[c := Idle],
       slot := k.slot[c := Land(k.slot[c], outcome)],
       produced := if fits then k.produced + [k.cpu[c].frame] else k.produced)
  }

  // --- the worker ---

  function Load(w: Worker, shutdown: bool): Worker {
    if shutdown then w.(pc := Leaving) else w.(pc := Draining(0), batch := [], pending := [])
  }

  function Take(w: Worker, ring: seq<Item>): Worker
    requires w.pc.Draining?
  {
    if ring == [] then w.(pc := Dispatching)
    else w.(pc := Took(w.pc.i, ring[0]), taken := w.taken + [Parse(ring[0])])
  }

  /** Validate the item in hand: drop and count it, or push it on the batch (a full batch loses it silently). */
  function CheckTaken(w: Worker): Worker
    requires w.pc.Took?
  {
    var r := Parse(w.pc.item);
    var next := w.(pc := Draining(w.pc.i + 1));
    if !Passes(r, w.lastTs) then next.(dropped := WrappingInc(w.dropped))
    else if |w.batch| < BATCH_SIZE then
      next.(lastTs := r.value.timestampNs, batch := w.batch + [r.value], pending := w.pending + [LastIndex(w.taken)])
    else next.(lastTs := r.value.timestampNs)
  }

  function LastIndex(taken: seq<Reading>): nat {
    if taken == [] then 0 else |taken| - 1
  }

  datatype SendResult = SendOk | SendFull | SendDisconnected

  function TrySendResult(ch: Channel): SendResult {
    if !ch.rx then SendDisconnected else if |ch.queue| < DISPATCH_CAPACITY then SendOk else SendFull
  }

  function Offer(w: Worker, r: SendResult): Worker
    requires w.batch != []
  {
    var x := if w.pending == [] then 0 else w.pending[0];
    var next := w.(batch := w.batch[1..], pending := if w.pending == [] then [] else w.pending[1..],
                   offered := w.offered + [x]);
    match r
    case SendOk => next.(pc := SentUncounted, sent := w.sent + [x])
    case SendFull => next.(pc := FullUncounted, refused := w.refused + [x])
    case SendDisconnected => next.(pc := Dispatching)
  }

  function CountOutcome(w: Worker): Worker {
    if w.pc.SentUncounted? then w.(pc := Dispatching, ok := WrappingInc(w.ok))
    else w.(pc := Dispatching, full := WrappingInc(w.full))
  }

  // --- one step ---

  function Apply(s: State, e: Event): State
    requires Enabled(s, e)
  {
    match e
    case Tick(now) => s.(k := s.k.(now := now))
    case Accept(c, flowHash, l3Hdr) => s.(k := AcceptOn(s.k, c, flowHash, l3Hdr))
    case Stamp(c) => s.(k := StampOn(s.k, c))
    case Output(c, fits) =>
      s.(k := OutputOn(s.k, c, fits), ring := if fits then s.ring + [Encode(s.k.cpu[c].frame)] else s.ring)
    case LoadFlag => s.(w := Load(s.w, s.shutdown))
    case RingNext => s.(w := Take(s.w, s.ring), ring := if s.ring == [] then [] else s.ring[1..])
    case Check => s.(w := CheckTaken(s.w))
    case EndDrain => s.(w := s.w.(pc := Dispatching))
    case TrySend =>
      s.(w := Offer(s.w, TrySendResult(s.ch)),
         ch := if TrySendResult(s.ch).SendOk? then s.ch.(queue := s.ch.queue + [s.w.batch[0]]) else s.ch)
    case Count => s.(w := CountOutcome(s.w))
    case EndBatch => s.(w := s.w.(pc := Top))
    case HangUp => s.(w := s.w.(pc := Exited), ch := s.ch.(tx := false))
    case Recv => s.(ch := s.ch.(queue := s.ch.queue[1..], received := s.ch.received + [s.ch.queue[0]]))
    case RecvErr => s.(ch := s.ch.(rx := false))
    case Signal => s.(shutdown := true)
    case ProcessExit => s.(exited := true)
  }

  // ---------------------------------------------------------------------
  // Runs
  // ---------------------------------------------------------------------

  /** The state after a sequence of events, if each is enabled in turn. */
  function Run(s: State, es: seq<Event>): Option<State> {
    if es == [] then Some(s)
    else
      var before := Run(s, es[..|es| - 1]);
      if before.Some? && Enabled(before.value, es[|es| - 1]) then Some(Apply(before.value, es[|es| - 1])) else None
  }

  ghost predicate Reachable(s: State) {
    exists ncpu: nat, now: u64, es: seq<Event> :: IsRun(ncpu, now, es, s)
  }

  ghost predicate IsRun(ncpu: nat, now: u64, es: seq<Event>, s: State) {
    ncpu <= U32_MOD && Run(Init(ncpu, now), es) == Some(s)
  }
}
