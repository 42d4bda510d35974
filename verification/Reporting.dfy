/** The telemetry reporter beside the vacuum worker of one run: what its log lines say about the packets. */
module Reporting {
  import opened Words
  import opened SignalFrames
  import opened Vacuum
  import opened Pipeline
  import opened PipelineInv
  import opened PipelineTheorems
  import opened PipelineTally
  import T = Telemetry

  /** The record call a worker on this CPU makes in one event. */
  function BumpOf(w: Worker, e: Event, cpu: nat): seq<T.Bump> {
    match e
    case Check => if w.pc.Took? && !Passes(Parse(w.pc.item), w.lastTs) then [T.Bump(T.Dropped, cpu)] else []
    case Count => [T.Bump(if w.pc.SentUncounted? then T.Ok else T.Full, cpu)]
    case _ => []
  }

  /** The record calls of a run, in order. */
  function BumpsOf(s: State, es: seq<Event>, cpu: nat): seq<T.Bump>
    requires Run(s, es).Some?
  {
    if es == [] then []
    else
      var front := es[..|es| - 1];
      BumpsOf(s, front, cpu) + BumpOf(Run(s, front).value.w, es[|es| - 1], cpu)
  }

  function Calls(bs: seq<T.Bump>): T.Tally {
    T.Tally(T.CallsOf(bs, T.Ok, NCPU), T.CallsOf(bs, T.Dropped, NCPU), T.CallsOf(bs, T.Full, NCPU))
  }

  function Plus(a: T.Tally, b: T.Tally): T.Tally {
    T.Tally(a.ok + b.ok, a.drop + b.drop, a.full + b.full)
  }

  lemma {:induction false} CallsAppend(a: seq<T.Bump>, b: seq<T.Bump>, kind: T.Kind)
    ensures T.CallsOf(a + b, kind, NCPU) == T.CallsOf(a, kind, NCPU) + T.CallsOf(b, kind, NCPU)
    decreases |b|
  {
    if b == [] {
      assert a + b == a;
    } else {
      assert (a + b)[..|a + b| - 1] == a + b[..|b| - 1];
      CallsAppend(a, b[..|b| - 1], kind);
    }
  }

  lemma CallsPlus(a: seq<T.Bump>, b: seq<T.Bump>)
    ensures Calls(a + b) == Plus(Calls(a), Calls(b))
  {
    hide T.CallsOf;
    CallsAppend(a, b, T.Ok);
    CallsAppend(a, b, T.Dropped);
    CallsAppend(a, b, T.Full);
  }

  function CountersOf(w: Worker): T.Tally {
    T.Tally(w.ok, w.dropped, w.full)
  }

  /** Each event moves the worker's counters by the record calls it makes; none wraps. */
  lemma BumpCounts(s: State, e: Event, cpu: nat)
    requires Inv(s) && Enabled(s, e) && cpu < NCPU
    ensures CountersOf(Apply(s, e).w) == Plus(CountersOf(s.w), Calls(BumpOf(s.w, e, cpu)))
  {
    hide KernelInv, FoldOk, SplitOk, Parse, Passes, Encode, KeptIdx, WrappingInc;
    NoCounterWraps(s);
    OneCall(T.Ok, cpu); OneCall(T.Dropped, cpu); OneCall(T.Full, cpu);
    assert Calls([]) == T.Tally(0, 0, 0);
  }

  lemma OneCall(kind: T.Kind, cpu: nat)
    requires cpu < NCPU
    ensures Calls([T.Bump(kind, cpu)]) ==
              T.Tally(if kind == T.Ok then 1 else 0, if kind == T.Dropped then 1 else 0, if kind == T.Full then 1 else 0)
  {
    var b := [T.Bump(kind, cpu)];
    assert b[..0] == [] && |b| == 1;
    forall k ensures T.CallsOf(b, k, NCPU) == if k == kind then 1 else 0 {
      assert T.CallsOf(b[..0], k, NCPU) == 0;
    }
  }

  lemma NoCounterWraps(s: State)
    requires Inv(s)
    ensures s.w.pc.Took? ==> WrappingInc(s.w.dropped) == s.w.dropped + 1
    ensures s.w.pc.SentUncounted? ==> WrappingInc(s.w.ok) == s.w.ok + 1
    ensures s.w.pc.FullUncounted? ==> WrappingInc(s.w.full) == s.w.full + 1
  {
    ProducedBound(s.k);
    hide KernelInv, KeptIdx, LastTs, Encode;
    IncFits(s.w.dropped);
    IncFits(s.w.ok);
    IncFits(s.w.full);
  }

  /** The worker's counters are the record calls it made. */
  lemma {:induction false} CountersAreCalls(ncpu: nat, now: u64, es: seq<Event>, s: State, cpu: nat)
    requires IsRun(ncpu, now, es, s) && cpu < NCPU
    ensures Calls(BumpsOf(Init(ncpu, now), es, cpu)) == CountersOf(s.w)
    ensures forall b | b in BumpsOf(Init(ncpu, now), es, cpu) :: b.cpu == cpu
  {
    hide Inv, Enabled, Apply, Calls, BumpOf;
    if es == [] {
      NoCalls();
    } else {
      var front, e := es[..|es| - 1], es[|es| - 1];
      var before := Run(Init(ncpu, now), front).value;
      CountersAreCalls(ncpu, now, front, before, cpu);
      InitInv(ncpu, now);
      RunInv(Init(ncpu, now), front);
      BumpCounts(before, e, cpu);
      OwnCpu(before.w, e, cpu);
      CallsPlus(BumpsOf(Init(ncpu, now), front, cpu), BumpOf(before.w, e, cpu));
    }
  }

  lemma OwnCpu(w: Worker, e: Event, cpu: nat)
    ensures forall b | b in BumpOf(w, e, cpu) :: b.cpu == cpu
  {
    hide Parse, Passes;
  }

  lemma NoCalls()
    ensures Calls([]) == T.Tally(0, 0, 0)
  {}

  function Concat(script: seq<seq<T.Bump>>): seq<T.Bump> {
    if script == [] then [] else script[0] + Concat(script[1..])
  }

  lemma {:induction false} CallsOfScript(script: seq<seq<T.Bump>>)
    ensures Calls(Concat(script)) == T.Tally(T.CallsIn(script, T.Ok), T.CallsIn(script, T.Dropped), T.CallsIn(script, T.Full))
  {
    hide T.CallsOf;
    if script == [] {
      NoCalls();
    } else {
      CallsOfScript(script[1..]);
      CallsPlus(script[0], Concat(script[1..]));
    }
  }

  /**
   * The reporter beside a worker whose record calls fall between the reporter's loads in any way. The deltas of all
   * lines never add up to more than the worker counted, and add up to exactly that if a last round follows its last call.
   */
  method ReportRun(ghost ncpu: nat, ghost now: u64, ghost es: seq<Event>, ghost s: State, ghost cpu: nat,
                   script: seq<seq<T.Bump>>, rounds: nat)
    returns (lines: seq<T.Line>, ghost seen: seq<T.Tally>)
    requires IsRun(ncpu, now, es, s) && cpu < NCPU && Concat(script) == BumpsOf(Init(ncpu, now), es, cpu)
    ensures |lines| == rounds && T.LinesOk(lines, seen)
    ensures T.DeltasOk(lines) <= s.w.ok <= |Packets(s, Received)| + |Packets(s, InChannel)|
    ensures T.DeltasDrop(lines) <= s.w.dropped == |Packets(s, LostTimestamp)|
    ensures forall line | line in lines :: line.full <= s.w.full <= |Packets(s, LostChannelFull)|
    ensures rounds > 0 && |script| <= T.LOADS_PER_ROUND * (rounds - 1) ==>
              T.DeltasOk(lines) == s.w.ok && T.DeltasDrop(lines) == s.w.dropped && lines[rounds - 1].full == s.w.full
  {
    hide Packets, IsRun, Reachable, T.DeltasOk, T.DeltasDrop, T.LineOk, Calls, T.CallsIn, BumpsOf, Concat;
    CallsOfScript(script);
    CountersAreCalls(ncpu, now, es, s, cpu);
    RunIsReachable(ncpu, now, es, s);
    FatesMatchCounters(s);
    var metrics := new T.Metrics(script);
    lines, seen := metrics.Report(rounds);
    T.DeltasAddUpExactlyWhen(lines, seen);
    FullShown(lines, seen, metrics.Due());
  }

  lemma RunIsReachable(ncpu: nat, now: u64, es: seq<Event>, s: State)
    requires IsRun(ncpu, now, es, s)
    ensures Reachable(s)
  {}

  /** What each line shows is at most what was seen last. */
  lemma {:induction false} FullShown(lines: seq<T.Line>, seen: seq<T.Tally>, due: T.Tally)
    requires T.LinesOk(lines, seen) && T.AtMost(T.LastSeen(seen), due) && due.full < U64_MOD
    ensures forall line | line in lines :: line.full <= due.full
    ensures lines != [] ==> lines[|lines| - 1].full == T.LastSeen(seen).full
  {
    hide T.LineOk;
    if lines != [] {
      var n := |lines| - 1;
      T.LinesPrefix(lines, seen, n);
      SmallFull(T.LastSeen(seen[..n]), seen[n], lines[n]);
      FullShown(lines[..n], seen[..n], seen[n]);
      assert lines == lines[..n] + [lines[n]];
    }
  }

  lemma SmallFull(prev: T.Tally, now: T.Tally, line: T.Line)
    requires T.LineOk(prev, now, line) && now.full < U64_MOD
    ensures line.full == now.full && T.AtMost(prev, now)
  {
    hide T.DropRateBps, T.DeltaOk;
  }
}
