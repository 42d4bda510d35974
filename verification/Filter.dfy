/** Deny list, per-CPU threshold and counter, packet by packet and over whole packet sequences. */
module Filter {
  import opened Words
  import opened Murmur3Reference
  import opened Murmur3
  import opened ProtoViews

  const MAXPPS_THRESHOLD: u64 := 1_000_000

  datatype FilterResult = FilterResult(flowHash: u64, ppsDelta: u32)

  /** The deny array: an index that is present and non-zero denies. */
  type DenyMap = map<nat, u8>

  predicate DenyCheck(flowHash: u64, deny: DenyMap) {
    var idx := And(flowHash % U32_MOD, 0xFFFF);
    if idx in deny then deny[idx] != 0 else false
  }

  /** The mask picks entry `flow_hash mod 65536`: flows share an entry exactly when their hashes agree in the low 16 bits. */
  lemma DenyIndexIsModulo(flowHash: u64, deny: DenyMap)
    ensures DenyCheck(flowHash, deny) <==> flowHash % 65536 in deny && deny[flowHash % 65536] != 0
  {
    hide And, Pow2;
    Pow2Values();
    AndLowBits(flowHash % U32_MOD, 16);
    ModMod(flowHash);
  }

  function FlowHash(view: ProtoView): u64 {
    HashOf(TupleOf(view))
  }

  /** The published hash of the five fields, each least significant byte first. */
  lemma FlowHashIsReference(view: ProtoView)
    ensures FlowHash(view) == RefHash(TupleBytes(view.srcIp, view.dstIp, view.srcPort, view.dstPort, view.proto), 0)
  {
    hide Hash13, RefHash, TupleBytes;
    Hash13IsReference(view.srcIp, view.dstIp, view.srcPort, view.dstPort, view.proto);
  }

  /** What `select` answers and the counter value it leaves. */
  function SelectSpec(view: ProtoView, deny: DenyMap, ctr: u64): (r: (Option<FilterResult>, u64)) {
    var flowHash := FlowHash(view);
    if DenyCheck(flowHash, deny) || ctr >= MAXPPS_THRESHOLD then (None, ctr)
    else (Some(FilterResult(flowHash, ctr)), ctr + 1)
  }

  /** One CPU's slot of the per-CPU counter array. */
  class PpsCounter {
    var value: u64

    constructor ()
      ensures value == 0
    {
      value := 0;
    }

    method Select(view: ProtoView, deny: DenyMap) returns (r: Option<FilterResult>)
      modifies this
      ensures (r, value) == SelectSpec(view, deny, old(value))
      ensures var hash := RefHash(TupleBytes(view.srcIp, view.dstIp, view.srcPort, view.dstPort, view.proto), 0);
              && (r.Some? <==> (hash % 65536 !in deny || deny[hash % 65536] == 0) && old(value) < 1_000_000)
              && (r.Some? ==> r.value == FilterResult(hash, old(value)) && value == old(value) + 1)
              && (r.None? ==> value == old(value))
    {
      hide FlowHash, DenyCheck, RefHash, TupleBytes;
      FlowHashIsReference(view);
      DenyIndexIsModulo(FlowHash(view), deny);
      var flowHash := FlowHash(view);
      if DenyCheck(flowHash, deny) {
        return None;
      }
      var val := value;
      if val >= MAXPPS_THRESHOLD {
        return None;
      }
      value := SaturatingAdd(val, 1);
      var ppsDelta := if val < U32_MOD - 1 then val else U32_MOD - 1;
      return Some(FilterResult(flowHash, ppsDelta));
    }
  }

  // ---------------------------------------------------------------------
  // Whole packet sequences on one CPU
  // ---------------------------------------------------------------------

  datatype CpuRun = CpuRun(results: seq<FilterResult>, ctr: u64)

  /** The program on one packet after another: parse, then select. */
  function RunCpu(packets: seq<seq<u8>>, deny: DenyMap, ctr: u64): CpuRun {
    if packets == [] then CpuRun([], ctr)
    else
      var before := RunCpu(packets[..|packets| - 1], deny, ctr);
      match Inspect(packets[|packets| - 1])
      case None => before
      case Some(view) =>
        var (r, ctr') := SelectSpec(view, deny, before.ctr);
        CpuRun(if r.Some? then before.results + [r.value] else before.results, ctr')
  }

  /** Parsable and not denied. */
  predicate Relevant(packet: seq<u8>, deny: DenyMap) {
    Inspect(packet).Some? && !DenyCheck(FlowHash(Inspect(packet).value), deny)
  }

  /** The published hash of the addresses, ports and protocol found in the packet. */
  function PacketHash(packet: seq<u8>): u32
    requires |packet| >= 54
  {
    RefHash(TupleBytes(BE32(packet[26], packet[27], packet[28], packet[29]), BE32(packet[30], packet[31], packet[32], packet[33]),
                       BE16(packet[34], packet[35]), BE16(packet[36], packet[37]), packet[23]), 0)
  }

  lemma ViewOfPacket(packet: seq<u8>)
    requires Inspect(packet).Some?
    ensures |packet| >= 54 && Inspect(packet).value.l3Hdr == packet[14..34]
    ensures FlowHash(Inspect(packet).value) == PacketHash(packet)
  {
    hide Inspect, FlowHash, RefHash, TupleBytes;
    InspectExactly(packet);
    ViewMatchesHeader(packet);
    FlowHashIsReference(Inspect(packet).value);
  }

  /** Which packets are relevant, on the bytes of the packet. */
  lemma RelevantExactly(packet: seq<u8>, deny: DenyMap)
    ensures Relevant(packet, deny) <==>
              && |packet| >= 54 && packet[12] == 0x08 && packet[13] == 0x00 && (packet[23] == 6 || packet[23] == 17)
              && var idx := PacketHash(packet) % 65536; (idx !in deny || deny[idx] == 0)
  {
    hide Inspect, FlowHash, PacketHash, DenyCheck;
    InspectExactly(packet);
    if Inspect(packet).Some? {
      ViewOfPacket(packet);
      DenyIndexIsModulo(PacketHash(packet), deny);
    }
  }

  function RelevantOnly(packets: seq<seq<u8>>, deny: DenyMap): seq<seq<u8>> {
    if packets == [] then []
    else
      var rest := RelevantOnly(packets[..|packets| - 1], deny);
      var last := packets[|packets| - 1];
      if Relevant(last, deny) then rest + [last] else rest
  }

  /** How many of `n` relevant packets a counter at `ctr` lets through. */
  function Admitted(n: nat, ctr: u64): nat {
    if ctr >= MAXPPS_THRESHOLD then 0
    else if n <= MAXPPS_THRESHOLD - ctr then n else MAXPPS_THRESHOLD - ctr
  }

  /** Reference: the first admitted relevant packets, numbered upwards from the counter. */
  function Numbered(relevant: seq<seq<u8>>, deny: DenyMap, ctr: u64): (rs: seq<FilterResult>)
    requires forall p | p in relevant :: Relevant(p, deny)
  {
    seq(Admitted(|relevant|, ctr), i requires 0 <= i < Admitted(|relevant|, ctr) =>
      assert Relevant(relevant[i], deny); FilterResult(FlowHash(Inspect(relevant[i]).value), ctr + i))
  }

  lemma {:induction false} RelevantOnlyRelevant(packets: seq<seq<u8>>, deny: DenyMap)
    ensures forall p | p in RelevantOnly(packets, deny) :: Relevant(p, deny)
  {
    hide Relevant;
    if packets != [] { RelevantOnlyRelevant(packets[..|packets| - 1], deny); }
  }

  /** The results are the numbered relevant packets, cut off at the threshold, and the counter counts them. */
  lemma {:induction false} RunCpuIsNumbering(packets: seq<seq<u8>>, deny: DenyMap, ctr: u64)
    ensures forall p | p in RelevantOnly(packets, deny) :: Relevant(p, deny)
    ensures var relevant := RelevantOnly(packets, deny);
            RunCpu(packets, deny, ctr) == CpuRun(Numbered(relevant, deny, ctr), ctr + Admitted(|relevant|, ctr))
  {
    hide Inspect, DenyCheck, FlowHash;
    RelevantOnlyRelevant(packets, deny);
    if packets != [] {
      var front, last := packets[..|packets| - 1], packets[|packets| - 1];
      RunCpuIsNumbering(front, deny, ctr);
      if Relevant(last, deny) {
        NumberedSnoc(RelevantOnly(front, deny), last, deny, ctr);
      }
    }
  }

  lemma NumberedSnoc(relevant: seq<seq<u8>>, last: seq<u8>, deny: DenyMap, ctr: u64)
    requires forall p | p in relevant :: Relevant(p, deny)
    requires Relevant(last, deny)
    ensures var n := Admitted(|relevant|, ctr);
            var front := Numbered(relevant, deny, ctr);
            Numbered(relevant + [last], deny, ctr)
            == if ctr + n < MAXPPS_THRESHOLD then front + [FilterResult(FlowHash(Inspect(last).value), ctr + n)] else front
  {
    hide Inspect, DenyCheck, FlowHash;
  }

  lemma {:induction false} RelevantOnlyIdempotent(packets: seq<seq<u8>>, deny: DenyMap)
    ensures RelevantOnly(RelevantOnly(packets, deny), deny) == RelevantOnly(packets, deny)
  {
    hide Relevant;
    if packets != [] {
      var front, last := packets[..|packets| - 1], packets[|packets| - 1];
      RelevantOnlyIdempotent(front, deny);
      var rest := RelevantOnly(front, deny);
      assert (rest + [last])[..|rest + [last]| - 1] == rest;
    }
  }

  /** Deleting the unparsable and denied packets changes neither the results nor the final counter. */
  lemma {:induction false} IgnoredTrafficIsInvisible(packets: seq<seq<u8>>, deny: DenyMap, ctr: u64)
    ensures RunCpu(RelevantOnly(packets, deny), deny, ctr) == RunCpu(packets, deny, ctr)
  {
    hide Inspect, DenyCheck, FlowHash, RunCpu, Relevant;
    RunCpuIsNumbering(packets, deny, ctr);
    RunCpuIsNumbering(RelevantOnly(packets, deny), deny, ctr);
    RelevantOnlyIdempotent(packets, deny);
  }

  /** The loop over one CPU's packets, against that specification. */
  method FilterAll(c: PpsCounter, packets: seq<seq<u8>>, deny: DenyMap) returns (results: seq<FilterResult>)
    modifies c
    ensures CpuRun(results, c.value) == RunCpu(packets, deny, old(c.value))
    ensures old(c.value) == 0 ==> c.value == |results| <= MAXPPS_THRESHOLD
    ensures old(c.value) == 0 ==> forall k | 0 <= k < |results| :: results[k].ppsDelta == k
  {
    hide Inspect, DenyCheck, FlowHash;
    results := [];
    var i := 0;
    while i < |packets|
      invariant i <= |packets|
      invariant CpuRun(results, c.value) == RunCpu(packets[..i], deny, old(c.value))
    {
      assert packets[..i + 1][..i] == packets[..i];
      var view := Inspect(packets[i]);
      if view.Some? {
        var r := c.Select(view.value, deny);
        if r.Some? { results := results + [r.value]; }
      }
      i := i + 1;
    }
    assert packets[..i] == packets;
    RunCpuIsNumbering(packets, deny, old(c.value));
  }
}
