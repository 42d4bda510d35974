# A verified model of the CYBER-SIGNAL capture pipeline

This Dafny project models the packet-capture core of the repository and proves what holds of it on all inputs
and over all interleavings of its threads. `dafny verify dfyconfig.toml` checks everything.

## What is modelled

**The capture pipeline** (`Pipeline.dfy`, `PipelineInv.dfy`, `PipelineTheorems.dfy`, `PipelineRuns.dfy`,
`PipelineTally.dfy`, `PipelineShutdown.dfy`, `PipelineWitness.dfy`, `Threads.dfy`).
Any number of CPUs (at most 2^32) run the ingress program. Each accepts a packet (counter increment), stamps it
with the clock, and puts a 64-byte frame on one shared FIFO ring, or fails to. These are separate steps, so CPUs overtake
each other between stamp and output. One vacuum worker takes items from the ring in batches of at most 256,
validates size and timestamp, and offers the kept frames to a bounded channel that a consumer empties. A
main thread sets the shutdown flag at any moment, waits for the worker to exit, and ends the process without waiting for the
consumer. Every atomic action of a thread is one event of a step machine, and
the theorems quantify over every finite sequence of enabled events. The machine records history (what was produced, taken,
offered, sent, refused, received); no transition depends on it.

`Threads.dfy` holds the threads themselves as code with loops and locals. Before every step of a thread the other threads do
whatever a script tells them to, any number of steps. Each piece of code is shown to continue the run it found (the events
before it are a prefix of those after it), so the theorems about all runs apply to it. The worker's code is shown to end in
the very state that the machine's worker reaches beside the same script (`WorkerRuns`).

**The 5-tuple hash** (`Murmur3.dfy`, `Murmur3Reference.dfy`): the unrolled code, MurmurHash3_x86_32 for byte strings of any
length as published, written on bits and with constants of its own, and explicit inverses.

**The bit-field unit** (`Bitfield.dfy`, `Headers.dfy`): the bit loops over byte storage of any length in both endiannesses,
and the IPv4 and TCP header words built on them.

**The rest**: the frame layout (`SignalFrames.dfy`), the packet parser (`ProtoView.dfy`), the filter over whole packet
sequences (`Filter.dfy`), the worker's validation over item sequences (`Vacuum.dfy`), and the telemetry
counters read while they move (`Metrics.dfy`): 64-bit cells that wrap, against unbounded counts of the record calls.
`Reporting.dfy` puts the reporter beside the worker of a run.

Machine integers are bounded ints (`Words.dfy`): wrapping and saturating operations are written out; `&`, `|`, `^`
and shifts are defined bit by bit on numbers.

## Main results

- *Loss accounting* (`LossAccounting`, `LossBeforeFirst`): gaps in the `pps_delta` values a consumer sees from one CPU are
  exactly the lost packets, and each is lost to a full ring, a timestamp drop or a full channel.
- *Exact conservation* (`Conservation`, `NothingVanishes`, `FinalFates`): no item disappears uncounted, although the counters
  are 64-bit and wrap; `ProducedBound` shows that they cannot, because a CPU accepts at most 1,000,000 packets ever.
- *Fates and counters* (`FatesMatchCounters`, `RingSuccessesAreProduced`, `FateIsPermanent`): each counter is the number of
  packets with the matching fate, and a packet once lost or received stays so in every continuation of the run.
- *Timestamp drops* (`DroppedExactlyWhenOvertaken`, `SingleCpuDropsNothing`): a frame is dropped if and only if a frame of
  another CPU with a strictly larger stamp came before it on the ring; `OvertakenIsDropped` gives the run, for every two stamps.
- *Backpressure* (`RefusedExactlyWhenFull`): a send is refused if and only if 1,024 frames are queued at that moment.
- *Progress* (`WorkerNeverStuck`, `CpuNeverStuck`, `ConsumerNeverStuck`, `ClockAndMainNeverStuck`): in no reachable state does
  a thread stand still where the code goes on.
- *Batching is invisible* (`BatchingInvisible`), *order and integrity at the consumer* (`ConsumerView`),
  *bounded shutdown* (`ShutdownDrains`, its bounds reached by `LongestShutdown`; `ConsumerDrains`, `ConsumerLeavesWithAll`).
- *The end of the process* (`AtProcessExit`, `AllReceivedExactlyWhen`, `ExitIsFinal`, `ExitLeavesFrames`): the frames counted ok
  are those received and those left in the channel; every number from 0 to 1,024 can be left, and none is if and only if the
  consumer gets as many receives after the worker's exit as frames were queued then.
- *The code as a run* (`Threads.VacuumEntry`, `Threads.Capture`): the poll loop refines the machine's worker step by step.
- *Hash*: `Hash13IsReference`, `Fmix32Bijective`, the bijections per input, `CollisionsDifferTwice`.
- *Bit fields*: `FieldIsSlice`, `SetThenGet`, `SetFrame`, `SetOfGetRestores`, `SetsCommute`, `TcpReadBuild`, `TcpBuildRead`.
- *Torn snapshots of wrapping counters* (`Telemetry.Metrics.Totals`, `Telemetry.Metrics.Report`, `DeltasAddUpExactlyWhen`).
- *The reporter beside the worker* (`ReportRun`): the deltas of all log lines never exceed the packets with the matching fate,
  and are exactly what the worker counted once a round follows its last count.
- *The parser against the header* (`FixedOffsetsExactlyWhen`, `AgreesExactlyWhen`).

## Where the code and its comments differ

The model follows the code.

- `pps_delta` is the value of a per-CPU counter before its increment, and nothing resets that counter
  (sg-ebpf/src/filter.rs:85-105). It is not a rate per flow (sg-common/src/signal_frame.rs:33). As a consequence a
  CPU falls silent for good after 1,000,000 accepted packets (`CounterIsAccepted`, `RunCpuIsNumbering`).
- `l4_flags` is the upper half of a zero-extended 32-bit hash, so it is always 0 (`XdpIngress`).
- The timestamp check compares with the last kept frame of any CPU, not of the same CPU (sg-capture/src/vacuum.rs:48-51 and 174), so
  frames that were merely overtaken are dropped as clock anomalies (`DroppedExactlyWhenOvertaken`). `OvertakenIsDropped`
  drops the only frame of a CPU whose clock never went back.
- The consumer is said to drain until the worker hangs up (sg-capture/src/main.rs:152-155), but its thread is detached and never
  joined: `main` awaits the workers and returns (sg-capture/src/main.rs:242-258). Frames counted in `frames_ok` can be lost in
  the channel, up to its capacity (`ExitLeavesFrames`); `AllReceivedExactlyWhen` says exactly when none is.
- The parser ignores version, header length, total length and fragment offset, and reads ports at fixed offsets
  (sg-ebpf/src/proto_view.rs:107-127). Against a reference that reads the header (section 3.1 of RFC 791),
  `FixedOffsetsExactlyWhen` shows that it is right for all packets of a shape it accepts if and only if the version is 4, the
  header has five words, the datagram is not a later fragment, and its total length covers a transport header and fits the
  packet. Later fragments and datagrams padded by the link layer get payload or padding bytes as ports (`FragmentGetsPorts`).
- The drop rate saturates: with nothing but drops it reports 100 % only while 10,000 times the drops fits in 64 bits
  (`TotalLossExactlyWhen`). A reported delta is the true increment only while the total has not wrapped (`DeltaExactlyWhen`), and
  the deltas add up to what was recorded if and only if that is below 2^64 (`DeltasAddUpExactlyWhen`).

## Model

| member | source | states |
|---|---|---|
| `SignalFrames.EncodeLayout` | sg-common/src/signal_frame.rs:43-58 | every field lies at the byte offset the layout assertions fix |
| `SignalFrames.DecodeEncode` | sg-capture/src/vacuum.rs:155-168 | the worker's read of the bytes the kernel wrote gives back the frame |
| `SignalFrames.EncodeDecode` | sg-capture/src/vacuum.rs:155-168 | every 64-byte record is the encoding of the frame read from it |
| `SignalFrames.Parse` | sg-capture/src/vacuum.rs:142-168 | a frame is read exactly from records of the right size |
| `Murmur3.PortsWord` | sg-ebpf/src/filter.rs:161-171 | the or of the shifted ports is the number with one port in each half |
| `Murmur3Reference.RotatedIsRotateLeft` | sg-ebpf/src/filter.rs:143-150 | rotating sends bit i to bit (i + r) mod 32 |
| `Murmur3Reference.ExclusiveIsXor` | sg-ebpf/src/filter.rs:147-203 | the exclusive or has exactly the bits set that one of the words has |
| `Murmur3.Hash13IsReference` | sg-ebpf/src/filter.rs:110-203 | the unrolled code equals the published algorithm with seed 0 on the 13 little-endian tuple bytes; the reference shares no step and no constant with it |
| `Murmur3.Fmix32Bijective` | sg-ebpf/src/filter.rs:192-203 | the finaliser has an explicit two-sided inverse |
| `Murmur3.ScrambleBijective` | sg-ebpf/src/filter.rs:144-147 | the key schedule of a block has an explicit two-sided inverse |
| `Murmur3.MixBlockBijective` | sg-ebpf/src/filter.rs:143-150 | mixing in a block is invertible in the block and in the state |
| `Murmur3.SrcIpBijective` | sg-ebpf/src/filter.rs:130-190 | with the other inputs fixed, each hash value comes from exactly one source address |
| `Murmur3.DstIpBijective` | sg-ebpf/src/filter.rs:130-190 | with the other inputs fixed, each hash value comes from exactly one destination address |
| `Murmur3.PortsBijective` | sg-ebpf/src/filter.rs:130-190 | with the other inputs fixed, each hash value comes from exactly one 32-bit port word |
| `Murmur3.PortPairBijective` | sg-ebpf/src/filter.rs:130-190 | with the other inputs fixed, each hash value comes from exactly one pair of ports, given explicitly |
| `Murmur3.ProtoInjective` | sg-ebpf/src/filter.rs:180-190 | with the other inputs fixed, the hash determines the protocol byte |
| `Murmur3.CollisionsDifferTwice` | sg-ebpf/src/filter.rs:130-190 | distinct tuples that collide differ in at least two of the four inputs |
| `Bitfield.ExtractIsBit` | sg-ebpf/src/vmlinux.rs:23-31 | the mask test reads one bit of the byte, mirrored on big-endian targets |
| `Bitfield.ChangeBitEffect` | sg-ebpf/src/vmlinux.rs:49-61 | changing a bit writes that bit and no other bit of the byte |
| `Bitfield.BitfieldUnit.GetBit` | sg-ebpf/src/vmlinux.rs:33-38 | reads one bit of the storage in field order |
| `Bitfield.BitfieldUnit.SetBit` | sg-ebpf/src/vmlinux.rs:63-68 | changes exactly one bit of the whole storage |
| `Bitfield.BitfieldUnit.Get` | sg-ebpf/src/vmlinux.rs:79-95 | the loop returns the field's number, which is the arithmetic slice of the storage read as one big integer |
| `Bitfield.BitfieldUnit.Set` | sg-ebpf/src/vmlinux.rs:115-129 | the loop overwrites exactly the field with the low bits of the value |
| `Bitfield.FieldIsSlice` | sg-ebpf/src/vmlinux.rs:79-95 | for any length, offset and width the field is value / 2^shift mod 2^width, mirrored for big-endian |
| `Bitfield.FieldOfValue` | sg-ebpf/src/vmlinux.rs:79-129 | a value written as a field reads back modulo 2^width |
| `Bitfield.ValueOfField` | sg-ebpf/src/vmlinux.rs:79-129 | a field's number written back gives the same bits |
| `Bitfield.SetThenGet` | sg-ebpf/src/vmlinux.rs:79-129 | set then get on a range returns the value modulo 2^width |
| `Bitfield.SetFrame` | sg-ebpf/src/vmlinux.rs:115-129 | set leaves every disjoint range as it was |
| `Bitfield.SetOfGetRestores` | sg-ebpf/src/vmlinux.rs:79-129 | setting the value just read leaves the storage as it was, byte for byte |
| `Bitfield.SetsCommute` | sg-ebpf/src/vmlinux.rs:115-129 | sets on disjoint ranges give the same storage in either order |
| `Headers.NewIpBitfield` | sg-ebpf/src/vmlinux.rs:270-281 | the two sets fill the byte with the two fields in order |
| `Headers.Ihl` | sg-ebpf/src/vmlinux.rs:204-206 | reads the header length field, losing nothing in the cast |
| `Headers.Version` | sg-ebpf/src/vmlinux.rs:237-239 | reads the version field, losing nothing in the cast |
| `Headers.IpReadBuild` | sg-ebpf/src/vmlinux.rs:202-281 | building then reading returns both fields modulo 16 |
| `Headers.IpBuildRead` | sg-ebpf/src/vmlinux.rs:202-281 | rebuilding from the getters reproduces any byte |
| `Headers.NewTcpBitfield` | sg-ebpf/src/vmlinux.rs:628-682 | the ten sets fill the two bytes with the ten fields in order |
| `Headers.ReadTcpBitfield` | sg-ebpf/src/vmlinux.rs:298-597 | the ten getters read the ten fields |
| `Headers.TcpFieldsOfBytes` | sg-ebpf/src/vmlinux.rs:298-597 | which bits of the two bytes each of the ten fields is, in either endianness |
| `Headers.IpFieldsOfByte` | sg-ebpf/src/vmlinux.rs:202-239 | which half of the byte each field is, in either endianness |
| `Headers.TcpReadBuild` | sg-ebpf/src/vmlinux.rs:298-682 | building then reading returns every input reduced to its width |
| `Headers.TcpBuildRead` | sg-ebpf/src/vmlinux.rs:298-682 | rebuilding from the getters reproduces any sixteen bits |
| `Headers.RebuildTcp` | sg-ebpf/src/vmlinux.rs:298-682 | reading and rebuilding copies the storage byte for byte |
| `ProtoViews.InspectExactly` | sg-ebpf/src/proto_view.rs:62-150 | a packet is accepted iff it has 54 bytes, EtherType 0x0800 and protocol 6 or 17; every field of the view byte by byte, all twenty header bytes included |
| `ProtoViews.ViewMatchesHeader` | sg-ebpf/src/proto_view.rs:107-149 | the carried header is the packet's, and addresses and protocol of the view are those in it |
| `ProtoViews.FirstByteNibbles` | sg-ebpf/src/vmlinux.rs:204-239 | the accessors read the low and the high half of the first header byte |
| `ProtoViews.AgreesExactlyWhen` | sg-ebpf/src/proto_view.rs:107-127 | an accepted packet with a version 4, five-word header is parsed as the header says iff it is no later fragment and its total length covers a transport header and fits |
| `ProtoViews.FixedOffsetsExactlyWhen` | sg-ebpf/src/proto_view.rs:62-127 | the parser agrees with the header on all packets of a shape iff it accepts none of them or the shape is version 4, five words, no later fragment, total length in bounds |
| `ProtoViews.FragmentGetsPorts` | sg-ebpf/src/proto_view.rs:107-127 | for every fragment offset above 0 a UDP fragment is accepted with its first two payload bytes as source port |
| `ProtoViews.AcceptsExactly` | sg-ebpf/src/proto_view.rs:50-150 | on version 4, five-word headers the reference's packets from 54 bytes up are those accepted that have ports, with the same tuple |
| `Filter.DenyIndexIsModulo` | sg-ebpf/src/maps.rs:55-74 | the masked index is the hash modulo 65536, absent or zero entries allow |
| `Filter.FlowHashIsReference` | sg-ebpf/src/filter.rs:47-54 | the flow hash is the published hash of the five fields of the view |
| `Filter.PpsCounter.Select` | sg-ebpf/src/filter.rs:47-108 | a result iff the entry at that hash modulo 65536 does not deny and the counter is below 1,000,000; it carries that hash and the counter, which goes up by one, else stays |
| `Filter.RelevantExactly` | sg-ebpf/src/main.rs:58-68 | which packets pass parser and deny list, on the packet's bytes |
| `Filter.RunCpuIsNumbering` | sg-ebpf/src/filter.rs:74-107 | over any packet sequence the results are the first admitted relevant packets, numbered from the counter |
| `Filter.IgnoredTrafficIsInvisible` | sg-ebpf/src/main.rs:58-68 | deleting unparsable and denied packets changes neither results nor counter |
| `Filter.FilterAll` | sg-ebpf/src/main.rs:58-68 | from zero, the k-th accepted packet carries pps_delta k, the counter counts them, and there are at most 1,000,000 |
| `Vacuum.LastTsIsMax` | sg-capture/src/vacuum.rs:113-182 | the remembered timestamp is the largest seen so far, dropped frames included |
| `Vacuum.PassesIffFresh` | sg-capture/src/vacuum.rs:145-182 | the incremental check keeps a frame iff it is well-sized and no earlier well-sized frame is later |
| `Vacuum.KeptIdxExact` | sg-capture/src/vacuum.rs:131-188 | the kept indices are exactly the fresh ones, increasing |
| `Vacuum.FoldIsKept` | sg-capture/src/vacuum.rs:131-188 | folding the check over any items yields the subsequence of fresh frames |
| `PipelineInv.AcceptKeeps` | sg-ebpf/src/filter.rs:74-107 | accepting a packet keeps the kernel-side invariant |
| `PipelineInv.StampKeeps` | sg-ebpf/src/main.rs:98-121 | stamping keeps the kernel-side invariant |
| `PipelineInv.OutputKeeps` | sg-ebpf/src/main.rs:140-142 | ring output, accepted or refused, keeps per-CPU number and stamp order on the ring |
| `PipelineInv.CheckKeeps` | sg-capture/src/vacuum.rs:140-187 | validating an item keeps the worker's invariant |
| `PipelineInv.OfferKeeps` | sg-capture/src/dispatch.rs:73-88 | offering a frame keeps the worker's invariant, sent or refused |
| `PipelineInv.CountKeeps` | sg-capture/src/vacuum.rs:191-196 | counting an outcome keeps the counters exact |
| `PipelineInv.ProducedBound` | sg-ebpf/src/filter.rs:87-98 | fewer than 2^64 frames can ever be produced, so no counter wraps |
| `PipelineInv.StepInv` | sg-capture/src/vacuum.rs:119-207 | every event of every thread keeps the invariant |
| `PipelineInv.ReachableInv` | sg-capture/src/main.rs:124-173 | the invariant holds in every reachable state |
| `PipelineTheorems.LossAccounting` | sg-ebpf/src/filter.rs:85-105 | between successive received numbers a < b of one CPU, exactly the b-a-1 packets between are lost, each in one way |
| `PipelineTheorems.LossBeforeFirst` | sg-ebpf/src/filter.rs:85-105 | all packets of a CPU before the first one received from it are lost |
| `PipelineTheorems.ReceivedExactly` | sg-capture/src/main.rs:150-161 | a packet counts as received iff the consumer holds its frame |
| `PipelineTheorems.NothingVanishes` | sg-capture/src/dispatch.rs:73-88 | no accepted packet is ever lost uncounted |
| `PipelineTheorems.FinalFates` | sg-capture/src/main.rs:153-160 | once the consumer has left or the process has ended, every packet is received, lost in one way, on its CPU or the ring, or in a channel not yet emptied |
| `PipelineRuns.ContinuationGrows` | sg-capture/src/main.rs:124-173 | no continuation of a run takes back anything produced, taken, offered, sent, refused or received |
| `PipelineRuns.LongerRunContinues` | sg-capture/src/main.rs:124-173 | a run that extends another of the same system passes through its final state |
| `PipelineRuns.FateIsPermanent` | sg-capture/src/main.rs:124-173 | a packet lost stays lost in the same way and one received stays received, in every continuation |
| `PipelineTally.FatesMatchCounters` | sg-capture/src/metrics.rs:26-36 | each counter is the number of packets with the matching fate, up to the one outcome about to be counted |
| `PipelineTally.RingSuccessesAreProduced` | sg-ebpf/src/main.rs:140-142 | the ring successes of all CPUs together are the frames put on the ring |
| `PipelineTheorems.Conservation` | sg-capture/src/vacuum.rs:128-196 | items taken equal dropped + ok + channel_full + batch + at most one uncounted, in every reachable state |
| `PipelineTheorems.NeverDisconnected` | sg-capture/src/dispatch.rs:81-87 | the uncounted disconnected branch is unreachable |
| `PipelineTheorems.RefusedExactlyWhenFull` | sg-capture/src/dispatch.rs:73-88 | a send is refused iff 1,024 frames are queued at that moment, the channel staying as it is; otherwise the frame is the queue's new last |
| `PipelineTheorems.NoRefusalBeforeCapacity` | sg-capture/src/dispatch.rs:34-38 | no frame is refused for backpressure before 1024 frames have been sent |
| `PipelineTheorems.CpuNeverStuck` | sg-ebpf/src/main.rs:46-146 | each CPU can accept below 1,000,000, stamp, and output; the output finds room iff fewer than 3,640 frames wait |
| `PipelineTheorems.ConsumerNeverStuck` | sg-capture/src/main.rs:153-160 | while the process lasts the consumer receives the queue's front iff there is one, and leaves iff it is empty and the worker has exited |
| `PipelineTheorems.PushNeverFails` | sg-capture/src/vacuum.rs:184-187 | the push onto the batch always finds room |
| `PipelineTheorems.RingWithinCapacity` | sg-ebpf/src/maps.rs:33-38 | at most 3,640 frames ever wait on the ring, each with its 8-byte record header |
| `PipelineWitness.RingFillsUp` | sg-ebpf/src/main.rs:140-142 | a run in which 3,640 frames wait and the next output can only be refused |
| `PipelineTheorems.SizeCheckNeverFires` | sg-capture/src/vacuum.rs:145-153 | what the CPUs write always has the right size |
| `PipelineTheorems.CounterIsAccepted` | sg-ebpf/src/filter.rs:74-107 | a CPU's counter is ring successes plus ring-full failures plus the packet in flight, at most 1,000,000 |
| `PipelineTheorems.AcceptedNumbering` | sg-ebpf/src/main.rs:117-121 | the p-th accepted packet of a CPU carries pps_delta p and that cpu_id |
| `PipelineTheorems.DroppedExactlyWhenOvertaken` | sg-capture/src/vacuum.rs:170-182 | a frame is dropped iff an earlier ring frame of another CPU has a strictly larger stamp |
| `PipelineWitness.OvertakenIsDropped` | sg-capture/src/vacuum.rs:170-182 | for any two stamps a run in which a CPU's only frame is dropped because another CPU's later-stamped frame overtook it |
| `PipelineTheorems.LostTimestampExactlyWhen` | sg-capture/src/vacuum.rs:170-182 | a packet is lost to the timestamp check iff its validated frame was overtaken on the ring |
| `PipelineTheorems.SingleCpuDropsNothing` | sg-capture/src/vacuum.rs:170-182 | with one producing CPU the drop counter stays 0 |
| `PipelineTheorems.BatchingInvisible` | sg-capture/src/vacuum.rs:119-196 | frames offered, then the batch, are the one-at-a-time fold of the items taken |
| `PipelineTheorems.ConsumerView` | sg-capture/src/main.rs:150-161 | the consumer gets an in-order, unmodified subsequence, timestamps non-decreasing, no (cpu_id, pps_delta) twice |
| `PipelineShutdown.ShutdownBounded` | sg-capture/src/vacuum.rs:119-126 | after the store every continuation is bounded by the rest of the batch and a decreasing rank |
| `PipelineShutdown.ShutdownDrains` | sg-capture/src/main.rs:232-245 | at most 256 more items and 1,028 worker steps after the signal, no item once it is observed |
| `PipelineTheorems.ClockAndMainNeverStuck` | sg-capture/src/main.rs:217-258 | time passes and the signal arrives in any state; the process can end once the signal is stored and the worker has exited |
| `PipelineWitness.LongestShutdown` | sg-capture/src/main.rs:232-245 | both bounds are reached by one run |
| `PipelineShutdown.WorkerNeverStuck` | sg-capture/src/vacuum.rs:119-207 | until it exits the worker always has a step to take |
| `PipelineShutdown.ConsumerDrains` | sg-capture/src/main.rs:153-160 | after the hang-up the queue shrinks by one per receive and by nothing else |
| `PipelineShutdown.ConsumerLeavesWithAll` | sg-capture/src/main.rs:153-160 | a consumer that leaves by itself holds exactly the frames counted ok, and every taken item is counted |
| `PipelineShutdown.AtProcessExit` | sg-capture/src/main.rs:232-258 | at the end of the process the frames counted ok are those received and at most 1,024 left in the channel, in order |
| `PipelineShutdown.AllReceivedExactlyWhen` | sg-capture/src/main.rs:150-161 | after the worker's exit all counted frames are received iff the consumer still gets one receive for each frame then queued |
| `PipelineShutdown.ExitIsFinal` | sg-capture/src/main.rs:232-258 | after it neither the worker's record nor the channel nor what was received changes again |
| `PipelineWitness.ExitLeavesFrames` | sg-capture/src/main.rs:150-161 | for every n up to 1,024 a run that ends with n frames counted ok and none of them received |
| `Threads.Shared.Interfere` | sg-capture/src/main.rs:126-173 | other threads extend the run by their own events and leave this thread's own state alone |
| `Threads.AnyInterference` | sg-capture/src/main.rs:126-173 | whatever the other threads could do in any number of steps, a script makes them do |
| `Threads.Shared.Act` | sg-capture/src/vacuum.rs:119-207 | one step of the worker's code, the others acting first, is the machine worker's next step on the memory it sees |
| `Threads.Validate` | sg-capture/src/vacuum.rs:140-187 | the code's size and timestamp branches turn batch and last timestamp into exactly those of the machine's check |
| `Threads.Drain` | sg-capture/src/vacuum.rs:128-188 | the drain loop, ended by 256 items or an empty ring, continues the run along the machine worker's course |
| `Threads.Dispatch` | sg-capture/src/vacuum.rs:190-196 | the dispatch loop offers exactly the frames of the batch it was given, in order, along the machine worker's course |
| `Threads.VacuumEntry` | sg-capture/src/vacuum.rs:85-210 | the poll loop continues the run to the state the machine's worker reaches beside the same script, hung up, every item counted, the fold of what it took offered |
| `Threads.ConsumerDrain` | sg-capture/src/main.rs:153-160 | in a number of turns the receive loop takes that many frames off the queue's front; it leaves iff it has turns to spare, with exactly the frames counted ok |
| `Threads.Capture` | sg-capture/src/main.rs:143-258 | a whole capture is a run to the process's end: the worker's record is the machine worker's, and received are its frames up to the consumer's turns, the rest left in the channel |
| `Threads.XdpIngress` | sg-ebpf/src/main.rs:46-146 | ignored packets leave the CPU's counter and slots alone; an accepted one is counted, and its frame, with the packet's header bytes and published hash and stamped within the call, is newest on the ring iff output was granted and had room |
| `Threads.StampAndOutput` | sg-ebpf/src/main.rs:98-142 | the frame built from the accepted packet is on the ring iff output was granted and had room, else refused |
| `Threads.SpawnWorkers` | sg-capture/src/main.rs:124-176 | one worker for each populated slot below the worker count, cpu_id always below 32 |
| `Threads.SpawnOnSharedRing` | sg-capture/src/loader.rs:150-187 | with the ring in slot 0 alone there is exactly one worker, cpu 0 |
| `Telemetry.Metrics.Record` | sg-capture/src/metrics.rs:60-87 | one cell of one CPU goes up by one and wraps at 2^64, CPUs out of range are ignored |
| `Telemetry.SumCountsCalls` | sg-capture/src/metrics.rs:60-87 | the counts of a kind summed over the CPUs are the number of record calls that named a CPU in range |
| `Telemetry.Metrics.SumLoads` | sg-capture/src/metrics.rs:90-95 | a wrapping total loaded cell by cell is, modulo 2^64, a number of records between those at start and end |
| `Telemetry.Metrics.Totals` | sg-capture/src/metrics.rs:90-95 | each of the three totals is, modulo 2^64, a number of records between those at start and end of the read |
| `Telemetry.Metrics.Round` | sg-capture/src/metrics.rs:129-156 | each delta is at most the true increment and equal to it iff the total did not wrap; the rate is that of the deltas |
| `Telemetry.Metrics.Report` | sg-capture/src/metrics.rs:121-160 | every line is such a round from the line before; the deltas add up to what was seen last iff that is below 2^64; a round after the last record sees everything |
| `Telemetry.DropRateBounded` | sg-capture/src/metrics.rs:101-108 | at most 10,000 for all inputs |
| `Telemetry.NothingDropped` | sg-capture/src/metrics.rs:101-108 | without drops the rate is 0, in an idle second too |
| `Telemetry.DropRateExact` | sg-capture/src/metrics.rs:101-108 | for all inputs the floor of the quotient of the two saturated operands, 0 of nothing |
| `Telemetry.DropRateMonotone` | sg-capture/src/metrics.rs:101-108 | without saturation, non-decreasing in drops and non-increasing in ok |
| `Telemetry.TotalLossExactlyWhen` | sg-capture/src/metrics.rs:101-108 | with nothing but drops it reports 100 % iff the multiplication does not saturate |
| `Telemetry.DeltaExactlyWhen` | sg-capture/src/metrics.rs:140-142 | the saturating delta of wrapped totals never exceeds the true increment and equals it iff the total did not wrap |
| `Telemetry.DeltasAddUpExactlyWhen` | sg-capture/src/metrics.rs:129-156 | over all lines the deltas add up to the records last seen iff those are below 2^64, and never to more |
| `Reporting.CountersAreCalls` | sg-capture/src/vacuum.rs:145-196 | in every run the worker's counters are the numbers of its record calls, each for its own CPU, and none wraps |
| `Reporting.ReportRun` | sg-capture/src/metrics.rs:121-160 | beside a run the deltas add up to at most the worker's counters and the packets with those fates, to exactly the counters once a round follows the last record call |

## Left out

- Threads.ConsumerDrain: covers the receive loop from the worker's hang-up on; before that, receives are steps of the environment, because a blocking receive has no bound of its own. How many turns the loop gets before the process ends is a parameter.
- Threads.VacuumEntry: the other threads follow a finite script, after which the signal arrives; a capture that is never told to stop is covered by the machine's theorems only.
- Telemetry.Metrics.Report: the number of seconds before shutdown is a parameter; overflow wraps, as it does in an optimised build.
- Reporting.ReportRun: the reporter is not a thread of the machine; the worker's record calls reach it in their order, cut between its loads in any way.
- Worker panics, and the detach of the ingress program at shutdown: CPUs of the model may go on producing after the process has ended.
- The contents of the kernel ring's record headers, its positions and wake-ups: the ring is a FIFO of at most 262,144 bytes, 72 to a frame, whose output may fail at any time.
- Channel internals and memory ordering: the channel is a bounded FIFO with a flag per end, and every atomic operation is one step.
- Loading, attaching and detaching the program, map opening, CPU pinning, logging, signals as such, sleeping and yielding.
- Writers of the deny map: the map is an input.
- The pointer variants `raw_get` and `raw_set` of the bit-field unit, which repeat the same loops.
- The per-CPU ring table, the error enumeration and the map-key constants, which hold no logic of their own.
- The detection stages and active defence described in the repository's README, for which there is no source.
