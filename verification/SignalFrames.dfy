/** The 64-byte record that crosses the kernel/userspace boundary, and its byte layout. */
module SignalFrames {

  import opened Words

  /** Fixed-size byte arrays of the record. */
  type L3Header = s: seq<u8> | |s| == 20 witness seq(20, _ => 0)
  type Padding = s: seq<u8> | |s| == 16 witness seq(16, _ => 0)

  /** What a ring-buffer record holds: bytes of any length. */
  type Item = seq<u8>

  const SIGNAL_FRAME_SIZE: nat := 64

  /** How many CPUs the per-CPU tables have room for. */
  const NCPU: nat := 32

  datatype SignalFrame = SignalFrame(
    flowHash: u64,
    timestampNs: u64,
    l3Hdr: L3Header,
    l4Flags: u32,
    ppsDelta: u32,
    cpuId: u32,
    pad: Padding
  )

  function Zeroed(): SignalFrame {
    SignalFrame(0, 0, seq(20, _ => 0), 0, 0, 0, seq(16, _ => 0))
  }

  // ---------------------------------------------------------------------
  // The record as bytes
  // ---------------------------------------------------------------------

  /** The bytes `bpf_ringbuf_output` copies out of the frame. */
  function Encode(f: SignalFrame): (item: Item)
    ensures |item| == SIGNAL_FRAME_SIZE
  {
    ToLE(f.flowHash, 8) + ToLE(f.timestampNs, 8) + f.l3Hdr + ToLE(f.l4Flags, 4)
    + ToLE(f.ppsDelta, 4) + ToLE(f.cpuId, 4) + f.pad
  }

  /** The unaligned read of a well-sized record, field by field at the asserted offsets. */
  function Decode(item: Item): SignalFrame
    requires |item| == SIGNAL_FRAME_SIZE
  {
    SignalFrame(ReadU64(item[0..8]), ReadU64(item[8..16]), item[16..36], ReadU32(item[36..40]),
                ReadU32(item[40..44]), ReadU32(item[44..48]), item[48..64])
  }

  /** Each field sits at the offset that the compile-time layout assertions fix. */
  lemma EncodeLayout(f: SignalFrame)
    ensures var b := Encode(f);
            && b[0..8] == ToLE(f.flowHash, 8) && b[8..16] == ToLE(f.timestampNs, 8)
            && b[16..36] == f.l3Hdr && b[36..40] == ToLE(f.l4Flags, 4)
            && b[40..44] == ToLE(f.ppsDelta, 4) && b[44..48] == ToLE(f.cpuId, 4)
            && b[48..64] == f.pad
  {
  }

  /** Reading back what was written gives the same frame. */
  lemma DecodeEncode(f: SignalFrame)
    ensures Decode(Encode(f)) == f
  {
    EncodeLayout(f);
    Pow2Values();
    FromToLE(f.flowHash, 8);
    FromToLE(f.timestampNs, 8);
    FromToLE(f.l4Flags, 4);
    FromToLE(f.ppsDelta, 4);
    FromToLE(f.cpuId, 4);
  }

  /** Every 64-byte record is the encoding of the frame read from it: no byte is lost. */
  lemma EncodeDecode(item: Item)
    requires |item| == SIGNAL_FRAME_SIZE
    ensures Encode(Decode(item)) == item
  {
    hide ToLE, FromLE, Pow2;
    ToFromLE(item[0..8]);
    ToFromLE(item[8..16]);
    ToFromLE(item[36..40]);
    ToFromLE(item[40..44]);
    ToFromLE(item[44..48]);
    assert item == item[0..8] + item[8..16] + item[16..36] + item[36..40] + item[40..44] + item[44..48] + item[48..64];
  }

  /** What the worker makes of a record: a frame when the size is right, nothing otherwise. */
  function Parse(item: Item): (r: Option<SignalFrame>)
    ensures r.Some? <==> |item| == 64
    ensures r.Some? ==> Encode(r.value) == item
  {
    if |item| != SIGNAL_FRAME_SIZE then None
    else
      EncodeDecode(item);
      Some(Decode(item))
  }

  lemma ParseEncode(f: SignalFrame)
    ensures Parse(Encode(f)) == Some(f)
  {
    DecodeEncode(f);
  }
}
