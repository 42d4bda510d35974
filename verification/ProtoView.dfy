/** The packet parser with its fixed offsets, against a reference that reads the header (section 3.1 of RFC 791). */
module ProtoViews {
  import opened Words
  import opened SignalFrames
  import opened Murmur3
  import opened Bitfield
  import opened Headers

  datatype ProtoView = ProtoView(srcIp: u32, dstIp: u32, srcPort: u16, dstPort: u16, proto: u8, l3Hdr: L3Header)

  const ETHERTYPE_IPV4: u16 := 0x0800
  const TCP: u8 := 6
  const UDP: u8 := 17

  /** Packets of any length; every read is in bounds. */
  function Inspect(data: seq<u8>): Option<ProtoView> {
    if 34 > |data| then None
    else if ReadBE16(data[12..14]) != ETHERTYPE_IPV4 then None
    else
      var proto := data[23];
      if proto != TCP && proto != UDP then None
      else if 54 > |data| then None
      else Some(ProtoView(ReadBE32(data[26..30]), ReadBE32(data[30..34]),
                          ReadBE16(data[34..36]), ReadBE16(data[36..38]), proto, data[14..34]))
  }

  function TupleOf(v: ProtoView): Tuple {
    Tuple(v.srcIp, v.dstIp, v.srcPort, v.dstPort, v.proto)
  }

  function BE16(hi: u8, lo: u8): u16 {
    0x100 * hi + lo
  }

  function BE32(a: u8, b: u8, c: u8, d: u8): u32 {
    0x100_0000 * a + 0x1_0000 * b + 0x100 * c + d
  }

  lemma TwoBytes(b: seq<u8>, hi: u8, lo: u8)
    requires b == [hi, lo]
    ensures ReadBE16(b) == BE16(hi, lo)
  {
    assert b[..1] == [hi] && [hi][..0] == [];
    assert FromBE([hi]) == hi;
  }

  lemma BytesBE32(b: seq<u8>)
    requires |b| == 4
    ensures ReadBE32(b) == BE32(b[0], b[1], b[2], b[3])
  {
    assert b[..3][..2] == [b[0], b[1]] && b[..3][2] == b[2];
    TwoBytes(b[..2], b[0], b[1]);
    assert b[..3][..2] == b[..2];
    assert FromBE(b[..3]) == 256 * FromBE(b[..2]) + b[2];
  }

  /** Exactly which packets are accepted, and every field of the view from the bytes of the packet. */
  lemma InspectExactly(data: seq<u8>)
    ensures Inspect(data).Some? <==>
              |data| >= 54 && data[12] == 0x08 && data[13] == 0x00 && (data[23] == 6 || data[23] == 17)
    ensures Inspect(data).Some? ==>
              var v := Inspect(data).value;
              && v.srcIp == BE32(data[26], data[27], data[28], data[29])
              && v.dstIp == BE32(data[30], data[31], data[32], data[33])
              && v.srcPort == BE16(data[34], data[35]) && v.dstPort == BE16(data[36], data[37]) && v.proto == data[23]
              && forall i | 0 <= i < 20 :: v.l3Hdr[i] == data[14 + i]
  {
    hide ReadBE32, ReadBE16;
    if |data| >= 34 {
      TwoBytes(data[12..14], data[12], data[13]);
      BytesBE32(data[26..30]);
      BytesBE32(data[30..34]);
    }
    if |data| >= 38 {
      TwoBytes(data[34..36], data[34], data[35]);
      TwoBytes(data[36..38], data[36], data[37]);
    }
  }

  /** The five-tuple fields of the view are those of the raw header it carries, which is the packet's. */
  lemma ViewMatchesHeader(data: seq<u8>)
    requires Inspect(data).Some?
    ensures var v := Inspect(data).value;
            && v.srcIp == ReadBE32(v.l3Hdr[12..16]) && v.dstIp == ReadBE32(v.l3Hdr[16..20])
            && v.proto == v.l3Hdr[9] && (v.proto == TCP || v.proto == UDP)
            && v.l3Hdr == data[14..34]
  {
    hide ReadBE32, ReadBE16;
    var h := data[14..34];
    assert h[12..16] == data[26..30] && h[16..20] == data[30..34];
  }

  // ---------------------------------------------------------------------
  // The reference: believe the header's own version, lengths and fragment offset
  // ---------------------------------------------------------------------

  /** What the `ihl` and `version` accessors read from the first header byte (little-endian target). */
  function FirstByte(b: u8): (f: IpFields)
  {
    ReadIp(Bits([b], false), false)
  }

  lemma FirstByteNibbles(b: u8)
    ensures FirstByte(b) == IpFields(b % 16, b / 16)
  {
    hide Bits, FieldValue, Field16, Pow2, FromLE;
    FieldIsSlice([b], 0, 4, false);
    FieldIsSlice([b], 4, 4, false);
    OneByte(b);
    assert b / 1 % 16 == b % 16 && b / 16 % 16 == b / 16;
  }

  lemma OneByte(b: u8)
    ensures FromLE([b]) == b && Pow2(0) == 1 && Pow2(4) == 16
  {
    assert [b][1..] == [];
    assert Pow2(2) == 4;
  }

  /** The smallest transport header. */
  function L4Min(proto: u8): nat {
    if proto == TCP then 20 else 8
  }

  /** What the parser's answer may depend on besides addresses and payload. */
  datatype Shape = Shape(first: IpFields, totalLength: u16, fragmentOffset: u16, proto: u8, length: nat)

  function ShapeOf(data: seq<u8>): Shape
    requires |data| >= 34
  {
    Shape(FirstByte(data[14]), ReadBE16(data[16..18]), ReadBE16(data[20..22]) % 8192, data[23], |data|)
  }

  /** The datagram lies in the packet and begins with a transport header: no later fragment, nothing cut short. */
  predicate HasPorts(shape: Shape) {
    && shape.first.version == 4 && shape.first.ihl >= 5 && shape.fragmentOffset == 0
    && 4 * shape.first.ihl + L4Min(shape.proto) <= shape.totalLength && 14 + shape.totalLength <= shape.length
  }

  function RefParse(data: seq<u8>): Option<Tuple> {
    if |data| < 34 || ReadBE16(data[12..14]) != ETHERTYPE_IPV4 then None
    else
      var shape := ShapeOf(data);
      if (shape.proto != TCP && shape.proto != UDP) || !HasPorts(shape) then None
      else
        var l4 := 14 + 4 * shape.first.ihl;
        Some(Tuple(ReadBE32(data[26..30]), ReadBE32(data[30..34]),
                   ReadBE16(data[l4..l4 + 2]), ReadBE16(data[l4 + 2..l4 + 4]), shape.proto))
  }

  ghost predicate Agrees(data: seq<u8>) {
    Inspect(data).Some? ==> RefParse(data) == Some(TupleOf(Inspect(data).value))
  }

  /** An accepted packet whose header has no options is parsed rightly exactly when its datagram has ports. */
  lemma AgreesExactlyWhen(data: seq<u8>)
    requires Inspect(data).Some? && FirstByte(data[14]) == IpFields(5, 4)
    ensures Agrees(data) <==> HasPorts(ShapeOf(data))
  {
    hide ReadBE16, ReadBE32, FirstByte;
  }

  // ---------------------------------------------------------------------
  // Whole shapes
  // ---------------------------------------------------------------------

  ghost predicate OfShape(data: seq<u8>, shape: Shape) {
    |data| >= 34 && ShapeOf(data) == shape
  }

  /** Every accepted packet of the shape is parsed as the reference parses it. */
  ghost predicate AgreesOnAll(shape: Shape) {
    forall data: seq<u8> | OfShape(data, shape) :: Agrees(data)
  }

  predicate Acceptable(shape: Shape) {
    (shape.proto == TCP || shape.proto == UDP) && shape.length >= 54
  }

  /** A packet of the same shape that the parser accepts and whose bytes where it looks for ports begin as chosen. */
  lemma Rewrite(data: seq<u8>, b: u8) returns (data': seq<u8>)
    requires |data| >= 34 && Acceptable(ShapeOf(data))
    ensures data' == data[12 := 8][13 := 0][34 := b] && OfShape(data', ShapeOf(data)) && Inspect(data').Some?
  {
    hide ReadBE16, ReadBE32, FirstByte;
    data' := data[12 := 8][13 := 0][34 := b];
    assert data'[16..18] == data[16..18] && data'[20..22] == data[20..22];
    TwoBytes(data'[12..14], 8, 0);
  }

  lemma OptionsDisagree(data: seq<u8>)
    requires |data| >= 34 && Acceptable(ShapeOf(data)) && HasPorts(ShapeOf(data)) && FirstByte(data[14]).ihl > 5
    ensures exists data': seq<u8> :: OfShape(data', ShapeOf(data)) && !Agrees(data')
  {
    hide ReadBE16, ReadBE32, FirstByte;
    var l4 := 14 + 4 * FirstByte(data[14]).ihl;
    var data' := Rewrite(data, if data[l4] == 0 then 1 else 0);
    TwoBytes(data'[34..36], data'[34], data'[35]);
    TwoBytes(data'[l4..l4 + 2], data[l4], data[l4 + 1]);
    assert data'[34] != data[l4] && ReadBE16(data'[34..36]) != ReadBE16(data'[l4..l4 + 2]);
    assert OfShape(data', ShapeOf(data)) && !Agrees(data');
  }

  /**
   * The fixed offsets are right for all packets of a shape that occurs exactly when either none is accepted or the
   * header has no options and the datagram has ports.
   */
  lemma FixedOffsetsExactlyWhen(shape: Shape)
    requires exists data: seq<u8> :: OfShape(data, shape)
    ensures AgreesOnAll(shape) <==> (Acceptable(shape) ==> shape.first.ihl == 5 && HasPorts(shape))
  {
    hide ReadBE16, ReadBE32, FirstByte;
    var data: seq<u8> :| OfShape(data, shape);
    if Acceptable(shape) && HasPorts(shape) && shape.first.ihl > 5 {
      OptionsDisagree(data);
    } else if Acceptable(shape) && !HasPorts(shape) {
      var data' := Rewrite(data, 0);
      assert OfShape(data', shape) && !Agrees(data');
    }
  }

  /** Where the header has no options the parser accepts what the reference accepts from 54 bytes up, and more without ports. */
  lemma AcceptsExactly(data: seq<u8>)
    requires |data| >= 34 && FirstByte(data[14]) == IpFields(5, 4)
    ensures RefParse(data).Some? && |data| >= 54 <==> Inspect(data).Some? && HasPorts(ShapeOf(data))
    ensures RefParse(data).Some? && |data| >= 54 ==> RefParse(data) == Some(TupleOf(Inspect(data).value))
  {
    hide ReadBE16, ReadBE32, FirstByte;
  }

  /** A later fragment of a UDP datagram, with the given bytes where an unfragmented one has its ports. */
  function Fragment(offset: u16, p0: u8, p1: u8): (data: seq<u8>)
    requires offset < 8192
    ensures |data| == 60
  {
    var zeros: seq<u8> := seq(60, _ => 0);
    zeros[12 := 8][14 := 0x45][17 := 46][20 := offset / 256][21 := offset % 256][23 := UDP][34 := p0][35 := p1]
  }

  /** Every later fragment is accepted with two payload bytes as its source port. */
  lemma FragmentGetsPorts(offset: u16, p0: u8, p1: u8)
    requires 0 < offset < 8192
    ensures var data := Fragment(offset, p0, p1);
            && Inspect(data).Some? && Inspect(data).value.srcPort == 256 * p0 + p1
            && RefParse(data) == None && ShapeOf(data).fragmentOffset == offset
  {
    hide ReadBE16, ReadBE32, FirstByte;
    var data := Fragment(offset, p0, p1);
    TwoBytes(data[12..14], 8, 0);
    TwoBytes(data[34..36], p0, p1);
    TwoBytes(data[20..22], offset / 256, offset % 256);
    assert 256 * (offset / 256) + offset % 256 == offset;
  }
}
