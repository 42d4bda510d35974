/** The bit-field words of the IPv4 and TCP headers: two fields tiling one byte, ten fields tiling two. */
module Headers {
  import opened Words
  import opened Bitfield

  // ---------------------------------------------------------------------
  // Filling a unit from the front, field after field
  // ---------------------------------------------------------------------

  /** A set at the end of a filled prefix extends the prefix by the field. */
  lemma SetExtends(before: seq<u8>, after: seq<u8>, prefix: seq<bool>, width: nat, val: nat, big: bool)
    requires |prefix| + width <= 8 * |before|
    requires IsSet(before, after, |prefix|, width, val, big)
    requires Bits(before, big)[..|prefix|] == prefix
    ensures Bits(after, big)[..|prefix| + width] == prefix + FieldBits(val, width, big)
  {
    hide Bits, FieldBits;
  }

  /** One `set` of `new_bitfield_1`. */
  method Append(u: BitfieldUnit, ghost prefix: seq<bool>, offset: nat, width: nat, val: u64)
    requires offset == |prefix| && width <= 64 && offset + width <= 8 * u.storage.Length
    requires u.Contents()[..offset] == prefix
    modifies u.storage
    ensures u.Contents()[..offset + width] == prefix + FieldBits(val, width, u.big)
  {
    hide Bits, FieldBits;
    u.Set(offset, width, val);
    SetExtends(old(u.storage[..]), u.storage[..], prefix, width, val, u.big);
  }

  // ---------------------------------------------------------------------
  // IPv4: ihl and version
  // ---------------------------------------------------------------------

  datatype IpFields = IpFields(ihl: u8, version: u8)

  function IpBits(f: IpFields, big: bool): (bits: seq<bool>)
    ensures |bits| == 8
  {
    FieldBits(f.ihl, 4, big) + FieldBits(f.version, 4, big)
  }

  function ReadIp(bits: seq<bool>, big: bool): IpFields
    requires |bits| == 8
  {
    IpFields(Field16(bits[0..4], big), Field16(bits[4..8], big))
  }

  /** The value of a field of at most four bits. */
  function Field16(bits: seq<bool>, big: bool): (v: u8)
    requires |bits| <= 4
    ensures v == FieldValue(bits, big) < Pow2(|bits|)
  {
    LsbAppend(bits, []); MsbAppend([], bits);
    assert bits + [] == bits && [] + bits == bits;
    assert Pow2(3) == 8 && Pow2(4) == 16;
    FieldValue(bits, big)
  }

  lemma IpReadBuild(f: IpFields, big: bool)
    ensures ReadIp(IpBits(f, big), big) == IpFields(f.ihl % 16, f.version % 16)
  {
    hide FieldBits, FieldValue;
    var bits := IpBits(f, big);
    assert bits[0..4] == FieldBits(f.ihl, 4, big) && bits[4..8] == FieldBits(f.version, 4, big);
    FieldOfValue(f.ihl, 4, big);
    FieldOfValue(f.version, 4, big);
    assert Pow2(2) == 4 && Pow2(4) == 16;
  }

  lemma IpBuildRead(bits: seq<bool>, big: bool)
    requires |bits| == 8
    ensures IpBits(ReadIp(bits, big), big) == bits
  {
    hide FieldBits, FieldValue;
    ValueOfField(bits[0..4], big);
    ValueOfField(bits[4..8], big);
    assert bits == bits[0..4] + bits[4..8];
  }

  method NewIpBitfield(big: bool, f: IpFields) returns (u: BitfieldUnit)
    ensures fresh(u.storage) && u.storage.Length == 1 && u.big == big
    ensures u.Contents() == IpBits(f, big)
  {
    hide Bits, FieldBits;
    u := new BitfieldUnit.Default(big, 1);
    ghost var p0: seq<bool> := [];
    Append(u, p0, 0, 4, f.ihl);
    Append(u, p0 + FieldBits(f.ihl, 4, big), 4, 4, f.version);
    assert u.Contents()[..8] == u.Contents();
    assert p0 + FieldBits(f.ihl, 4, big) == FieldBits(f.ihl, 4, big);
  }

  method Ihl(u: BitfieldUnit) returns (v: u8)
    requires u.storage.Length == 1
    ensures v == ReadIp(u.Contents(), u.big).ihl
  {
    var g := u.Get(0, 4);
    v := Truncate4(g, u.Contents()[0..4], u.big);
  }

  method Version(u: BitfieldUnit) returns (v: u8)
    requires u.storage.Length == 1
    ensures v == ReadIp(u.Contents(), u.big).version
  {
    var g := u.Get(4, 4);
    v := Truncate4(g, u.Contents()[4..8], u.big);
  }

  /** The `as u8` (or `as u16`) cast of a field of at most four bits loses nothing. */
  method Truncate4(g: u64, ghost bits: seq<bool>, ghost big: bool) returns (v: u8)
    requires |bits| <= 4 && g == FieldValue(bits, big)
    ensures v == Field16(bits, big)
  {
    ghost var w := Field16(bits, big);
    v := g % 256;
  }

  // ---------------------------------------------------------------------
  // TCP: ten fields
  // ---------------------------------------------------------------------

  datatype TcpFields = TcpFields(res1: u16, doff: u16, fin: u16, syn: u16, rst: u16,
                                 psh: u16, ack: u16, urg: u16, ece: u16, cwr: u16)

  function TcpBits(f: TcpFields, big: bool): (bits: seq<bool>)
    ensures |bits| == 16
  {
    FieldBits(f.res1, 4, big) + FieldBits(f.doff, 4, big) + FieldBits(f.fin, 1, big) + FieldBits(f.syn, 1, big)
    + FieldBits(f.rst, 1, big) + FieldBits(f.psh, 1, big) + FieldBits(f.ack, 1, big) + FieldBits(f.urg, 1, big)
    + FieldBits(f.ece, 1, big) + FieldBits(f.cwr, 1, big)
  }

  function ReadTcp(bits: seq<bool>, big: bool): TcpFields
    requires |bits| == 16
  {
    TcpFields(Field16(bits[0..4], big), Field16(bits[4..8], big), Field16(bits[8..9], big), Field16(bits[9..10], big),
              Field16(bits[10..11], big), Field16(bits[11..12], big), Field16(bits[12..13], big),
              Field16(bits[13..14], big), Field16(bits[14..15], big), Field16(bits[15..16], big))
  }

  /** Where the ten fields lie in the two bytes of the word, in either endianness. */
  lemma TcpFieldsOfBytes(a: u8, b: u8, big: bool)
    ensures ReadTcp(Bits([a, b], big), big) ==
              if big then TcpFields(a / 16, a % 16, b / 128, b / 64 % 2, b / 32 % 2, b / 16 % 2, b / 8 % 2, b / 4 % 2, b / 2 % 2, b % 2)
              else TcpFields(a % 16, a / 16, b % 2, b / 2 % 2, b / 4 % 2, b / 8 % 2, b / 16 % 2, b / 32 % 2, b / 64 % 2, b / 128)
  {
    hide Bits, FieldValue, Field16, Pow2;
    HeadOfBytes(a, b, big);
    NibblesOfByte(a, big);
    SmallPowers();
    FlagOfBytes(a, b, 0, big); FlagOfBytes(a, b, 1, big); FlagOfBytes(a, b, 2, big); FlagOfBytes(a, b, 3, big);
    FlagOfBytes(a, b, 4, big); FlagOfBytes(a, b, 5, big); FlagOfBytes(a, b, 6, big); FlagOfBytes(a, b, 7, big);
  }

  lemma HeadOfBytes(a: u8, b: u8, big: bool)
    ensures Bits([a, b], big) == Bits([a], big) + Bits([b], big)
    ensures Bits([a, b], big)[0..4] == Bits([a], big)[0..4] && Bits([a, b], big)[4..8] == Bits([a], big)[4..8]
  {
    hide Bits;
    assert [a, b] == [a] + [b];
    BitsAppend([a], [b], big);
  }

  lemma IpFieldsOfByte(b: u8, big: bool)
    ensures ReadIp(Bits([b], big), big) == if big then IpFields(b / 16, b % 16) else IpFields(b % 16, b / 16)
  {
    hide Bits, FieldValue, Field16;
    NibblesOfByte(b, big);
  }

  lemma NibblesOfByte(b: u8, big: bool)
    ensures Field16(Bits([b], big)[0..4], big) == (if big then b / 16 else b % 16)
    ensures Field16(Bits([b], big)[4..8], big) == (if big then b % 16 else b / 16)
  {
    hide Bits, FieldValue, FromLE, FromBE, Pow2;
    SmallPowers();
    ByteValue(b, big);
    FieldIsSlice([b], 0, 4, big);
    FieldIsSlice([b], 4, 4, big);
  }

  lemma FlagOfBytes(a: u8, b: u8, i: nat, big: bool)
    requires i < 8
    ensures Field16(Bits([a, b], big)[8 + i..9 + i], big) == b / Pow2(if big then 7 - i else i) % 2
  {
    hide Bits, FieldValue, FromLE, FromBE, Pow2;
    HeadOfBytes(a, b, big);
    assert Bits([a, b], big)[8 + i..9 + i] == Bits([b], big)[i..i + 1];
    SmallPowers();
    ByteValue(b, big);
    FieldIsSlice([b], i, 1, big);
  }

  lemma SmallPowers()
    ensures Pow2(0) == 1 && Pow2(1) == 2 && Pow2(2) == 4 && Pow2(3) == 8 && Pow2(4) == 16
    ensures Pow2(5) == 32 && Pow2(6) == 64 && Pow2(7) == 128
  {
    assert Pow2(2) == 4;
    assert Pow2(4) == 16;
    assert Pow2(6) == 64;
  }

  lemma ByteValue(b: u8, big: bool)
    ensures StorageValue([b], big) == b
  {
    assert [b][1..] == [] && [b][..0] == [];
    assert FromLE([]) == 0 && FromBE([]) == 0;
  }

  lemma FieldOfU16(val: u16, big: bool)
    ensures Field16(FieldBits(val, 4, big), big) == val % 16
    ensures Field16(FieldBits(val, 1, big), big) == val % 2
  {
    FieldOfValue(val, 4, big);
    FieldOfValue(val, 1, big);
    assert Pow2(1) == 2 && Pow2(2) == 4 && Pow2(4) == 16;
  }

  /** Building the word and reading every field returns each input reduced to its width. */
  lemma TcpReadBuild(f: TcpFields, big: bool)
    ensures ReadTcp(TcpBits(f, big), big)
         == TcpFields(f.res1 % 16, f.doff % 16, f.fin % 2, f.syn % 2, f.rst % 2,
                      f.psh % 2, f.ack % 2, f.urg % 2, f.ece % 2, f.cwr % 2)
  {
    hide FieldBits, Field16;
    TcpSlices(f, big);
    FieldOfU16(f.res1, big); FieldOfU16(f.doff, big); FieldOfU16(f.fin, big); FieldOfU16(f.syn, big);
    FieldOfU16(f.rst, big); FieldOfU16(f.psh, big); FieldOfU16(f.ack, big); FieldOfU16(f.urg, big);
    FieldOfU16(f.ece, big); FieldOfU16(f.cwr, big);
  }

  lemma TcpSlices(f: TcpFields, big: bool)
    ensures var bits := TcpBits(f, big);
            && bits[0..4] == FieldBits(f.res1, 4, big) && bits[4..8] == FieldBits(f.doff, 4, big)
            && bits[8..9] == FieldBits(f.fin, 1, big) && bits[9..10] == FieldBits(f.syn, 1, big)
            && bits[10..11] == FieldBits(f.rst, 1, big) && bits[11..12] == FieldBits(f.psh, 1, big)
            && bits[12..13] == FieldBits(f.ack, 1, big) && bits[13..14] == FieldBits(f.urg, 1, big)
            && bits[14..15] == FieldBits(f.ece, 1, big) && bits[15..16] == FieldBits(f.cwr, 1, big)
  {
    hide FieldBits;
  }

  /** Rebuilding from what the getters read reproduces the bits: the ten fields tile all sixteen. */
  lemma TcpBuildRead(bits: seq<bool>, big: bool)
    requires |bits| == 16
    ensures TcpBits(ReadTcp(bits, big), big) == bits
  {
    hide FieldBits, FieldValue;
    ValueOfField(bits[0..4], big); ValueOfField(bits[4..8], big);
    ValueOfField(bits[8..9], big); ValueOfField(bits[9..10], big); ValueOfField(bits[10..11], big);
    ValueOfField(bits[11..12], big); ValueOfField(bits[12..13], big); ValueOfField(bits[13..14], big);
    ValueOfField(bits[14..15], big); ValueOfField(bits[15..16], big);
    assert bits == bits[0..4] + bits[4..8] + bits[8..9] + bits[9..10] + bits[10..11] + bits[11..12]
                   + bits[12..13] + bits[13..14] + bits[14..15] + bits[15..16];
  }

  method NewTcpBitfield(big: bool, f: TcpFields) returns (u: BitfieldUnit)
    ensures fresh(u.storage) && u.storage.Length == 2 && u.big == big
    ensures u.Contents() == TcpBits(f, big)
  {
    hide Bits, FieldBits;
    u := new BitfieldUnit.Default(big, 2);
    ghost var p: seq<bool> := [];
    Append(u, p, 0, 4, f.res1);
    p := FieldBits(f.res1, 4, big);
    assert u.Contents()[..4] == p;
    Append(u, p, 4, 4, f.doff);
    p := p + FieldBits(f.doff, 4, big);
    Append(u, p, 8, 1, f.fin);
    p := p + FieldBits(f.fin, 1, big);
    Append(u, p, 9, 1, f.syn);
    p := p + FieldBits(f.syn, 1, big);
    Append(u, p, 10, 1, f.rst);
    p := p + FieldBits(f.rst, 1, big);
    Append(u, p, 11, 1, f.psh);
    p := p + FieldBits(f.psh, 1, big);
    Append(u, p, 12, 1, f.ack);
    p := p + FieldBits(f.ack, 1, big);
    Append(u, p, 13, 1, f.urg);
    p := p + FieldBits(f.urg, 1, big);
    Append(u, p, 14, 1, f.ece);
    p := p + FieldBits(f.ece, 1, big);
    Append(u, p, 15, 1, f.cwr);
    assert u.Contents()[..16] == u.Contents();
  }

  method GetSmall(u: BitfieldUnit, offset: nat, width: nat) returns (v: u8)
    requires u.storage.Length == 2 && width <= 4 && offset + width <= 16
    ensures v == Field16(u.Contents()[offset..offset + width], u.big)
  {
    hide Bits, FieldValue;
    var g := u.Get(offset, width);
    v := Truncate4(g, u.Contents()[offset..offset + width], u.big);
  }

  /** All ten getters. */
  method ReadTcpBitfield(u: BitfieldUnit) returns (f: TcpFields)
    requires u.storage.Length == 2
    ensures f == ReadTcp(u.Contents(), u.big)
  {
    hide Bits, Field16;
    var res1 := GetSmall(u, 0, 4);
    var doff := GetSmall(u, 4, 4);
    var fin := GetSmall(u, 8, 1);
    var syn := GetSmall(u, 9, 1);
    var rst := GetSmall(u, 10, 1);
    var psh := GetSmall(u, 11, 1);
    var ack := GetSmall(u, 12, 1);
    var urg := GetSmall(u, 13, 1);
    var ece := GetSmall(u, 14, 1);
    var cwr := GetSmall(u, 15, 1);
    f := TcpFields(res1, doff, fin, syn, rst, psh, ack, urg, ece, cwr);
  }

  /** Reading any TCP word and building a new one from the fields copies the storage byte for byte. */
  method RebuildTcp(u: BitfieldUnit) returns (v: BitfieldUnit)
    requires u.storage.Length == 2
    ensures fresh(v.storage) && v.storage[..] == u.storage[..]
  {
    hide Bits, TcpBits, ReadTcp;
    var f := ReadTcpBitfield(u);
    v := NewTcpBitfield(u.big, f);
    TcpBuildRead(u.Contents(), u.big);
    BitsInjective(v.storage[..], u.storage[..], u.big);
  }
}
