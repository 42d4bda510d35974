/** MurmurHash3_x86_32 as published, for byte strings of any length, on numbers and bits and with its own constants. */
module Murmur3Reference {
  import opened Words
  import opened Bitfield

  // ---------------------------------------------------------------------
  // Words as 32 bits
  // ---------------------------------------------------------------------

  function WordOfBits(bits: seq<bool>): u32
    requires |bits| == 32
  {
    LsbAppend(bits, []); Pow2Values();
    LsbValue(bits)
  }

  /** Bit i moves to bit (i + r) mod 32. */
  function Rotated(x: u32, r: nat): u32 {
    WordOfBits(seq(32, i requires 0 <= i < 32 => Bit(x, (i - r) % 32)))
  }

  /** Bit by bit, set where exactly one is. */
  function Exclusive(x: u32, y: u32): u32 {
    WordOfBits(seq(32, i requires 0 <= i < 32 => Bit(x, i) != Bit(y, i)))
  }

  // ---------------------------------------------------------------------
  // The algorithm
  // ---------------------------------------------------------------------

  function RefScramble(k: u32): u32 {
    Rotated(k * 0xcc9e2d51 % 0x1_0000_0000, 15) * 0x1b873593 % 0x1_0000_0000
  }

  function RefBlock(h: u32, k: u32): u32 {
    (Rotated(Exclusive(h, RefScramble(k)), 13) * 5 + 0xe6546b64) % 0x1_0000_0000
  }

  function RefFinal(h0: u32): u32 {
    var h1 := Exclusive(h0, h0 / 0x1_0000);
    var h2 := h1 * 0x85ebca6b % 0x1_0000_0000;
    var h3 := Exclusive(h2, h2 / 0x2000);
    var h4 := h3 * 0xc2b2ae35 % 0x1_0000_0000;
    Exclusive(h4, h4 / 0x1_0000)
  }

  /** Four bytes, least significant first. */
  function LittleEndian(a: u8, b: u8, c: u8, d: u8): u32 {
    a + 0x100 * b + 0x1_0000 * c + 0x100_0000 * d
  }

  function RefBlocks(data: seq<u8>, h: u32): u32 {
    if |data| < 4 then RefTail(data, h)
    else RefBlocks(data[4..], RefBlock(h, LittleEndian(data[0], data[1], data[2], data[3])))
  }

  function RefTail(data: seq<u8>, h: u32): u32
    requires |data| < 4
  {
    if data == [] then h
    else
      Exclusive(h, RefScramble(LittleEndian(data[0], if |data| > 1 then data[1] else 0, if |data| > 2 then data[2] else 0, 0)))
  }

  function RefHash(data: seq<u8>, seed: u32): u32 {
    RefFinal(Exclusive(RefBlocks(data, seed), |data| % 0x1_0000_0000))
  }

  /** The 5-tuple as 13 bytes, each field least significant byte first. */
  function TupleBytes(srcIp: u32, dstIp: u32, srcPort: u16, dstPort: u16, proto: u8): (b: seq<u8>)
    ensures |b| == 13
  {
    [srcIp % 0x100, srcIp / 0x100 % 0x100, srcIp / 0x100 / 0x100 % 0x100, srcIp / 0x100 / 0x100 / 0x100,
     dstIp % 0x100, dstIp / 0x100 % 0x100, dstIp / 0x100 / 0x100 % 0x100, dstIp / 0x100 / 0x100 / 0x100,
     srcPort % 0x100, srcPort / 0x100, dstPort % 0x100, dstPort / 0x100, proto]
  }

  // ---------------------------------------------------------------------
  // The bit operations in arithmetic
  // ---------------------------------------------------------------------

  lemma BitsOfWord(x: u32)
    ensures LsbValue(FieldBits(x, 32, false)) == x
  {
    hide LsbValue, FieldBits, Pow2;
    Pow2Values();
    LsbOfValue(x, 32);
  }

  lemma ExclusiveIsXor(x: u32, y: u32)
    ensures Exclusive(x, y) == Xor32(x, y)
  {
    hide LsbValue, Bit, Xor, Pow2;
    var bits := seq(32, i requires 0 <= i < 32 => Bit(x, i) != Bit(y, i));
    var z := Xor32(x, y);
    forall i: nat | i < 32 ensures bits[i] == FieldBits(z, 32, false)[i] {
      BitXor(x, y, i);
    }
    assert bits == FieldBits(z, 32, false);
    BitsOfWord(z);
  }

  /** A rotation swaps the word's top and bottom bits. */
  lemma RotatedIsRotateLeft(x: u32, r: nat)
    requires r <= 32
    ensures Rotated(x, r) == RotateLeft(x, r)
  {
    hide LsbValue, FieldBits, Pow2;
    var bits := FieldBits(x, 32, false);
    TurnedParts(x, r);
    LsbAppend(bits[32 - r..32], bits[0..32 - r]);
    PartValues(x, r);
    RotateParts(r);
    RotateSplit(x, Pow2(r), Pow2(32 - r));
  }

  lemma TurnedParts(x: u32, r: nat)
    requires r <= 32
    ensures var bits := FieldBits(x, 32, false);
            seq(32, i requires 0 <= i < 32 => Bit(x, (i - r) % 32)) == bits[32 - r..32] + bits[0..32 - r]
  {
    hide Bit;
    var bits := FieldBits(x, 32, false);
    var turned := seq(32, i requires 0 <= i < 32 => Bit(x, (i - r) % 32));
    forall i: nat | i < 32 ensures turned[i] == (bits[32 - r..32] + bits[0..32 - r])[i] {
      TurnedIndex(i, r);
    }
  }

  lemma PartValues(x: u32, r: nat)
    requires r <= 32
    ensures var bits := FieldBits(x, 32, false);
            && LsbValue(bits[0..32 - r]) == x % Pow2(32 - r) && LsbValue(bits[32 - r..32]) == x / Pow2(32 - r)
  {
    hide LsbValue, FieldBits, Pow2;
    var bits := FieldBits(x, 32, false);
    BitsOfWord(x);
    LsbSlice(bits, 0, 32 - r);
    LsbSlice(bits, 32 - r, r);
    Pow2Step(0);
    RotateParts(r);
    RotateSplit(x, Pow2(r), Pow2(32 - r));
    SmallRemainder(x / Pow2(32 - r), Pow2(r));
  }

  lemma TurnedIndex(i: nat, r: nat)
    requires i < 32 && r <= 32
    ensures (i - r) % 32 == if i < r then i - r + 32 else i - r
  {}

  lemma SmallRemainder(x: nat, d: nat)
    requires x < d
    ensures x % d == x
  {
    QuotientUnique(x, d, 0, x);
  }

  lemma ShiftIsDivision(x: u32)
    ensures Shr32(x, 16) == x / 0x1_0000 && Shr32(x, 13) == x / 0x2000
  {
    Pow2Values();
    assert Pow2(5) == 32;
    Pow2Add(8, 5);
    ShrIsDivision(x, 16);
    ShrIsDivision(x, 13);
  }
}
