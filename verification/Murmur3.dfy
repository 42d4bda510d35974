/** The unrolled 13-byte MurmurHash3 of the 5-tuple, against the published algorithm, and its inverses. */
module Murmur3 {
  import opened Words
  import opened Murmur3Reference

  const C1: u32 := 0xcc9e2d51
  const C2: u32 := 0x1b873593
  const ADD: u32 := 0xe6546b64
  const M1: u32 := 0x85ebca6b
  const M2: u32 := 0xc2b2ae35
  const LEN: u32 := 13

  // ---------------------------------------------------------------------
  // The code: straight-line, unrolled
  // ---------------------------------------------------------------------

  function Fmix32(h0: u32): u32 {
    var h1 := Xor32(h0, Shr32(h0, 16));
    var h2 := WrappingMul(h1, M1);
    var h3 := Xor32(h2, Shr32(h2, 13));
    var h4 := WrappingMul(h3, M2);
    Xor32(h4, Shr32(h4, 16))
  }

  function Scramble(k: u32): u32 {
    WrappingMul(RotateLeft(WrappingMul(k, C1), 15), C2)
  }

  function MixBlock(h: u32, k: u32): u32 {
    WrappingAdd(WrappingMul(RotateLeft(Xor32(h, Scramble(k)), 13), 5), ADD)
  }

  /** `src_port | (dst_port << 16)`. */
  function PortsWord(srcPort: u16, dstPort: u16): (w: u32)
    ensures w == srcPort + dstPort * U16_MOD
  {
    Pow2Values(); OrIsSum(srcPort, dstPort, 16);
    Or(srcPort, dstPort * U16_MOD)
  }

  function Hash13(srcIp: u32, dstIp: u32, srcPort: u16, dstPort: u16, proto: u8): u32 {
    var h1 := MixBlock(0, srcIp);
    var h2 := MixBlock(h1, dstIp);
    var h3 := MixBlock(h2, PortsWord(srcPort, dstPort));
    var h4 := Xor32(h3, Scramble(proto));
    Fmix32(Xor32(h4, LEN))
  }

  // ---------------------------------------------------------------------
  // Against the published algorithm
  // ---------------------------------------------------------------------

  lemma ScrambleIsReference(k: u32)
    ensures Scramble(k) == RefScramble(k)
  {
    hide Rotated, RotateLeft;
    RotatedIsRotateLeft(WrappingMul(k, C1), 15);
  }

  lemma BlockIsReference(h: u32, k: u32)
    ensures MixBlock(h, k) == RefBlock(h, k)
  {
    hide Rotated, RotateLeft, Exclusive, Xor32, Scramble, RefScramble;
    ScrambleIsReference(k);
    ExclusiveIsXor(h, Scramble(k));
    RotatedIsRotateLeft(Xor32(h, Scramble(k)), 13);
  }

  lemma FinalIsReference(h0: u32)
    ensures Fmix32(h0) == RefFinal(h0)
  {
    hide Exclusive, Xor32, Shr32;
    var h1 := Xor32(h0, Shr32(h0, 16));
    var h2 := WrappingMul(h1, M1);
    var h3 := Xor32(h2, Shr32(h2, 13));
    var h4 := WrappingMul(h3, M2);
    ShiftIsDivision(h0); ExclusiveIsXor(h0, h0 / 0x1_0000);
    ShiftIsDivision(h2); ExclusiveIsXor(h2, h2 / 0x2000);
    ShiftIsDivision(h4); ExclusiveIsXor(h4, h4 / 0x1_0000);
  }

  lemma RefStep(data: seq<u8>, h: u32)
    requires |data| >= 4
    ensures RefBlocks(data, h) == RefBlocks(data[4..], RefBlock(h, LittleEndian(data[0], data[1], data[2], data[3])))
  {}

  lemma TupleWords(srcIp: u32, dstIp: u32, srcPort: u16, dstPort: u16, proto: u8)
    ensures var b := TupleBytes(srcIp, dstIp, srcPort, dstPort, proto);
            && LittleEndian(b[0], b[1], b[2], b[3]) == srcIp && LittleEndian(b[4], b[5], b[6], b[7]) == dstIp
            && LittleEndian(b[8], b[9], b[10], b[11]) == PortsWord(srcPort, dstPort) && b[12] == proto
  {
    FourBytes(srcIp);
    FourBytes(dstIp);
  }

  lemma FourBytes(x: u32)
    ensures LittleEndian(x % 0x100, x / 0x100 % 0x100, x / 0x100 / 0x100 % 0x100, x / 0x100 / 0x100 / 0x100) == x
  {
    var y := x / 0x100;
    var z := y / 0x100;
    assert x == 0x100 * y + x % 0x100 && y == 0x100 * z + y % 0x100 && z == 0x100 * (z / 0x100) + z % 0x100;
  }

  /** The unrolled code computes the published hash (seed 0) of the 13 tuple bytes. */
  lemma Hash13IsReference(srcIp: u32, dstIp: u32, srcPort: u16, dstPort: u16, proto: u8)
    ensures Hash13(srcIp, dstIp, srcPort, dstPort, proto) == RefHash(TupleBytes(srcIp, dstIp, srcPort, dstPort, proto), 0)
  {
    hide MixBlock, RefBlock, Scramble, RefScramble, Exclusive, Xor32, Fmix32, RefFinal, LittleEndian, PortsWord, TupleBytes;
    var b := TupleBytes(srcIp, dstIp, srcPort, dstPort, proto);
    TupleWords(srcIp, dstIp, srcPort, dstPort, proto);
    var h1 := MixBlock(0, srcIp);
    var h2 := MixBlock(h1, dstIp);
    var h3 := MixBlock(h2, PortsWord(srcPort, dstPort));
    BlockIsReference(0, srcIp);
    BlockIsReference(h1, dstIp);
    BlockIsReference(h2, PortsWord(srcPort, dstPort));
    RefStep(b, 0);
    RefStep(b[4..], h1);
    RefStep(b[8..], h2);
    assert b[4..][4..] == b[8..] && b[8..][4..] == b[12..] == [proto];
    OneByteWord(proto);
    ScrambleIsReference(proto);
    ExclusiveIsXor(h3, Scramble(proto));
    var h4 := Xor32(h3, Scramble(proto));
    ExclusiveIsXor(h4, LEN);
    FinalIsReference(Xor32(h4, LEN));
  }

  lemma OneByteWord(b: u8)
    ensures LittleEndian(b, 0, 0, 0) == b
  {}

  // ---------------------------------------------------------------------
  // Inverses
  // ---------------------------------------------------------------------

  // Inverses modulo 2^32 of the odd multipliers.
  const C1_INV: u32 := 0xdee13bb1
  const C2_INV: u32 := 0x56ed309b
  const M1_INV: u32 := 0xa5cb9243
  const M2_INV: u32 := 0x7ed1b41d
  const FIVE_INV: u32 := 0xcccccccd

  lemma InverseMultipliers(x: u32)
    ensures WrappingMul(WrappingMul(x, C1), C1_INV) == x && WrappingMul(WrappingMul(x, C1_INV), C1) == x
    ensures WrappingMul(WrappingMul(x, C2), C2_INV) == x && WrappingMul(WrappingMul(x, C2_INV), C2) == x
    ensures WrappingMul(WrappingMul(x, M1), M1_INV) == x && WrappingMul(WrappingMul(x, M1_INV), M1) == x
    ensures WrappingMul(WrappingMul(x, M2), M2_INV) == x && WrappingMul(WrappingMul(x, M2_INV), M2) == x
    ensures WrappingMul(WrappingMul(x, 5), FIVE_INV) == x && WrappingMul(WrappingMul(x, FIVE_INV), 5) == x
  {
    hide WrappingMul;
    MulCancel(x, C1, C1_INV, C1 * C1_INV / U32_MOD); MulCancel(x, C1_INV, C1, C1 * C1_INV / U32_MOD);
    MulCancel(x, C2, C2_INV, C2 * C2_INV / U32_MOD); MulCancel(x, C2_INV, C2, C2 * C2_INV / U32_MOD);
    MulCancel(x, M1, M1_INV, M1 * M1_INV / U32_MOD); MulCancel(x, M1_INV, M1, M1 * M1_INV / U32_MOD);
    MulCancel(x, M2, M2_INV, M2 * M2_INV / U32_MOD); MulCancel(x, M2_INV, M2, M2 * M2_INV / U32_MOD);
    MulCancel(x, 5, FIVE_INV, 4); MulCancel(x, FIVE_INV, 5, 4);
  }

  function UnFmix32(y: u32): u32 {
    var h4 := Xor32(y, Shr32(y, 16));
    var h3 := WrappingMul(h4, M2_INV);
    var h2 := Xor32(Xor32(h3, Shr32(h3, 13)), Shr32(h3, 26));
    var h1 := WrappingMul(h2, M1_INV);
    Xor32(h1, Shr32(h1, 16))
  }

  /** The top half of `x` is untouched by the shift, so the step undoes itself. */
  lemma XorShift16(x: u32)
    ensures var y := Xor32(x, Shr32(x, 16)); Xor32(y, Shr32(y, 16)) == x
  {
    hide Xor, Shr;
    Pow2Values();
    var y := Xor32(x, Shr32(x, 16));
    ShrXor(x, Shr(x, 16), 16);
    ShrShr(x, 16, 16);
    ShrOut(x, 32);
    XorRightZero(Shr(x, 16));
    XorCancel(x, Shr(x, 16));
  }

  lemma {:induction false} XorRightZero(a: nat)
    ensures Xor(a, 0) == a
  {
    if a != 0 { XorRightZero(a / 2); }
  }

  lemma XorShift13(x: u32)
    ensures var y := Xor32(x, Shr32(x, 13)); Xor32(Xor32(y, Shr32(y, 13)), Shr32(y, 26)) == x
    ensures var z := Xor32(Xor32(x, Shr32(x, 13)), Shr32(x, 26)); Xor32(z, Shr32(z, 13)) == x
  {
    hide Xor, Shr, Pow2;
    var a, b := Shr(x, 13), Shr(x, 26);
    Shift26(x);
    ShrXor(x, a, 13); ShrXor(x, a, 26);
    XorRightZero(b);
    XorAssoc(x, a, Xor(a, b));
    XorCancel(x, a); XorComm(a, b); XorCancel(b, a); XorComm(a, Xor(a, b));
    XorCancel(x, b);
    XorAssoc(x, a, b);
    var s := Xor(a, b);
    ShrXor(x, s, 13); ShrXor(a, b, 13); XorCancel(a, b); XorCancel(x, s);
    ShrXor(Xor(x, a), b, 13); XorRightZero(s);
  }

  lemma Shift26(x: u32)
    ensures Shr(Shr(x, 13), 13) == Shr(x, 26) && Shr(Shr(x, 13), 26) == 0 && Shr(Shr(x, 26), 13) == 0
  {
    hide Xor, Shr;
    Pow2Values();
    ShrShr(x, 13, 13); ShrShr(x, 13, 26); ShrShr(x, 26, 13);
    ShrShr(x, 32, 7); ShrOut(x, 32);
    ShrOfZero(7);
  }

  lemma {:induction false} ShrOfZero(n: nat)
    ensures Shr(0, n) == 0
  {
    if n > 0 { ShrOfZero(n - 1); }
  }

  /** The finaliser is a bijection on 32-bit words, with `UnFmix32` as two-sided inverse. */
  lemma Fmix32Bijective(x: u32)
    ensures UnFmix32(Fmix32(x)) == x
    ensures Fmix32(UnFmix32(x)) == x
  {
    hide Xor32, Shr32, WrappingMul;
    var h1 := Xor32(x, Shr32(x, 16));
    var h2 := WrappingMul(h1, M1);
    var h3 := Xor32(h2, Shr32(h2, 13));
    var h4 := WrappingMul(h3, M2);
    XorShift16(x); InverseMultipliers(h1); XorShift13(h2); InverseMultipliers(h3); XorShift16(h4);
    var g3 := WrappingMul(h1, M2_INV);
    var g2 := Xor32(Xor32(g3, Shr32(g3, 13)), Shr32(g3, 26));
    var g1 := WrappingMul(g2, M1_INV);
    XorShift13(g3); InverseMultipliers(g2); XorShift16(g1);
  }

  function UnScramble(y: u32): u32 {
    WrappingMul(RotateLeft(WrappingMul(y, C2_INV), 17), C1_INV)
  }

  lemma ScrambleBijective(x: u32)
    ensures UnScramble(Scramble(x)) == x && Scramble(UnScramble(x)) == x
  {
    hide WrappingMul, RotateLeft;
    InverseMultipliers(x);
    RotateBack(WrappingMul(x, C1), 15); InverseMultipliers(RotateLeft(WrappingMul(x, C1), 15));
    RotateBack(WrappingMul(x, C2_INV), 17); InverseMultipliers(RotateLeft(WrappingMul(x, C2_INV), 17));
  }

  /** A block step without its exclusive or: rotate, times five, add. */
  function Spread(x: u32): u32 {
    WrappingAdd(WrappingMul(RotateLeft(x, 13), 5), ADD)
  }

  function UnSpread(y: u32): u32 {
    RotateLeft(WrappingMul(WrappingSub(y, ADD), FIVE_INV), 19)
  }

  lemma SpreadBijective(x: u32)
    ensures UnSpread(Spread(x)) == x && Spread(UnSpread(x)) == x
  {
    hide WrappingMul, RotateLeft, WrappingAdd, WrappingSub;
    AddCancel(WrappingMul(RotateLeft(x, 13), 5), ADD);
    InverseMultipliers(RotateLeft(x, 13)); RotateBack(x, 13);
    RotateBack(WrappingMul(WrappingSub(x, ADD), FIVE_INV), 19);
    InverseMultipliers(WrappingSub(x, ADD)); AddCancel(x, ADD);
  }

  /** The word that takes state `h` to state `y`. */
  function BlockFor(h: u32, y: u32): u32 {
    UnScramble(Xor32(UnSpread(y), h))
  }

  /** The state that block `k` takes to state `y`. */
  function StateBefore(k: u32, y: u32): u32 {
    Xor32(UnSpread(y), Scramble(k))
  }

  lemma MixBlockIsSpread(h: u32, k: u32)
    ensures MixBlock(h, k) == Spread(Xor32(h, Scramble(k)))
  {
    hide WrappingMul, RotateLeft, WrappingAdd, Xor32, Scramble;
  }

  /** Mixing in a block is invertible both in the block and in the state. */
  lemma MixBlockBijective(h: u32, k: u32, y: u32)
    ensures BlockFor(h, MixBlock(h, k)) == k && MixBlock(h, BlockFor(h, y)) == y
    ensures StateBefore(k, MixBlock(h, k)) == h && MixBlock(StateBefore(k, y), k) == y
  {
    hide MixBlock, Spread, UnSpread, Scramble, UnScramble, Xor32;
    var u := UnSpread(y);
    MixBlockIsSpread(h, k); MixBlockIsSpread(h, BlockFor(h, y)); MixBlockIsSpread(StateBefore(k, y), k);
    SpreadBijective(Xor32(h, Scramble(k))); SpreadBijective(y);
    ScrambleBijective(k); ScrambleBijective(Xor32(u, h));
    Xor32Cancel(h, Scramble(k)); Xor32Cancel(Scramble(k), h);
    Xor32Cancel(u, h); Xor32Cancel(u, Scramble(k));
  }

  /** The state that must stand before the tail for the hash to come out as `y`. */
  function BeforeTail(proto: u8, y: u32): u32 {
    Xor32(Xor32(UnFmix32(y), LEN), Scramble(proto))
  }

  function Finish(h: u32, proto: u8): u32 {
    Fmix32(Xor32(Xor32(h, Scramble(proto)), LEN))
  }

  lemma TailBijective(h: u32, proto: u8, y: u32)
    ensures BeforeTail(proto, Finish(h, proto)) == h
    ensures Finish(BeforeTail(proto, y), proto) == y
  {
    hide Fmix32, UnFmix32, Xor32, Scramble;
    var s := Scramble(proto);
    Fmix32Bijective(Xor32(Xor32(h, s), LEN));
    Fmix32Bijective(y);
    Xor32Cancel(Xor32(h, s), LEN); Xor32Cancel(h, s);
    Xor32Cancel(Xor32(UnFmix32(y), LEN), s); Xor32Cancel(UnFmix32(y), LEN);
  }

  /** The hash as a function of its four inputs: three full words and the protocol byte. */
  function HashWords(w1: u32, w2: u32, w3: u32, proto: u8): u32 {
    Finish(MixBlock(MixBlock(MixBlock(0, w1), w2), w3), proto)
  }

  lemma Hash13IsHashWords(srcIp: u32, dstIp: u32, srcPort: u16, dstPort: u16, proto: u8)
    ensures Hash13(srcIp, dstIp, srcPort, dstPort, proto) == HashWords(srcIp, dstIp, PortsWord(srcPort, dstPort), proto)
  {
    hide MixBlock, Fmix32, Xor32, Scramble, PortsWord;
  }

  function SrcIpFor(w2: u32, w3: u32, proto: u8, y: u32): u32 {
    BlockFor(0, StateBefore(w2, StateBefore(w3, BeforeTail(proto, y))))
  }

  function DstIpFor(w1: u32, w3: u32, proto: u8, y: u32): u32 {
    BlockFor(MixBlock(0, w1), StateBefore(w3, BeforeTail(proto, y)))
  }

  function PortsFor(w1: u32, w2: u32, proto: u8, y: u32): u32 {
    BlockFor(MixBlock(MixBlock(0, w1), w2), BeforeTail(proto, y))
  }

  /** With the other inputs fixed, every hash value is reached from exactly one source address. */
  lemma SrcIpBijective(w1: u32, w2: u32, w3: u32, proto: u8, y: u32)
    ensures SrcIpFor(w2, w3, proto, HashWords(w1, w2, w3, proto)) == w1
    ensures HashWords(SrcIpFor(w2, w3, proto, y), w2, w3, proto) == y
  {
    hide MixBlock, BlockFor, StateBefore, BeforeTail, Finish;
    var h1 := MixBlock(0, w1);
    var h2 := MixBlock(h1, w2);
    var t := BeforeTail(proto, y);
    TailBijective(MixBlock(h2, w3), proto, y);
    MixBlockBijective(h2, w3, t);
    MixBlockBijective(h1, w2, StateBefore(w3, t));
    MixBlockBijective(0, w1, StateBefore(w2, StateBefore(w3, t)));
  }

  /** The same for the destination address. */
  lemma DstIpBijective(w1: u32, w2: u32, w3: u32, proto: u8, y: u32)
    ensures DstIpFor(w1, w3, proto, HashWords(w1, w2, w3, proto)) == w2
    ensures HashWords(w1, DstIpFor(w1, w3, proto, y), w3, proto) == y
  {
    hide MixBlock, BlockFor, StateBefore, BeforeTail, Finish;
    var h1 := MixBlock(0, w1);
    var h2 := MixBlock(h1, w2);
    var t := BeforeTail(proto, y);
    TailBijective(MixBlock(h2, w3), proto, y);
    MixBlockBijective(h2, w3, t);
    MixBlockBijective(h1, w2, StateBefore(w3, t));
  }

  /** The same for the port pair. */
  lemma PortsBijective(w1: u32, w2: u32, w3: u32, proto: u8, y: u32)
    ensures PortsFor(w1, w2, proto, HashWords(w1, w2, w3, proto)) == w3
    ensures HashWords(w1, w2, PortsFor(w1, w2, proto, y), proto) == y
  {
    hide MixBlock, BlockFor, StateBefore, BeforeTail, Finish;
    var h2 := MixBlock(MixBlock(0, w1), w2);
    TailBijective(MixBlock(h2, w3), proto, y);
    MixBlockBijective(h2, w3, BeforeTail(proto, y));
  }

  /** The source and destination port in a port word. */
  function PortPair(w: u32): (p: (u16, u16))
    ensures PortsWord(p.0, p.1) == w
  {
    (w % U16_MOD, w / U16_MOD)
  }

  /** For each hash value there is exactly one pair of ports, given the other inputs. */
  lemma PortPairBijective(srcIp: u32, dstIp: u32, proto: u8, y: u32)
    ensures var (s, d) := PortPair(PortsFor(srcIp, dstIp, proto, y));
            && Hash13(srcIp, dstIp, s, d, proto) == y
            && forall s': u16, d': u16 | Hash13(srcIp, dstIp, s', d', proto) == y :: s' == s && d' == d
  {
    hide Hash13, HashWords, PortsFor;
    var w := PortsFor(srcIp, dstIp, proto, y);
    var (s, d) := PortPair(w);
    PortsBijective(srcIp, dstIp, w, proto, y);
    Hash13IsHashWords(srcIp, dstIp, s, d, proto);
    forall s': u16, d': u16 | Hash13(srcIp, dstIp, s', d', proto) == y ensures s' == s && d' == d {
      Hash13IsHashWords(srcIp, dstIp, s', d', proto);
      PortsBijective(srcIp, dstIp, PortsWord(s', d'), proto, y);
    }
  }

  /** The protocol byte is determined by the hash and the other inputs. */
  lemma ProtoInjective(w1: u32, w2: u32, w3: u32, p: u8, q: u8)
    requires HashWords(w1, w2, w3, p) == HashWords(w1, w2, w3, q)
    ensures p == q
  {
    hide MixBlock, Fmix32, UnFmix32, Xor32, Scramble, UnScramble;
    var h := MixBlock(MixBlock(MixBlock(0, w1), w2), w3);
    var s, t := Scramble(p), Scramble(q);
    Fmix32Bijective(Xor32(Xor32(h, s), LEN));
    Fmix32Bijective(Xor32(Xor32(h, t), LEN));
    Xor32Cancel(Xor32(h, s), LEN); Xor32Cancel(Xor32(h, t), LEN);
    Xor32Cancel(s, h); Xor32Cancel(t, h);
    ScrambleBijective(p); ScrambleBijective(q);
  }

  datatype Tuple = Tuple(srcIp: u32, dstIp: u32, srcPort: u16, dstPort: u16, proto: u8)

  function HashOf(t: Tuple): u32 {
    Hash13(t.srcIp, t.dstIp, t.srcPort, t.dstPort, t.proto)
  }

  /** In how many of the four hash inputs (the port pair being one input) two tuples differ. */
  function Differences(t: Tuple, u: Tuple): nat {
    (if t.srcIp != u.srcIp then 1 else 0) + (if t.dstIp != u.dstIp then 1 else 0)
    + (if t.srcPort != u.srcPort || t.dstPort != u.dstPort then 1 else 0) + (if t.proto != u.proto then 1 else 0)
  }

  /** Distinct flows whose hashes collide differ in at least two of the four inputs. */
  lemma CollisionsDifferTwice(t: Tuple, u: Tuple)
    requires t != u && HashOf(t) == HashOf(u)
    ensures Differences(t, u) >= 2
  {
    hide Hash13, HashWords, SrcIpFor, DstIpFor, PortsFor;
    var p := PortsWord(t.srcPort, t.dstPort);
    var q := PortsWord(u.srcPort, u.dstPort);
    Hash13IsHashWords(t.srcIp, t.dstIp, t.srcPort, t.dstPort, t.proto);
    Hash13IsHashWords(u.srcIp, u.dstIp, u.srcPort, u.dstPort, u.proto);
    if t.srcIp == u.srcIp && t.dstIp == u.dstIp && p == q {
      ProtoInjective(t.srcIp, t.dstIp, p, t.proto, u.proto);
    }
    PortsBijective(t.srcIp, t.dstIp, p, t.proto, 0);
    PortsBijective(t.srcIp, t.dstIp, q, t.proto, 0);
    DstIpBijective(t.srcIp, t.dstIp, p, t.proto, 0);
    DstIpBijective(t.srcIp, u.dstIp, p, t.proto, 0);
    SrcIpBijective(t.srcIp, t.dstIp, p, t.proto, 0);
    SrcIpBijective(u.srcIp, t.dstIp, p, t.proto, 0);
  }
}
