/** The bit-field unit behind the kernel header bindings: bit loops over byte storage, in either endianness. */
module Bitfield {
  import opened Words

  // ---------------------------------------------------------------------
  // One bit of one byte
  // ---------------------------------------------------------------------

  function BitIndex(index: nat, big: bool): (i: nat)
    ensures i < 8
  {
    if big then 7 - (index % 8) else index % 8
  }

  predicate ExtractBit(byte: u8, index: nat, big: bool) {
    var mask := Pow2(BitIndex(index, big));
    And(byte, mask) == mask
  }

  function ChangeBit(byte: u8, index: nat, val: bool, big: bool): (r: u8)
  {
    var mask := Pow2(BitIndex(index, big));
    Pow2Values(); Pow2Mono(BitIndex(index, big), 8);
    OrBound(byte, mask, 8); AndBound(byte, 255 - mask, 8);
    if val then Or(byte, mask) else And(byte, 255 - mask)
  }

  lemma ExtractIsBit(byte: u8, index: nat, big: bool)
    ensures ExtractBit(byte, index, big) == Bit(byte, BitIndex(index, big))
  {
    MaskTest(byte, BitIndex(index, big));
  }

  /** Changing a bit sets that bit and no other bit of the byte. */
  lemma ChangeBitEffect(byte: u8, index: nat, val: bool, big: bool, i: nat)
    requires i < 8
    ensures Bit(ChangeBit(byte, index, val, big), i) == if i == BitIndex(index, big) then val else Bit(byte, i)
  {
    hide Bit, Or, And, Pow2;
    var k := BitIndex(index, big);
    Pow2Values(); Pow2Mono(k, 8);
    BitOr(byte, Pow2(k), i);
    BitAnd(byte, 255 - Pow2(k), i);
    BitNot(Pow2(k), 8, i);
    BitPow2(k, i);
  }

  // ---------------------------------------------------------------------
  // Storage as a sequence of bits, and fields as numbers
  // ---------------------------------------------------------------------

  /** The bits of the storage in field order. */
  function Bits(storage: seq<u8>, big: bool): (bits: seq<bool>)
    ensures |bits| == 8 * |storage|
  {
    seq(8 * |storage|, i requires 0 <= i < 8 * |storage| => ExtractBit(storage[i / 8], i, big))
  }

  function ToNat(b: bool): nat {
    if b then 1 else 0
  }

  /** First bit least significant. */
  function LsbValue(bits: seq<bool>): nat {
    if bits == [] then 0 else ToNat(bits[0]) + 2 * LsbValue(bits[1..])
  }

  /** First bit most significant. */
  function MsbValue(bits: seq<bool>): nat {
    if bits == [] then 0 else 2 * MsbValue(bits[..|bits| - 1]) + ToNat(bits[|bits| - 1])
  }

  function FieldValue(bits: seq<bool>, big: bool): nat {
    if big then MsbValue(bits) else LsbValue(bits)
  }

  /** The low `width` bits of a value, in field order. */
  function FieldBits(val: nat, width: nat, big: bool): (bits: seq<bool>)
    ensures |bits| == width
  {
    seq(width, j requires 0 <= j < width => Bit(val, if big then width - 1 - j else j))
  }

  function Splice(bits: seq<bool>, offset: nat, field: seq<bool>): (r: seq<bool>)
    requires offset + |field| <= |bits|
    ensures |r| == |bits|
  {
    bits[..offset] + field + bits[offset + |field|..]
  }

  lemma {:induction false} LsbAppend(a: seq<bool>, b: seq<bool>)
    ensures LsbValue(a + b) == LsbValue(a) + Pow2(|a|) * LsbValue(b)
    ensures LsbValue(a) < Pow2(|a|)
  {
    hide LsbValue, Pow2;
    Units();
    if a == [] {
      assert a + b == b;
    } else {
      assert (a + b)[1..] == a[1..] + b;
      LsbAppend(a[1..], b);
      LsbCons(a); LsbCons(a + b);
      Pow2Step(|a| - 1);
      Double(Pow2(|a| - 1), LsbValue(b));
    }
  }

  lemma {:induction false} MsbAppend(a: seq<bool>, b: seq<bool>)
    ensures MsbValue(a + b) == MsbValue(a) * Pow2(|b|) + MsbValue(b)
    ensures MsbValue(b) < Pow2(|b|)
  {
    hide MsbValue, Pow2;
    Units();
    if b == [] {
      assert a + b == a;
    } else {
      var b' := b[..|b| - 1];
      assert (a + b)[..|a + b| - 1] == a + b';
      MsbAppend(a, b');
      MsbSnoc(b); MsbSnoc(a + b);
      Pow2Step(|b| - 1);
      Double(Pow2(|b| - 1), MsbValue(a));
    }
  }

  lemma Units()
    ensures LsbValue([]) == 0 && MsbValue([]) == 0 && Pow2(0) == 1
  {}

  lemma LsbCons(bits: seq<bool>)
    requires bits != []
    ensures LsbValue(bits) == ToNat(bits[0]) + 2 * LsbValue(bits[1..])
  {}

  lemma MsbSnoc(bits: seq<bool>)
    requires bits != []
    ensures MsbValue(bits) == 2 * MsbValue(bits[..|bits| - 1]) + ToNat(bits[|bits| - 1])
  {}

  lemma Double(p: nat, x: nat)
    ensures 2 * (p * x) == (2 * p) * x == x * (2 * p) == 2 * (x * p)
  {}

  /** A field of a little-endian unit is the arithmetic slice of the whole read as one number. */
  lemma LsbSlice(bits: seq<bool>, offset: nat, width: nat)
    requires offset + width <= |bits|
    ensures LsbValue(bits[offset..offset + width]) == LsbValue(bits) / Pow2(offset) % Pow2(width)
  {
    hide LsbValue, Pow2;
    var a, f, c := bits[..offset], bits[offset..offset + width], bits[offset + width..];
    assert bits == a + (f + c);
    LsbAppend(a, f + c);
    LsbAppend(f, c);
    var rest := LsbValue(f + c);
    assert LsbValue(bits) == rest * Pow2(offset) + LsbValue(a) by { assert Pow2(offset) * rest == rest * Pow2(offset); }
    QuotientUnique(LsbValue(bits), Pow2(offset), rest, LsbValue(a));
    assert rest == LsbValue(c) * Pow2(width) + LsbValue(f) by { assert Pow2(width) * LsbValue(c) == LsbValue(c) * Pow2(width); }
    QuotientUnique(rest, Pow2(width), LsbValue(c), LsbValue(f));
  }

  /** The big-endian mirror: the slice is counted from the other end. */
  lemma MsbSlice(bits: seq<bool>, offset: nat, width: nat)
    requires offset + width <= |bits|
    ensures MsbValue(bits[offset..offset + width]) == MsbValue(bits) / Pow2(|bits| - offset - width) % Pow2(width)
  {
    hide MsbValue, Pow2;
    var a, f, c := bits[..offset], bits[offset..offset + width], bits[offset + width..];
    assert bits == (a + f) + c;
    MsbAppend(a + f, c);
    MsbAppend(a, f);
    QuotientUnique(MsbValue(bits), Pow2(|c|), MsbValue(a + f), MsbValue(c));
    QuotientUnique(MsbValue(a + f), Pow2(width), MsbValue(a), MsbValue(f));
  }

  lemma {:induction false} LsbOfValue(val: nat, width: nat)
    ensures LsbValue(FieldBits(val, width, false)) == val % Pow2(width)
    decreases width
  {
    hide LsbValue, Pow2;
    Units();
    if width == 0 {
      assert FieldBits(val, 0, false) == [];
    } else {
      LsbOfValue(val / 2, width - 1);
      var bits := FieldBits(val, width, false);
      forall j: nat | j < width - 1 ensures bits[1..][j] == FieldBits(val / 2, width - 1, false)[j] {
        BitHalf(val, j + 1);
      }
      assert bits[1..] == FieldBits(val / 2, width - 1, false);
      assert bits[0] == Bit(val, 0);
      LsbCons(bits);
      Pow2Step(width - 1);
      var p := Pow2(width - 1);
      ModHalf(val, p);
      assert Pow2(width) == 2 * p;
    }
  }

  lemma FieldBitsSnoc(val: nat, width: nat)
    requires width > 0
    ensures FieldBits(val, width, true)[..width - 1] == FieldBits(val / 2, width - 1, true)
    ensures ToNat(FieldBits(val, width, true)[width - 1]) == val % 2
  {
    var bits := FieldBits(val, width, true);
    forall j: nat | j < width - 1 ensures bits[j] == FieldBits(val / 2, width - 1, true)[j] {
      BitHalf(val, width - 1 - j);
    }
  }

  lemma {:induction false} MsbOfValue(val: nat, width: nat)
    ensures MsbValue(FieldBits(val, width, true)) == val % Pow2(width)
    decreases width
  {
    hide MsbValue, Pow2;
    Units();
    if width == 0 {
      assert FieldBits(val, 0, true) == [];
    } else {
      hide FieldBits;
      MsbOfValue(val / 2, width - 1);
      FieldBitsSnoc(val, width);
      MsbSnoc(FieldBits(val, width, true));
      Pow2Step(width - 1);
      ModHalf(val, Pow2(width - 1));
    }
  }

  /** Writing a value as a field and reading it back reduces it to the width of the field. */
  lemma FieldOfValue(val: nat, width: nat, big: bool)
    ensures FieldValue(FieldBits(val, width, big), big) == val % Pow2(width)
  {
    if big { MsbOfValue(val, width); } else { LsbOfValue(val, width); }
  }

  lemma {:induction false} LsbBit(bits: seq<bool>, i: nat)
    requires i < |bits|
    ensures Bit(LsbValue(bits), i) == bits[i]
  {
    Halves(ToNat(bits[0]), LsbValue(bits[1..]));
    if i > 0 {
      BitHalf(LsbValue(bits), i);
      LsbBit(bits[1..], i - 1);
    }
  }

  lemma {:induction false} MsbBit(bits: seq<bool>, i: nat)
    requires i < |bits|
    ensures Bit(MsbValue(bits), |bits| - 1 - i) == bits[i]
  {
    var n := |bits|;
    Halves(ToNat(bits[n - 1]), MsbValue(bits[..n - 1]));
    if i < n - 1 {
      BitHalf(MsbValue(bits), n - 1 - i);
      MsbBit(bits[..n - 1], i);
    }
  }

  /** Reading a field and writing it as a field of the same width gives the same bits. */
  lemma ValueOfField(bits: seq<bool>, big: bool)
    ensures FieldBits(FieldValue(bits, big), |bits|, big) == bits
  {
    forall i: nat | i < |bits| ensures FieldBits(FieldValue(bits, big), |bits|, big)[i] == bits[i] {
      if big { MsbBit(bits, i); } else { LsbBit(bits, i); }
    }
  }

  // ---------------------------------------------------------------------
  // Storage as one number
  // ---------------------------------------------------------------------

  lemma BitsOfByte(byte: u8, big: bool)
    ensures Bits([byte], big) == FieldBits(byte, 8, big)
  {
    forall i: nat | i < 8 ensures Bits([byte], big)[i] == FieldBits(byte, 8, big)[i] {
      ExtractIsBit(byte, i, big);
    }
  }

  lemma BitsAppend(s: seq<u8>, t: seq<u8>, big: bool)
    ensures Bits(s + t, big) == Bits(s, big) + Bits(t, big)
  {
    hide ExtractBit;
    forall i: nat | i < 8 * |s + t| ensures Bits(s + t, big)[i] == (Bits(s, big) + Bits(t, big))[i] {
      if i >= 8 * |s| {
        var j := i - 8 * |s|;
        assert i / 8 == |s| + j / 8 && i % 8 == j % 8;
        ExtractPeriodic(t[j / 8], i, j, big);
      }
    }
  }

  lemma ExtractPeriodic(byte: u8, i: nat, j: nat, big: bool)
    requires i % 8 == j % 8
    ensures ExtractBit(byte, i, big) == ExtractBit(byte, j, big)
  {}

  lemma {:induction false} StorageIsLE(storage: seq<u8>)
    ensures LsbValue(Bits(storage, false)) == FromLE(storage)
  {
    hide Bits, LsbValue, FieldBits, Pow2;
    if storage == [] {
      LsbOfValue(0, 0);
      assert FieldBits(0, 0, false) == [] == Bits(storage, false);
      Pow2Zero();
    } else {
      var b, rest := storage[..1], storage[1..];
      assert storage == b + rest && b == [storage[0]];
      BitsAppend(b, rest, false);
      BitsOfByte(storage[0], false);
      LsbOfValue(storage[0], 8);
      LsbAppend(Bits(b, false), Bits(rest, false));
      Pow2Values();
      StorageIsLE(rest);
    }
  }

  lemma Pow2Zero()
    ensures Pow2(0) == 1
  {}

  lemma {:induction false} StorageIsBE(storage: seq<u8>)
    ensures MsbValue(Bits(storage, true)) == FromBE(storage)
  {
    hide Bits, MsbValue, FieldBits, Pow2;
    if storage == [] {
      MsbOfValue(0, 0);
      assert FieldBits(0, 0, true) == [] == Bits(storage, true);
      Pow2Zero();
    } else {
      var n := |storage| - 1;
      var rest, b := storage[..n], storage[n..];
      assert storage == rest + b && b == [storage[n]];
      BitsAppend(rest, b, true);
      BitsOfByte(storage[n], true);
      MsbOfValue(storage[n], 8);
      MsbAppend(Bits(rest, true), Bits(b, true));
      Pow2Values();
      StorageIsBE(rest);
    }
  }

  /** The storage read as one big integer in the target's byte order. */
  function StorageValue(storage: seq<u8>, big: bool): nat {
    if big then FromBE(storage) else FromLE(storage)
  }

  /** How far the field lies above the least significant end of that integer. */
  function FieldShift(size: nat, offset: nat, width: nat, big: bool): nat
    requires offset + width <= size
  {
    if big then size - offset - width else offset
  }

  /** Every field is the arithmetic slice of the storage read as one big integer. */
  lemma FieldIsSlice(storage: seq<u8>, offset: nat, width: nat, big: bool)
    requires offset + width <= 8 * |storage|
    ensures FieldValue(Bits(storage, big)[offset..offset + width], big)
         == StorageValue(storage, big) / Pow2(FieldShift(8 * |storage|, offset, width, big)) % Pow2(width)
  {
    hide Bits, LsbValue, MsbValue, Pow2;
    if big {
      StorageIsBE(storage);
      MsbSlice(Bits(storage, true), offset, width);
    } else {
      StorageIsLE(storage);
      LsbSlice(Bits(storage, false), offset, width);
    }
  }

  lemma {:induction false} BitsInjective(s: seq<u8>, t: seq<u8>, big: bool)
    requires Bits(s, big) == Bits(t, big)
    ensures s == t
  {
    hide Bits;
    assert |s| == |t|;
    forall k | 0 <= k < |s| ensures s[k] == t[k] {
      BytesEqual(s, t, big, k);
    }
  }

  lemma BytesEqual(s: seq<u8>, t: seq<u8>, big: bool, k: nat)
    requires Bits(s, big) == Bits(t, big) && k < |s| == |t|
    ensures s[k] == t[k]
  {
    hide ExtractBit, Bit;
    Pow2Values();
    forall i: nat | i < 8 ensures Bit(s[k], i) == Bit(t[k], i) {
      var j := 8 * k + (if big then 7 - i else i);
      assert j / 8 == k && BitIndex(j, big) == i;
      assert Bits(s, big)[j] == Bits(t, big)[j];
      ExtractIsBit(s[k], j, big);
      ExtractIsBit(t[k], j, big);
    }
    BitsDetermine(s[k], t[k], 8);
  }

  // ---------------------------------------------------------------------
  // What a set does to the storage
  // ---------------------------------------------------------------------

  /** `after` is `before` with the field overwritten by the low bits of `val`. */
  ghost predicate IsSet(before: seq<u8>, after: seq<u8>, offset: nat, width: nat, val: nat, big: bool)
    requires offset + width <= 8 * |before|
  {
    |after| == |before| && Bits(after, big) == Splice(Bits(before, big), offset, FieldBits(val, width, big))
  }

  /** Set then get on the same range returns the value reduced to the width. */
  lemma SetThenGet(before: seq<u8>, after: seq<u8>, offset: nat, width: nat, val: nat, big: bool)
    requires offset + width <= 8 * |before|
    requires IsSet(before, after, offset, width, val, big)
    ensures FieldValue(Bits(after, big)[offset..offset + width], big) == val % Pow2(width)
  {
    hide Bits, FieldBits, FieldValue, Pow2;
    assert Bits(after, big)[offset..offset + width] == FieldBits(val, width, big);
    FieldOfValue(val, width, big);
  }

  /** Every field on a disjoint range reads the same before and after. */
  lemma SetFrame(before: seq<u8>, after: seq<u8>, offset: nat, width: nat, val: nat, big: bool, off2: nat, width2: nat)
    requires offset + width <= 8 * |before| && off2 + width2 <= 8 * |before|
    requires IsSet(before, after, offset, width, val, big)
    requires off2 + width2 <= offset || offset + width <= off2
    ensures Bits(after, big)[off2..off2 + width2] == Bits(before, big)[off2..off2 + width2]
  {
    hide Bits, FieldBits;
    SpliceFrame(Bits(before, big), offset, FieldBits(val, width, big), off2, width2);
  }

  lemma SpliceFrame(bits: seq<bool>, offset: nat, field: seq<bool>, off2: nat, width2: nat)
    requires offset + |field| <= |bits| && off2 + width2 <= |bits|
    requires off2 + width2 <= offset || offset + |field| <= off2
    ensures Splice(bits, offset, field)[off2..off2 + width2] == bits[off2..off2 + width2]
  {
    var r := Splice(bits, offset, field);
    forall k | off2 <= k < off2 + width2 ensures r[k] == bits[k] {
      if k >= offset + |field| { assert r[k] == bits[offset + |field|..][k - offset - |field|]; }
    }
  }

  /** Setting a field to the value just read from it restores the storage. */
  lemma SetOfGetRestores(before: seq<u8>, after: seq<u8>, offset: nat, width: nat, big: bool)
    requires offset + width <= 8 * |before|
    requires IsSet(before, after, offset, width, FieldValue(Bits(before, big)[offset..offset + width], big), big)
    ensures after == before
  {
    hide Bits, FieldBits, FieldValue;
    var bits := Bits(before, big);
    ValueOfField(bits[offset..offset + width], big);
    assert Splice(bits, offset, bits[offset..offset + width]) == bits;
    BitsInjective(after, before, big);
  }

  /** Sets on disjoint ranges commute. */
  lemma SetsCommute(s: seq<u8>, s1: seq<u8>, s12: seq<u8>, s2: seq<u8>, s21: seq<u8>,
                    o1: nat, w1: nat, v1: nat, o2: nat, w2: nat, v2: nat, big: bool)
    requires o1 + w1 <= 8 * |s| && o2 + w2 <= 8 * |s|
    requires o1 + w1 <= o2 || o2 + w2 <= o1
    requires IsSet(s, s1, o1, w1, v1, big) && IsSet(s1, s12, o2, w2, v2, big)
    requires IsSet(s, s2, o2, w2, v2, big) && IsSet(s2, s21, o1, w1, v1, big)
    ensures s12 == s21
  {
    hide Bits, FieldBits;
    var bits, f1, f2 := Bits(s, big), FieldBits(v1, w1, big), FieldBits(v2, w2, big);
    if o1 + w1 <= o2 {
      SplicesCommute(bits, o1, f1, o2, f2);
    } else {
      SplicesCommute(bits, o2, f2, o1, f1);
    }
    BitsInjective(s12, s21, big);
  }

  lemma SplicesCommute(bits: seq<bool>, o1: nat, f1: seq<bool>, o2: nat, f2: seq<bool>)
    requires o1 + |f1| <= o2 && o2 + |f2| <= |bits|
    ensures Splice(Splice(bits, o1, f1), o2, f2) == Splice(Splice(bits, o2, f2), o1, f1)
  {
    var both := bits[..o1] + f1 + bits[o1 + |f1|..o2] + f2 + bits[o2 + |f2|..];
    assert Splice(Splice(bits, o1, f1), o2, f2) == both;
    assert Splice(Splice(bits, o2, f2), o1, f1) == both;
  }

  // ---------------------------------------------------------------------
  // The unit itself
  // ---------------------------------------------------------------------

  class BitfieldUnit {
    const big: bool
    const storage: array<u8>

    constructor Default(big: bool, size: nat)
      ensures this.big == big && storage.Length == size && fresh(storage)
      ensures forall i | 0 <= i < size :: storage[i] == 0
    {
      this.big := big;
      storage := new u8[size](_ => 0);
    }

    ghost function Contents(): (bits: seq<bool>)
      reads storage
    {
      Bits(storage[..], big)
    }

    method GetBit(index: nat) returns (b: bool)
      requires index < 8 * storage.Length
      ensures b == Contents()[index]
    {
      var byteIndex := index / 8;
      b := ExtractBit(storage[byteIndex], index, big);
    }

    method SetBit(index: nat, val: bool)
      requires index < 8 * storage.Length
      modifies storage
      ensures Contents() == old(Contents())[index := val]
    {
      var byteIndex := index / 8;
      storage[byteIndex] := ChangeBit(storage[byteIndex], index, val, big);
      SetBitEffect(old(storage[..]), index, val, big);
      assert storage[..] == old(storage[..])[byteIndex := ChangeBit(old(storage[..])[byteIndex], index, val, big)];
    }

    /** The loop reads exactly the field, most or least significant bit first by endianness. */
    method Get(offset: nat, width: nat) returns (val: u64)
      requires width <= 64 && offset + width <= 8 * storage.Length
      ensures val == FieldValue(Contents()[offset..offset + width], big)
      ensures val == StorageValue(storage[..], big) / Pow2(FieldShift(8 * storage.Length, offset, width, big)) % Pow2(width)
    {
      hide Bits, Pow2, LsbValue, MsbValue, Or;
      val := 0;
      var i := 0;
      Pow2Values();
      EmptyField(Contents()[offset..offset], width);
      while i < width
        invariant i <= width
        invariant val == Partial(Contents()[offset..offset + i], width, big)
      {
        var bit := GetBit(i + offset);
        assert Contents()[offset..offset + i + 1] == Contents()[offset..offset + i] + [bit];
        PartialStep(Contents()[offset..offset + i], bit, width, big);
        if bit {
          var index := if big then width - 1 - i else i;
          val := Or(val, Pow2(index));
        }
        i := i + 1;
      }
      FullField(Contents()[offset..offset + width], big);
      FieldIsSlice(storage[..], offset, width, big);
    }

    /** The loop overwrites exactly the field with the low bits of the value. */
    method Set(offset: nat, width: nat, val: u64)
      requires width <= 64 && offset + width <= 8 * storage.Length
      modifies storage
      ensures IsSet(old(storage[..]), storage[..], offset, width, val, big)
    {
      hide Bits, Pow2, And, Bit;
      ghost var before := Contents();
      var i := 0;
      while i < width
        invariant i <= width
        invariant |Contents()| == |before|
        invariant forall k | 0 <= k < |before| && !Written(k, offset, width, i, big) :: Contents()[k] == before[k]
        invariant forall k | 0 <= k < |before| && Written(k, offset, width, i, big) :: Contents()[k] == Bit(val, Source(k, offset, width, big))
      {
        var mask := Pow2(i);
        var valBitIsSet := And(val, mask) == mask;
        MaskTest(val, i);
        var index := if big then width - 1 - i else i;
        assert Source(index + offset, offset, width, big) == i;
        SetBit(index + offset, valBitIsSet);
        i := i + 1;
      }
      AllWritten(before, Contents(), offset, width, val, big);
    }
  }

  /** Bit `k` is among the first `i` that the set loop writes. */
  predicate Written(k: int, offset: nat, width: nat, i: nat, big: bool) {
    if big then offset + width - i <= k < offset + width else offset <= k < offset + i
  }

  /** The bit of the value that the set loop writes to bit `k`. */
  function Source(k: int, offset: nat, width: nat, big: bool): int {
    if big then offset + width - 1 - k else k - offset
  }

  lemma AllWritten(before: seq<bool>, after: seq<bool>, offset: nat, width: nat, val: nat, big: bool)
    requires |after| == |before| && offset + width <= |before|
    requires forall k | 0 <= k < |before| && !Written(k, offset, width, width, big) :: after[k] == before[k]
    requires forall k | 0 <= k < |before| && Written(k, offset, width, width, big) :: after[k] == Bit(val, Source(k, offset, width, big))
    ensures after == Splice(before, offset, FieldBits(val, width, big))
  {
    hide Bit;
    var r := Splice(before, offset, FieldBits(val, width, big));
    forall k | 0 <= k < |before| ensures after[k] == r[k] {
      if k >= offset + width { assert r[k] == before[offset + width..][k - offset - width]; }
    }
  }

  lemma SetBitEffect(s: seq<u8>, index: nat, val: bool, big: bool)
    requires index < 8 * |s|
    ensures Bits(s[index / 8 := ChangeBit(s[index / 8], index, val, big)], big) == Bits(s, big)[index := val]
  {
    hide ExtractBit, ChangeBit, Bit;
    var t := s[index / 8 := ChangeBit(s[index / 8], index, val, big)];
    forall j: nat | j < 8 * |s| ensures Bits(t, big)[j] == Bits(s, big)[index := val][j] {
      if j / 8 == index / 8 {
        ExtractIsBit(t[j / 8], j, big);
        ExtractIsBit(s[j / 8], j, big);
        ChangeBitEffect(s[index / 8], index, val, big, BitIndex(j, big));
        SameBit(j, index, big);
      }
    }
  }

  lemma SameBit(j: nat, index: nat, big: bool)
    requires j / 8 == index / 8
    ensures BitIndex(j, big) == BitIndex(index, big) <==> j == index
  {}

  /** The accumulator of the get loop after reading `bits` of a field of `width` bits. */
  function Partial(bits: seq<bool>, width: nat, big: bool): nat
    requires |bits| <= width
  {
    if big then MsbValue(bits) * Pow2(width - |bits|) else LsbValue(bits)
  }

  lemma EmptyField(bits: seq<bool>, width: nat)
    requires bits == []
    ensures Partial(bits, width, true) == 0 && Partial(bits, width, false) == 0
  {}

  lemma FullField(bits: seq<bool>, big: bool)
    ensures Partial(bits, |bits|, big) == FieldValue(bits, big)
  {}

  /** One turn of the get loop: oring in the next bit appends it to the field read so far. */
  lemma PartialStep(bits: seq<bool>, bit: bool, width: nat, big: bool)
    requires |bits| < width <= 64
    ensures var index := if big then width - 1 - |bits| else |bits|;
            var val := Partial(bits, width, big);
            && Partial(bits + [bit], width, big) == (if bit then Or(val, Pow2(index)) else val) < U64_MOD
  {
    hide Or, Pow2, LsbValue, MsbValue;
    var n := |bits|;
    OneBit(bit);
    if big {
      var k := width - 1 - n;
      MsbAppend(bits, [bit]);
      MsbAppend([], bits + [bit]);
      Pow2Step(k);
      var m := MsbValue(bits);
      assert MsbValue(bits + [bit]) * Pow2(k) == m * Pow2(k + 1) + ToNat(bit) * Pow2(k) by {
        assert (m * 2 + ToNat(bit)) * Pow2(k) == m * (2 * Pow2(k)) + ToNat(bit) * Pow2(k);
      }
      Pow2Mono(k, k + 1);
      OrIsSum(Pow2(k), m, k + 1);
      OrComm(Pow2(k), m * Pow2(k + 1));
      Scaled(MsbValue(bits + [bit]), n + 1, k);
    } else {
      LsbAppend(bits, [bit]);
      LsbAppend(bits + [bit], []);
      OrIsSum(LsbValue(bits), 1, n);
      Pow2Within(n + 1);
    }
  }

  lemma OneBit(bit: bool)
    ensures LsbValue([bit]) == ToNat(bit) && MsbValue([bit]) == ToNat(bit) && Pow2(1) == 2
  {
    assert [bit][1..] == [] && [bit][..0] == [];
  }

  lemma Pow2Within(n: nat)
    requires n <= 64
    ensures Pow2(n) <= U64_MOD
  {
    Pow2Values();
    if n < 64 { Pow2Mono(n, 64); }
  }

  lemma Scaled(m: nat, n: nat, k: nat)
    requires m < Pow2(n) && n + k <= 64
    ensures m * Pow2(k) < U64_MOD
  {
    hide Pow2;
    MulMono(m, Pow2(n) - 1, Pow2(k));
    Pow2Add(n, k);
    Pow2Within(n + k);
    assert (Pow2(n) - 1) * Pow2(k) == Pow2(n) * Pow2(k) - Pow2(k);
  }
}
