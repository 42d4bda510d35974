/** Fixed-width unsigned integers as bounded ints, their wrapping and bitwise operations, and byte codecs. */
module Words {

  const U16_MOD := 0x1_0000
  const U32_MOD := 0x1_0000_0000
  const U64_MOD := 0x1_0000_0000_0000_0000

  type u8 = x: int | 0 <= x < 256
  type u16 = x: int | 0 <= x < U16_MOD
  type u32 = x: int | 0 <= x < U32_MOD
  type u64 = x: int | 0 <= x < U64_MOD

  datatype Option<+T> = None | Some(value: T)

  function SaturatingSub(a: u64, b: u64): u64 {
    if a < b then 0 else a - b
  }

  function SaturatingAdd(a: u64, b: u64): u64 {
    if a + b < U64_MOD then a + b else U64_MOD - 1
  }

  /** `fetch_add(1)` on an `AtomicU64`: wraps. */
  function WrappingInc(x: u64): u64 {
    (x + 1) % U64_MOD
  }

  // ---------------------------------------------------------------------
  // Powers, shifts and exclusive or
  // ---------------------------------------------------------------------

  function Pow2(n: nat): (p: nat)
    ensures p > 0
  {
    if n == 0 then 1 else 2 * Pow2(n - 1)
  }

  lemma {:induction false} Pow2Add(m: nat, n: nat)
    ensures Pow2(m + n) == Pow2(m) * Pow2(n)
  {
    if m > 0 { Pow2Add(m - 1, n); }
  }

  lemma Pow2Step(k: nat)
    ensures Pow2(k + 1) == 2 * Pow2(k) && Pow2(0) == 1
  {}

  lemma Pow2Values()
    ensures Pow2(8) == 256 && Pow2(16) == U16_MOD && Pow2(32) == U32_MOD && Pow2(64) == U64_MOD
  {
    assert Pow2(4) == 16;
    assert Pow2(8) == 256;
    Pow2Add(8, 8); Pow2Add(16, 16); Pow2Add(32, 32);
  }

  /** Bit by bit, least significant first. */
  function Xor(a: nat, b: nat): nat
    decreases a + b
  {
    if a == 0 && b == 0 then 0 else (a % 2 + b % 2) % 2 + 2 * Xor(a / 2, b / 2)
  }

  function Or(a: nat, b: nat): nat
    decreases a + b
  {
    if a == 0 && b == 0 then 0 else (if a % 2 + b % 2 == 0 then 0 else 1) + 2 * Or(a / 2, b / 2)
  }

  function And(a: nat, b: nat): nat
    decreases a + b
  {
    if a == 0 && b == 0 then 0 else (if a % 2 + b % 2 == 2 then 1 else 0) + 2 * And(a / 2, b / 2)
  }

  function Shr(x: nat, n: nat): nat
    decreases n
  {
    if n == 0 then x else Shr(x / 2, n - 1)
  }

  lemma {:induction false} ShrIsDivision(x: nat, n: nat)
    ensures Shr(x, n) == x / Pow2(n)
    decreases n
  {
    if n > 0 {
      ShrIsDivision(x / 2, n - 1);
      DivDiv(x, Pow2(n - 1));
    }
  }

  lemma DivDiv(x: nat, p: nat)
    requires p > 0
    ensures x / 2 / p == x / (2 * p)
  {
    var q, r := x / 2 / p, (x / 2) % p;
    assert x / 2 == q * p + r;
    var s := x - 2 * (x / 2);
    assert x == 2 * (q * p + r) + s == q * (2 * p) + (2 * r + s);
    QuotientUnique(x, 2 * p, q, 2 * r + s);
  }

  lemma QuotientUnique(x: int, d: int, q: int, r: int)
    requires 0 <= r < d && x == q * d + r
    ensures x / d == q && x % d == r
  {
    var q', r' := x / d, x % d;
    assert x == q' * d + r';
    assert (q - q') * d == q * d - q' * d == r' - r;
    if q != q' { LargeMultiple(q - q', d); }
  }

  lemma LargeMultiple(a: int, d: int)
    requires d > 0 && a != 0
    ensures a * d >= d || a * d <= -d
  {
    if a > 0 {
      MulMono(1, a, d);
    } else {
      MulMono(a, -1, d);
    }
  }

  lemma MulMono(a: int, b: int, c: nat)
    requires a <= b
    ensures a * c <= b * c
  {
    assert b * c - a * c == (b - a) * c;
  }

  lemma {:induction false} XorBound(a: nat, b: nat, n: nat)
    requires a < Pow2(n) && b < Pow2(n)
    ensures Xor(a, b) < Pow2(n)
    decreases n
  {
    if n > 0 && (a != 0 || b != 0) { XorBound(a / 2, b / 2, n - 1); }
  }

  lemma {:induction false} XorCancel(a: nat, b: nat)
    ensures Xor(Xor(a, b), b) == a
    decreases a + b
  {
    hide Xor;
    XorZero();
    if a != 0 || b != 0 {
      XorCancel(a / 2, b / 2);
      XorHalves(a, b);
      XorHalves(Xor(a, b), b);
      BitSums(a % 2, b % 2, 0);
    }
  }

  lemma {:induction false} XorAssoc(a: nat, b: nat, c: nat)
    ensures Xor(Xor(a, b), c) == Xor(a, Xor(b, c))
    decreases a + b + c
  {
    hide Xor;
    XorZero();
    if a != 0 || b != 0 || c != 0 {
      BitSums(a % 2, b % 2, c % 2);
      XorAssoc(a / 2, b / 2, c / 2);
      XorHalves(a, b); XorHalves(b, c);
      XorHalves(Xor(a, b), c); XorHalves(a, Xor(b, c));
    }
  }

  lemma {:induction false} XorComm(a: nat, b: nat)
    ensures Xor(a, b) == Xor(b, a)
    decreases a + b
  {
    if a != 0 || b != 0 { XorComm(a / 2, b / 2); }
  }

  lemma XorZero()
    ensures Xor(0, 0) == 0
  {}

  lemma XorUnfold(a: nat, b: nat)
    requires a != 0 || b != 0
    ensures Xor(a, b) == (a % 2 + b % 2) % 2 + 2 * Xor(a / 2, b / 2)
  {}

  lemma BitSums(p: nat, q: nat, r: nat)
    requires p < 2 && q < 2 && r < 2
    ensures ((p + q) % 2 + q) % 2 == p
    ensures ((p + q) % 2 + r) % 2 == (p + (q + r) % 2) % 2
  {}

  lemma XorHalves(a: nat, b: nat)
    ensures Xor(a, b) % 2 == (a % 2 + b % 2) % 2 && Xor(a, b) / 2 == Xor(a / 2, b / 2)
    ensures Xor(a, b) == (a % 2 + b % 2) % 2 + 2 * Xor(a / 2, b / 2)
  {
    hide Xor;
    XorZero();
    if a != 0 || b != 0 { XorUnfold(a, b); }
    QuotientUnique(Xor(a, b), 2, Xor(a / 2, b / 2), (a % 2 + b % 2) % 2);
  }

  lemma {:induction false} ShrXor(a: nat, b: nat, n: nat)
    ensures Shr(Xor(a, b), n) == Xor(Shr(a, n), Shr(b, n))
    decreases n
  {
    if n > 0 {
      XorHalves(a, b);
      ShrXor(a / 2, b / 2, n - 1);
    }
  }

  lemma {:induction false} ShrShr(x: nat, m: nat, n: nat)
    ensures Shr(Shr(x, m), n) == Shr(x, m + n)
    decreases m
  {
    if m > 0 { ShrShr(x / 2, m - 1, n); }
  }

  lemma {:induction false} ShrOut(x: nat, n: nat)
    requires x < Pow2(n)
    ensures Shr(x, n) == 0
    decreases n
  {
    if n > 0 { ShrOut(x / 2, n - 1); }
  }

  lemma {:induction false} ShrBound(x: nat, n: nat)
    ensures Shr(x, n) <= x
    decreases n
  {
    if n > 0 { ShrBound(x / 2, n - 1); }
  }

  /** Disjoint bit ranges: or is addition. */
  lemma {:induction false} OrIsSum(a: nat, b: nat, n: nat)
    requires a < Pow2(n)
    ensures Or(a, b * Pow2(n)) == a + b * Pow2(n)
    decreases n
  {
    hide Or;
    if n == 0 {
      OrZero(b);
    } else {
      var c := b * Pow2(n - 1);
      assert b * Pow2(n) == 2 * c;
      OrIsSum(a / 2, b, n - 1);
      OrEven(a, c);
    }
  }

  lemma OrUnfold(a: nat, b: nat)
    requires a != 0 || b != 0
    ensures Or(a, b) == (if a % 2 + b % 2 == 0 then 0 else 1) + 2 * Or(a / 2, b / 2)
  {}

  lemma OrEven(a: nat, c: nat)
    ensures Or(a, 2 * c) == a % 2 + 2 * Or(a / 2, c)
  {
    assert Or(0, 0) == 0;
    hide Or;
    if a != 0 || c != 0 { OrUnfold(a, 2 * c); }
  }

  lemma {:induction false} OrZero(b: nat)
    ensures Or(0, b) == b
  {
    if b != 0 { OrZero(b / 2); }
  }

  lemma {:induction false} OrComm(a: nat, b: nat)
    ensures Or(a, b) == Or(b, a)
    decreases a + b
  {
    if a != 0 || b != 0 { OrComm(a / 2, b / 2); }
  }

  // ---------------------------------------------------------------------
  // Single bits
  // ---------------------------------------------------------------------

  predicate Bit(x: nat, i: nat) {
    Shr(x, i) % 2 == 1
  }

  lemma BitHalf(x: nat, i: nat)
    requires i > 0
    ensures Bit(x, i) == Bit(x / 2, i - 1)
  {}

  lemma AndUnfold(a: nat, b: nat)
    requires a != 0 || b != 0
    ensures And(a, b) == (if a % 2 + b % 2 == 2 then 1 else 0) + 2 * And(a / 2, b / 2)
  {}

  lemma Halves(bit: nat, rest: nat)
    requires bit < 2
    ensures (bit + 2 * rest) % 2 == bit && (bit + 2 * rest) / 2 == rest
  {}

  lemma {:induction false} BitOr(a: nat, b: nat, i: nat)
    ensures Bit(Or(a, b), i) <==> Bit(a, i) || Bit(b, i)
    decreases i
  {
    assert Or(0, 0) == 0;
    hide Or;
    if a != 0 || b != 0 {
      OrUnfold(a, b);
      Halves(if a % 2 + b % 2 == 0 then 0 else 1, Or(a / 2, b / 2));
      if i > 0 { BitOr(a / 2, b / 2, i - 1); }
    } else {
      ShrOut(0, i);
    }
  }

  lemma {:induction false} BitXor(a: nat, b: nat, i: nat)
    ensures Bit(Xor(a, b), i) <==> Bit(a, i) != Bit(b, i)
    decreases i
  {
    hide Xor;
    XorHalves(a, b);
    if i > 0 { BitXor(a / 2, b / 2, i - 1); }
  }

  lemma {:induction false} BitAnd(a: nat, b: nat, i: nat)
    ensures Bit(And(a, b), i) <==> Bit(a, i) && Bit(b, i)
    decreases i
  {
    assert And(0, 0) == 0;
    hide And;
    if a != 0 || b != 0 {
      AndUnfold(a, b);
      Halves(if a % 2 + b % 2 == 2 then 1 else 0, And(a / 2, b / 2));
      if i > 0 { BitAnd(a / 2, b / 2, i - 1); }
    } else {
      ShrOut(0, i);
    }
  }

  lemma {:induction false} BitPow2(k: nat, i: nat)
    ensures Bit(Pow2(k), i) <==> i == k
    decreases i
  {
    if i > 0 {
      if k == 0 { ShrOut(0, i - 1); } else { BitPow2(k - 1, i - 1); }
    }
  }

  /** Complement within `n` bits. */
  lemma {:induction false} BitNot(x: nat, n: nat, i: nat)
    requires x < Pow2(n) && i < n
    ensures Bit(Pow2(n) - 1 - x, i) <==> !Bit(x, i)
    decreases i
  {
    var y := Pow2(n) - 1 - x;
    assert y / 2 == Pow2(n - 1) - 1 - x / 2 && y % 2 == 1 - x % 2;
    if i > 0 { BitNot(x / 2, n - 1, i - 1); }
  }

  /** Numbers below 2^n are determined by their bits. */
  lemma {:induction false} BitsDetermine(a: nat, b: nat, n: nat)
    requires a < Pow2(n) && b < Pow2(n)
    requires forall i: nat | i < n :: Bit(a, i) == Bit(b, i)
    ensures a == b
    decreases n
  {
    if n > 0 {
      assert Bit(a, 0) == Bit(b, 0);
      forall i: nat | i < n - 1 ensures Bit(a / 2, i) == Bit(b / 2, i) {
        assert Bit(a, i + 1) == Bit(b, i + 1);
      }
      BitsDetermine(a / 2, b / 2, n - 1);
    }
  }

  /** `x & mask == mask` for a one-bit mask tests that bit. */
  lemma MaskTest(x: nat, k: nat)
    ensures And(x, Pow2(k)) == Pow2(k) <==> Bit(x, k)
  {
    hide And;
    BitAnd(x, Pow2(k), k);
    BitPow2(k, k);
    if Bit(x, k) { AndMask(x, k); }
  }

  lemma {:induction false} AndMask(x: nat, k: nat)
    requires Bit(x, k)
    ensures And(x, Pow2(k)) == Pow2(k)
    decreases k
  {
    AndUnfold(x, Pow2(k));
    hide And;
    if k == 0 {
      AndZero(x / 2);
    } else {
      AndMask(x / 2, k - 1);
    }
  }

  lemma {:induction false} AndZero(x: nat)
    ensures And(x, 0) == 0
  {
    if x != 0 { AndZero(x / 2); }
  }

  /** Masking with n low one-bits is reduction modulo 2^n. */
  lemma {:induction false} AndLowBits(x: nat, n: nat)
    ensures And(x, Pow2(n) - 1) == x % Pow2(n)
    decreases n
  {
    hide And, Pow2;
    if n == 0 {
      Pow2Step(0);
      AndZero(x);
    } else {
      Pow2Step(n - 1);
      AndLowBits(x / 2, n - 1);
      var p := Pow2(n - 1);
      AndLowStep(x, p);
      assert Pow2(n) == 2 * p;
    }
  }

  lemma AndLowStep(x: nat, p: nat)
    requires p > 0 && And(x / 2, p - 1) == x / 2 % p
    ensures And(x, 2 * p - 1) == x % (2 * p)
  {
    hide And;
    Halves(1, p - 1);
    AndUnfold(x, 1 + 2 * (p - 1));
    ModHalf(x, p);
  }

  lemma ModHalf(x: nat, p: nat)
    requires p > 0
    ensures x % (2 * p) == x % 2 + 2 * (x / 2 % p)
  {
    var q, r := x / 2 / p, x / 2 % p;
    assert x / 2 == q * p + r;
    assert x == 2 * (q * p + r) + x % 2 == q * (2 * p) + (x % 2 + 2 * r);
    QuotientUnique(x, 2 * p, q, x % 2 + 2 * r);
  }

  lemma {:induction false} AndBound(a: nat, b: nat, n: nat)
    requires a < Pow2(n) && b < Pow2(n)
    ensures And(a, b) < Pow2(n)
    decreases n
  {
    if n > 0 && (a != 0 || b != 0) { AndBound(a / 2, b / 2, n - 1); }
  }

  lemma {:induction false} OrBound(a: nat, b: nat, n: nat)
    requires a < Pow2(n) && b < Pow2(n)
    ensures Or(a, b) < Pow2(n)
    decreases n
  {
    if n > 0 && (a != 0 || b != 0) { OrBound(a / 2, b / 2, n - 1); }
  }

  lemma {:induction false} Pow2Mono(m: nat, n: nat)
    requires m < n
    ensures Pow2(m) < Pow2(n)
    decreases n
  {
    if m < n - 1 { Pow2Mono(m, n - 1); }
  }

  // ---------------------------------------------------------------------
  // 32-bit operations
  // ---------------------------------------------------------------------

  function Xor32(a: u32, b: u32): u32 {
    Pow2Values(); XorBound(a, b, 32);
    Xor(a, b)
  }

  function Shr32(x: u32, n: nat): u32 {
    ShrBound(x, n);
    Shr(x, n)
  }

  function WrappingMul(x: u32, c: u32): u32 {
    (x * c) % U32_MOD
  }

  function WrappingAdd(x: u32, c: u32): u32 {
    (x + c) % U32_MOD
  }

  function WrappingSub(x: u32, c: u32): u32 {
    (x - c) % U32_MOD
  }

  function RotateLeft(x: u32, r: nat): (y: u32)
    requires r <= 32
  {
    RotateFits(x, r);
    (x * Pow2(r)) % U32_MOD + x / Pow2(32 - r)
  }

  lemma RotateFits(x: u32, r: nat)
    requires r <= 32
    ensures 0 <= (x * Pow2(r)) % U32_MOD + x / Pow2(32 - r) < U32_MOD
  {
    hide Pow2;
    RotateParts(r);
    RotateSplit(x, Pow2(r), Pow2(32 - r));
  }

  lemma RotateParts(r: nat)
    requires r <= 32
    ensures Pow2(r) * Pow2(32 - r) == U32_MOD
  {
    hide Pow2;
    Pow2Values();
    Pow2Add(r, 32 - r);
  }

  /** `x` cut into its top and bottom parts, which a rotation swaps. */
  lemma RotateSplit(x: u32, low: nat, high: nat)
    requires low > 0 && high > 0 && low * high == U32_MOD
    ensures (x * low) % U32_MOD + x / high == (x % high) * low + x / high < U32_MOD
    ensures x / high < low
  {
    var h, l := x / high, x % high;
    assert x == h * high + l;
    assert h < low by {
      if h >= low { MulMono(low, h, high); }
    }
    assert x * low == (h * high + l) * low == h * (low * high) + l * low;
    MulMono(l, high - 1, low);
    assert (high - 1) * low == U32_MOD - low;
    QuotientUnique(x * low, U32_MOD, h, l * low);
  }

  lemma RotateBack(x: u32, r: nat)
    requires r <= 32
    ensures RotateLeft(RotateLeft(x, r), 32 - r) == x
  {
    hide Pow2;
    var low, high := Pow2(r), Pow2(32 - r);
    RotateParts(r);
    RotateSplit(x, low, high);
    var y := RotateLeft(x, r);
    assert y == (x % high) * low + x / high;
    QuotientUnique(y, low, x % high, x / high);
    assert high * low == low * high;
    RotateSplit(y, high, low);
  }

  /** Wrapping multiplication by `c` is undone by an inverse of `c` modulo 2^32. */
  lemma MulCancel(x: u32, c: u32, d: u32, k: nat)
    requires c * d == 1 + k * U32_MOD
    ensures WrappingMul(WrappingMul(x, c), d) == x
  {
    var q, r := (x * c) / U32_MOD, (x * c) % U32_MOD;
    assert x * c == q * U32_MOD + r;
    calc {
      r * d;
      (x * c - q * U32_MOD) * d;
      x * (c * d) - (q * U32_MOD) * d;
      { assert x * (c * d) == x * (1 + k * U32_MOD) == x + (x * k) * U32_MOD; }
      { assert (q * U32_MOD) * d == (q * d) * U32_MOD; }
      (x * k - q * d) * U32_MOD + x;
    }
    QuotientUnique(r * d, U32_MOD, x * k - q * d, x);
  }

  lemma AddCancel(x: u32, c: u32)
    ensures WrappingSub(WrappingAdd(x, c), c) == x
    ensures WrappingAdd(WrappingSub(x, c), c) == x
  {
    WrapOnce(x + c);
    WrapOnce(x - c);
    WrapOnce(WrappingAdd(x, c) - c);
    WrapOnce(WrappingSub(x, c) + c);
  }

  lemma WrapOnce(x: int)
    requires -U32_MOD <= x < 2 * U32_MOD
    ensures x % U32_MOD == if x < 0 then x + U32_MOD else if x < U32_MOD then x else x - U32_MOD
  {}

  lemma ModMod(x: nat)
    ensures x % U32_MOD % U16_MOD == x % U16_MOD
  {
    var q, r := x / U32_MOD, x % U32_MOD;
    QuotientUnique(x, U16_MOD, q * U16_MOD + r / U16_MOD, r % U16_MOD);
  }

  lemma Xor32Cancel(a: u32, b: u32)
    ensures Xor32(Xor32(a, b), b) == a
    ensures Xor32(Xor32(b, a), b) == a
    ensures Xor32(b, Xor32(a, b)) == a
  {
    XorCancel(a, b);
    XorComm(a, b);
    XorComm(b, Xor(a, b));
  }

  // ---------------------------------------------------------------------
  // Byte codecs
  // ---------------------------------------------------------------------

  function ToLE(x: nat, n: nat): (b: seq<u8>)
    ensures |b| == n
  {
    if n == 0 then [] else [x % 256] + ToLE(x / 256, n - 1)
  }

  function FromLE(b: seq<u8>): nat {
    if b == [] then 0 else b[0] + 256 * FromLE(b[1..])
  }

  /** Network byte order. */
  function FromBE(b: seq<u8>): nat {
    if b == [] then 0 else 256 * FromBE(b[..|b| - 1]) + b[|b| - 1]
  }

  lemma {:induction false} FromToLE(x: nat, n: nat)
    requires x < Pow2(8 * n)
    ensures FromLE(ToLE(x, n)) == x
    decreases n
  {
    if n > 0 {
      Pow2Values(); Pow2Add(8, 8 * (n - 1));
      FromToLE(x / 256, n - 1);
      assert ToLE(x, n)[1..] == ToLE(x / 256, n - 1);
    }
  }

  lemma {:induction false} FromLEBound(b: seq<u8>)
    ensures FromLE(b) < Pow2(8 * |b|)
  {
    if b != [] {
      FromLEBound(b[1..]);
      Pow2Values(); Pow2Add(8, 8 * (|b| - 1));
    }
  }

  lemma {:induction false} ToFromLE(b: seq<u8>)
    ensures ToLE(FromLE(b), |b|) == b
  {
    if b != [] {
      ToFromLE(b[1..]);
      QuotientUnique(FromLE(b), 256, FromLE(b[1..]), b[0]);
      assert b == [b[0]] + b[1..];
    }
  }

  lemma {:induction false} FromBEBound(b: seq<u8>)
    ensures FromBE(b) < Pow2(8 * |b|)
  {
    if b != [] {
      FromBEBound(b[..|b| - 1]);
      Pow2Values(); Pow2Add(8, 8 * (|b| - 1));
    }
  }

  function ReadU64(b: seq<u8>): u64
    requires |b| == 8
  {
    FromLEBound(b); Pow2Values();
    FromLE(b)
  }

  function ReadU32(b: seq<u8>): u32
    requires |b| == 4
  {
    FromLEBound(b); Pow2Values();
    FromLE(b)
  }

  function ReadBE32(b: seq<u8>): u32
    requires |b| == 4
  {
    FromBEBound(b); Pow2Values();
    FromBE(b)
  }

  function ReadBE16(b: seq<u8>): u16
    requires |b| == 2
  {
    FromBEBound(b); Pow2Values();
    FromBE(b)
  }
}
