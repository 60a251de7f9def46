/** The CRC32C accumulator of the CRC32 instruction. */
module Crc32c {
  import opened Bits

  /** The reflected Castagnoli polynomial the loop folds in, and the polynomial of section 12.1 of RFC 3720. */
  const FOLD: nat := 0x82F63B78
  const POLY: nat := 0x1_1EDC_6F41

  type u32 = x: int | 0 <= x < 0x1_0000_0000

  // The accumulator as the source computes it.

  /** One turn of the bit loop. */
  function Step(crc: nat): nat {
    Xor(crc / 2, if crc % 2 == 1 then FOLD else 0)
  }

  function Steps(crc: nat, n: nat): nat
    decreases n
  {
    if n == 0 then crc else Steps(Step(crc), n - 1)
  }

  function Accumulate(crc: nat, data: seq<byte>): nat
    decreases |data|
  {
    if data == [] then crc else Accumulate(Steps(Xor(crc, data[0]), 8), data[1..])
  }

  lemma {:induction false} StepsWidth(crc: nat, n: nat)
    requires crc < Pow2(32)
    ensures Steps(crc, n) < Pow2(32)
    decreases n
  {
    if n > 0 {
      WordIsPow2();
      XorWidth(crc / 2, if crc % 2 == 1 then FOLD else 0, 32);
      StepsWidth(Step(crc), n - 1);
    }
  }

  method AccumulateByte(initial: u32, data: byte) returns (crc: u32)
    ensures crc == Accumulate(initial, [data])
  {
    WordIsPow2();
    XorWidth(initial, data, 32);
    crc := Xor(initial, data);
    var bit := 0;
    while bit < 8
      invariant 0 <= bit <= 8
      invariant Steps(crc, 8 - bit) == Steps(Xor(initial, data), 8)
    {
      XorWidth(crc / 2, if crc % 2 == 1 then FOLD else 0, 32);
      crc := Xor(crc / 2, if crc % 2 == 1 then FOLD else 0);
      bit := bit + 1;
    }
  }

  lemma {:induction false} ShiftedByte(value: nat, k: nat, n: nat)
    requires k < n
    ensures Bytes(value, n)[k] == Shr(value, 8 * k) % 0x100
    decreases k
  {
    if k > 0 {
      ShiftedByte(value / 0x100, k - 1, n - 1);
      ShrByte(value, 8 * (k - 1));
    }
  }

  lemma {:induction false} ShrOnce(value: nat, k: nat)
    ensures Shr(value, k + 1) == Shr(value / 2, k)
  {
  }

  lemma {:induction false} ShrByte(value: nat, k: nat)
    ensures Shr(value, k + 8) == Shr(value / 0x100, k)
  {
    hide Shr;
    ShrOnce(value, k + 7);
    ShrOnce(value / 2, k + 6);
    ShrOnce(value / 4, k + 5);
    ShrOnce(value / 8, k + 4);
    ShrOnce(value / 16, k + 3);
    ShrOnce(value / 32, k + 2);
    ShrOnce(value / 64, k + 1);
    ShrOnce(value / 128, k);
  }

  method AccumulateValue(initial: u32, value: u64, operandSize: nat) returns (crc: u32)
    requires operandSize in {8, 16, 32, 64}
    ensures crc == Accumulate(initial, Bytes(value, operandSize / 8))
  {
    var byteCount := operandSize / 8;
    ghost var data := Bytes(value, byteCount);
    crc := initial;
    var index := 0;
    hide Xor, Steps, Shr, Bytes;
    while index < byteCount
      invariant 0 <= index <= byteCount
      invariant Accumulate(crc, data[index..]) == Accumulate(initial, data)
    {
      ShiftedByte(value, index, byteCount);
      assert data[index..] == [data[index]] + data[index + 1..];
      AccumulateSplit(crc, [data[index]], data[index + 1..]);
      crc := AccumulateByte(crc, Shr(value, 8 * index) % 0x100);
      index := index + 1;
    }
  }

  /** Consuming a message in pieces: every way to cut it into operands gives one result. */
  lemma {:induction false} AccumulateSplit(crc: nat, a: seq<byte>, b: seq<byte>)
    ensures Accumulate(crc, a + b) == Accumulate(Accumulate(crc, a), b)
    decreases |a|
  {
    if a == [] {
      assert a + b == b;
    } else {
      assert (a + b)[1..] == a[1..] + b;
      AccumulateSplit(Steps(Xor(crc, a[0]), 8), a[1..], b);
    }
  }

  // Linearity over GF(2).

  lemma {:induction false} XorSwap(a: nat, b: nat, c: nat, d: nat)
    ensures Xor(Xor(a, b), Xor(c, d)) == Xor(Xor(a, c), Xor(b, d))
  {
    forall i: nat ensures Bit(Xor(Xor(a, b), Xor(c, d)), i) == Bit(Xor(Xor(a, c), Xor(b, d)), i) {
      BitOfXor(Xor(a, b), Xor(c, d), i);
      BitOfXor(a, b, i);
      BitOfXor(c, d, i);
      BitOfXor(Xor(a, c), Xor(b, d), i);
      BitOfXor(a, c, i);
      BitOfXor(b, d, i);
    }
    EqualBits(Xor(Xor(a, b), Xor(c, d)), Xor(Xor(a, c), Xor(b, d)));
  }

  lemma {:induction false} XorSelf(a: nat)
    ensures Xor(a, a) == 0 && Xor(a, 0) == a && Xor(0, a) == a
    decreases a
  {
    if a > 0 { XorSelf(a / 2); }
  }

  lemma {:induction false} XorHalves(a: nat, b: nat)
    ensures Xor(a, b) / 2 == Xor(a / 2, b / 2)
    ensures (Xor(a, b) % 2 == 1) == ((a % 2 == 1) != (b % 2 == 1))
  {
  }

  lemma {:induction false} StepLinear(a: nat, b: nat)
    ensures Step(Xor(a, b)) == Xor(Step(a), Step(b))
  {
    XorHalves(a, b);
    var f, g := if a % 2 == 1 then FOLD else 0, if b % 2 == 1 then FOLD else 0;
    XorSelf(f);
    XorSelf(g);
    XorSwap(a / 2, b / 2, f, g);
  }

  lemma {:induction false} StepsLinear(a: nat, b: nat, n: nat)
    ensures Steps(Xor(a, b), n) == Xor(Steps(a, n), Steps(b, n))
    decreases n
  {
    if n > 0 {
      StepLinear(a, b);
      StepsLinear(Step(a), Step(b), n - 1);
    }
  }

  function XorBytes(a: seq<byte>, b: seq<byte>): (c: seq<nat>)
    requires |a| == |b|
    ensures |c| == |a|
  {
    seq(|a|, i requires 0 <= i < |a| => Xor(a[i], b[i]))
  }

  /** The checksum is linear over GF(2) in the pair (accumulator, data). */
  lemma {:induction false} AccumulateLinear(c: nat, d: nat, a: seq<byte>, b: seq<byte>, ab: seq<byte>)
    requires |a| == |b| && ab == XorBytes(a, b)
    ensures Accumulate(Xor(c, d), ab) == Xor(Accumulate(c, a), Accumulate(d, b))
    decreases |a|
  {
    if a != [] {
      XorSwap(c, d, a[0], b[0]);
      StepsLinear(Xor(c, a[0]), Xor(d, b[0]), 8);
      assert ab[1..] == XorBytes(a[1..], b[1..]);
      AccumulateLinear(Steps(Xor(c, a[0]), 8), Steps(Xor(d, b[0]), 8), a[1..], b[1..], ab[1..]);
    }
  }

  // The remainder of polynomial division. A natural number stands for the polynomial over GF(2)
  // whose coefficient of x^i is bit i.

  /** Carry-less product. */
  function ClMul(q: nat, p: nat): nat
    decreases q
  {
    if q == 0 then 0 else Xor(if q % 2 == 1 then p else 0, 2 * ClMul(q / 2, p))
  }

  /** The n low bits of x in reverse order. */
  function Reflect(x: nat, n: nat): nat
    decreases n
  {
    if n == 0 then 0 else 2 * Reflect(x, n - 1) + Shr(x, n - 1) % 2
  }

  /** The message polynomial: bytes in order, each byte's least significant bit first. */
  function Stream(prefix: nat, data: seq<byte>): nat
    decreases |data|
  {
    if data == [] then prefix else Stream(StreamBits(prefix, data[0], 8), data[1..])
  }

  function StreamBits(prefix: nat, d: nat, n: nat): nat
    decreases n
  {
    if n == 0 then prefix else StreamBits(2 * prefix + d % 2, d / 2, n - 1)
  }

  ghost predicate Remainder(dividend: nat, r: nat) {
    r < Pow2(32) && exists q: nat :: dividend == Xor(ClMul(q, POLY), r)
  }

  lemma {:induction false} XorBelow(x: nat, y: nat, n: nat)
    requires x >= Pow2(n) && y < Pow2(n)
    ensures Xor(x, y) >= Pow2(n)
    decreases n
  {
    if n == 0 {
      XorSelf(x);
    } else {
      XorBelow(x / 2, y / 2, n - 1);
    }
  }

  lemma {:induction false} ProductDegree(q: nat)
    requires q > 0
    ensures ClMul(q, POLY) >= Pow2(32)
    decreases q
  {
    WordIsPow2();
    if q == 1 {
      XorSelf(POLY);
    } else {
      ProductDegree(q / 2);
      XorBelow(2 * ClMul(q / 2, POLY), if q % 2 == 1 then POLY else 0, 33);
      XorCommutes(2 * ClMul(q / 2, POLY), if q % 2 == 1 then POLY else 0);
    }
  }

  lemma {:induction false} XorCommutes(a: nat, b: nat)
    ensures Xor(a, b) == Xor(b, a)
    decreases a + b
  {
    if a != 0 || b != 0 { XorCommutes(a / 2, b / 2); }
  }

  lemma {:induction false} ProductLinear(q: nat, r: nat, p: nat)
    ensures ClMul(Xor(q, r), p) == Xor(ClMul(q, p), ClMul(r, p))
    decreases q + r
  {
    if q == 0 {
      XorSelf(r);
      XorSelf(ClMul(r, p));
    } else if r == 0 {
      XorSelf(q);
      XorSelf(ClMul(q, p));
    } else {
      ProductLinear(q / 2, r / 2, p);
      XorHalves(q, r);
      var f, g := if q % 2 == 1 then p else 0, if r % 2 == 1 then p else 0;
      XorSwap(f, 2 * ClMul(q / 2, p), g, 2 * ClMul(r / 2, p));
      XorSelf(f);
      XorSelf(g);
      XorDouble(ClMul(q / 2, p), ClMul(r / 2, p));
      if Xor(q, r) == 0 { XorSelf(0); }
    }
  }

  lemma {:induction false} XorDouble(a: nat, b: nat)
    ensures Xor(2 * a, 2 * b) == 2 * Xor(a, b)
  {
  }

  /** A polynomial has one remainder. */
  lemma {:induction false} RemainderUnique(dividend: nat, r: nat, s: nat)
    requires Remainder(dividend, r) && Remainder(dividend, s)
    ensures r == s
  {
    var q: nat :| dividend == Xor(ClMul(q, POLY), r);
    var p: nat :| dividend == Xor(ClMul(p, POLY), s);
    XorSwap(ClMul(q, POLY), r, ClMul(p, POLY), s);
    XorSelf(dividend);
    ProductLinear(q, p, POLY);
    XorWidth(r, s, 32);
    XorEqual(ClMul(Xor(q, p), POLY), Xor(r, s));
    if Xor(q, p) > 0 { ProductDegree(Xor(q, p)); }
    XorEqual(r, s);
  }

  lemma {:induction false} XorEqual(a: nat, b: nat)
    requires Xor(a, b) == 0
    ensures a == b
    decreases a + b
  {
    if a != 0 || b != 0 { XorEqual(a / 2, b / 2); }
  }

  lemma {:induction false} ReflectWidth(x: nat, n: nat)
    ensures Reflect(x, n) < Pow2(n)
    decreases n
  {
    if n > 0 { ReflectWidth(x, n - 1); }
  }

  lemma {:induction false} ReflectFirst(x: nat, n: nat)
    ensures Reflect(x, n + 1) == (if x % 2 == 1 then Pow2(n) else 0) + Reflect(x / 2, n)
    decreases n
  {
    if n > 0 {
      ReflectFirst(x, n - 1);
    } else {
      assert Reflect(x, 1) == 2 * Reflect(x, 0) + Shr(x, 0) % 2;
    }
  }

  lemma {:induction false} ShrXor(a: nat, b: nat, n: nat)
    ensures Shr(Xor(a, b), n) == Xor(Shr(a, n), Shr(b, n))
    decreases n
  {
    if n > 0 {
      XorHalves(a, b);
      ShrXor(a / 2, b / 2, n - 1);
    }
  }

  lemma {:induction false} XorAppend(u: nat, v: nat, a: nat, b: nat)
    requires a <= 1 && b <= 1
    ensures Xor(2 * u + a, 2 * v + b) == 2 * Xor(u, v) + Xor(a, b)
  {
    var x, y := 2 * u + a, 2 * v + b;
    assert x / 2 == u && y / 2 == v && x % 2 == a && y % 2 == b;
    assert Xor(a, b) == BoolBit(a != b);
    XorHalves(x, y);
  }

  lemma {:induction false} ReflectXor(a: nat, b: nat, n: nat)
    ensures Reflect(Xor(a, b), n) == Xor(Reflect(a, n), Reflect(b, n))
    decreases n
  {
    if n > 0 {
      ReflectXor(a, b, n - 1);
      ShrXor(a, b, n - 1);
      var u, v := Shr(a, n - 1), Shr(b, n - 1);
      XorHalves(u, v);
      XorAppend(Reflect(a, n - 1), Reflect(b, n - 1), u % 2, v % 2);
      XorSelf(u % 2);
    }
  }

  lemma {:induction false} ReflectBit(x: nat, n: nat, r: nat, rest: nat)
    requires Reflect(x, n) == r && Shr(x, n) == rest
    ensures Reflect(x, n + 1) == 2 * r + rest % 2 && Shr(x, n + 1) == rest / 2
  {
    ShrStep(x, n);
  }

  /** Four more bits: r collects the reversed low part of x, rest is what remains. */
  lemma {:induction false} ReflectDigit(x: nat, n: nat, r: nat, rest: nat)
    requires Reflect(x, n) == r && Shr(x, n) == rest
    ensures var (b, c, d) := (rest / 2, rest / 2 / 2, rest / 2 / 2 / 2);
            && Reflect(x, n + 4) == 2 * (2 * (2 * (2 * r + rest % 2) + b % 2) + c % 2) + d % 2
            && Shr(x, n + 4) == d / 2
  {
    var (b, c, d) := (rest / 2, rest / 2 / 2, rest / 2 / 2 / 2);
    ReflectBit(x, n, r, rest);
    ReflectBit(x, n + 1, 2 * r + rest % 2, b);
    ReflectBit(x, n + 2, 2 * (2 * r + rest % 2) + b % 2, c);
    ReflectBit(x, n + 3, 2 * (2 * (2 * r + rest % 2) + b % 2) + c % 2, d);
  }

  lemma {:induction false} ReflectHalf(f: nat, n: nat)
    requires Reflect(f, n) == 0 && Shr(f, n) == 0x82F63B78
    ensures Reflect(f, n + 16) == 0x1EDC && Shr(f, n + 16) == 0x82F6
  {
    hide *;
    ReflectDigit(f, n, 0, 0x82F63B78);
    ReflectDigit(f, n + 4, 0x1, 0x82F63B7);
    ReflectDigit(f, n + 8, 0x1E, 0x82F63B);
    ReflectDigit(f, n + 12, 0x1ED, 0x82F63);
  }

  lemma {:induction false} ReflectOtherHalf(f: nat, n: nat)
    requires Reflect(f, n) == 0x1EDC && Shr(f, n) == 0x82F6
    ensures Reflect(f, n + 16) == 0x1EDC6F41
  {
    hide *;
    ReflectDigit(f, n, 0x1EDC, 0x82F6);
    ReflectDigit(f, n + 4, 0x1EDC6, 0x82F);
    ReflectDigit(f, n + 8, 0x1EDC6F, 0x82);
    ReflectDigit(f, n + 12, 0x1EDC6F4, 0x8);
  }

  /** The two polynomial constants are reflections of each other. */
  lemma {:induction false} ReflectFold(n: nat)
    requires n == 0
    ensures Reflect(FOLD, n + 32) == POLY - 0x1_0000_0000
  {
    ReflectHalf(FOLD, n);
    ReflectOtherHalf(FOLD, n + 16);
  }

  // The accumulator, mirrored, is the remainder of everything fed so far.

  lemma {:induction false} XorTop(u: nat, v: nat, k: nat)
    requires u < Pow2(k) && v < Pow2(k)
    ensures Xor(Pow2(k) + u, Pow2(k) + v) == Xor(u, v)
    decreases k
  {
    if k > 0 {
      XorTop(u / 2, v / 2, k - 1);
      assert (Pow2(k) + u) / 2 == Pow2(k - 1) + u / 2;
      assert (Pow2(k) + v) / 2 == Pow2(k - 1) + v / 2;
    } else {
      XorSelf(1);
    }
  }

  lemma {:induction false} MirrorHalf(crc: nat, n: nat, h: nat)
    requires n > 0 && crc < Pow2(n) && h == Reflect(crc / 2, n - 1)
    ensures h < Pow2(n - 1) && Reflect(crc / 2, n) == 2 * h
    ensures Reflect(crc, n) == (if crc % 2 == 1 then Pow2(n - 1) else 0) + h
  {
    ReflectFirst(crc, n - 1);
    ReflectWidth(crc / 2, n - 1);
    HighBitClear(crc / 2, n - 1);
  }

  lemma {:induction false} ReduceTop(h: nat, n: nat, r: nat, m: nat)
    requires n == 32 && h < Pow2(n - 1) && r == 2 * h && m == Pow2(n - 1) + h
    ensures Xor(r, POLY - 0x1_0000_0000) == Xor(POLY, 2 * m)
  {
    MirrorPowers(n);
    XorTop(r, POLY - 0x1_0000_0000, n);
    XorCommutes(2 * m, POLY);
  }

  /** One turn of the bit loop multiplies the mirrored accumulator by x and reduces. */
  lemma {:induction false} ReflectStep(crc: nat, n: nat)
    requires n == 32 && crc < Pow2(n)
    ensures crc % 2 == 1 ==> Reflect(Step(crc), n) == Xor(POLY, 2 * Reflect(crc, n))
    ensures crc % 2 == 0 ==> Reflect(Step(crc), n) == 2 * Reflect(crc, n)
  {
    var h := Reflect(crc / 2, n - 1);
    MirrorHalf(crc, n, h);
    if crc % 2 == 1 {
      StepOdd(crc, n);
      ReduceTop(h, n, Reflect(crc / 2, n), Reflect(crc, n));
    } else {
      StepEven(crc);
    }
  }

  lemma {:induction false} StepEven(crc: nat)
    requires crc % 2 == 0
    ensures Step(crc) == crc / 2
  {
    XorSelf(crc / 2);
  }

  lemma {:induction false} StepOdd(crc: nat, n: nat)
    requires n == 32 && crc % 2 == 1
    ensures Reflect(Step(crc), n) == Xor(Reflect(crc / 2, n), POLY - 0x1_0000_0000)
  {
    ReflectXor(crc / 2, FOLD, n);
    ReflectFold(n - 32);
  }

  lemma {:induction false} MirrorPowers(n: nat)
    requires n == 32
    ensures Pow2(n) == 0x1_0000_0000 && Pow2(n) == 2 * Pow2(n - 1)
  {
    WordIsPow2();
  }

  lemma {:induction false} HighBitClear(x: nat, n: nat)
    requires x < Pow2(n)
    ensures Shr(x, n) == 0
    decreases n
  {
    if n > 0 { HighBitClear(x / 2, n - 1); }
  }

  lemma {:induction false} ReflectZero(n: nat)
    ensures Reflect(0, n) == 0 && Shr(0, n) == 0
    decreases n
  {
    if n > 0 { ReflectZero(n - 1); HighBitClear(0, n - 1); HighBitClear(0, n); }
  }

  /** Feeding one message bit into the lowest place of the accumulator. */
  function Serial(crc: nat, d: nat, n: nat): nat
    decreases n
  {
    if n == 0 then crc else Serial(Step(Xor(crc, d % 2)), d / 2, n - 1)
  }

  lemma {:induction false} StepOfDouble(y: nat)
    ensures Step(2 * y) == y
  {
    XorSelf(y);
  }

  /** XORing a byte in at once equals feeding its bits one at a time. */
  lemma {:induction false} StepsAreSerial(crc: nat, d: nat, n: nat)
    requires d < Pow2(n)
    ensures Steps(Xor(crc, d), n) == Serial(crc, d, n)
    decreases n
  {
    if n == 0 {
      XorSelf(crc);
    } else {
      var low := d % 2;
      SplitLow(crc, d);
      StepLinear(Xor(crc, low), 2 * (d / 2));
      StepOfDouble(d / 2);
      StepsAreSerial(Step(Xor(crc, low)), d / 2, n - 1);
    }
  }

  lemma {:induction false} SplitLow(crc: nat, d: nat)
    ensures Xor(crc, d) == Xor(Xor(crc, d % 2), 2 * (d / 2))
  {
    XorSelf(crc / 2);
    XorSelf(0);
  }

  lemma {:induction false} FoldMirror(fed: nat, n: nat, p: nat)
    requires n == 32 && fed < Pow2(n) && p == if fed % 2 == 1 then POLY else 0
    ensures Reflect(Step(fed), n) == Xor(p, 2 * Reflect(fed, n))
  {
    ReflectStep(fed, n);
    XorSelf(2 * Reflect(fed, n));
  }

  /** Feeding one bit keeps the mirrored accumulator congruent to the extended message. */
  lemma {:induction false} FeedBit(dividend: nat, q: nat, crc: nat, b: nat, n: nat, fed: nat)
    requires n == 32 && b <= 1 && crc < Pow2(n) && fed == Xor(crc, b)
    requires dividend == Xor(ClMul(q, POLY), Reflect(crc, n))
    ensures Xor(2 * dividend, 2 * Reflect(b, n)) == Xor(ClMul(2 * q + fed % 2, POLY), Reflect(Step(fed), n))
  {
    hide *;
    FedWidth(crc, b, n);
    ReflectXor(crc, b, n);
    var p := if fed % 2 == 1 then POLY else 0;
    FoldMirror(fed, n, p);
    var c' := ClMul(2 * q + fed % 2, POLY);
    ProductStep(q, fed % 2, POLY, p);
    CancelFold(dividend, p, ClMul(q, POLY), Reflect(crc, n), Reflect(b, n), c', Reflect(Step(fed), n));
  }

  lemma {:induction false} FedWidth(crc: nat, b: nat, n: nat)
    requires n == 32 && b <= 1 && crc < Pow2(n)
    ensures Xor(crc, b) < Pow2(n) && Step(Xor(crc, b)) < Pow2(n)
  {
    MirrorPowers(n);
    XorWidth(crc, b, n);
    var fed := Xor(crc, b);
    XorWidth(fed / 2, if fed % 2 == 1 then FOLD else 0, n);
  }

  lemma {:induction false} ReflectLowBit(b: nat, n: nat)
    requires n > 0 && b <= 1
    ensures 2 * Reflect(b, n) == if b == 1 then Pow2(n) else 0
  {
    ReflectFirst(b, n - 1);
    ReflectZero(n - 1);
  }

  lemma {:induction false} ProductStep(q: nat, t: nat, p: nat, f: nat)
    requires t <= 1 && f == if t == 1 then p else 0
    ensures ClMul(2 * q + t, p) == Xor(f, 2 * ClMul(q, p))
  {
    if 2 * q + t == 0 {
      XorSelf(0);
    } else {
      assert (2 * q + t) / 2 == q && (2 * q + t) % 2 == t;
    }
  }

  lemma {:induction false} CancelFold(dividend: nat, p: nat, c: nat, m: nat, t: nat, c': nat, r': nat)
    requires dividend == Xor(c, m) && c' == Xor(p, 2 * c) && r' == Xor(p, 2 * Xor(m, t))
    ensures Xor(2 * dividend, 2 * t) == Xor(c', r')
  {
    XorSwap(p, 2 * c, p, 2 * Xor(m, t));
    XorSelf(p);
    XorSelf(Xor(2 * c, 2 * Xor(m, t)));
    XorDouble(c, Xor(m, t));
    XorDouble(Xor(c, m), t);
    XorSwap(c, m, 0, t);
    XorSelf(c);
    XorSelf(t);
  }

  lemma {:induction false} ShlAppend(m: nat, b: nat, n: nat)
    requires b <= 1
    ensures Shl(2 * m + b, n) == Xor(2 * Shl(m, n), if b == 1 then Pow2(n) else 0)
    decreases n
  {
    if n == 0 {
      XorAppend(m, 0, 0, b);
      XorSelf(m);
      XorSelf(b);
    } else {
      ShlAppend(m, b, n - 1);
      XorDouble(2 * Shl(m, n - 1), if b == 1 then Pow2(n - 1) else 0);
    }
  }

  /** The initial accumulator moved up k places, combined with the message bits read so far. */
  function Extended(mirrored: nat, k: nat, message: nat, n: nat): nat {
    Xor(Shl(mirrored, k), Shl(message, n))
  }

  lemma {:induction false} ExtendedStep(mirrored: nat, k: nat, message: nat, b: nat, n: nat)
    requires b <= 1 && n > 0
    ensures Extended(mirrored, k + 1, 2 * message + b, n) ==
            Xor(2 * Extended(mirrored, k, message, n), 2 * Reflect(b, n))
  {
    ShlAppend(message, b, n);
    ReflectLowBit(b, n);
    var t := 2 * Reflect(b, n);
    XorDouble(Shl(mirrored, k), Shl(message, n));
    XorSwap(2 * Shl(mirrored, k), 2 * Shl(message, n), 0, t);
    XorSelf(2 * Shl(mirrored, k));
    XorSelf(t);
  }

  lemma {:induction false} SerialUnfold(crc: nat, message: nat, d: nat, j: nat)
    ensures j == 0 ==> Serial(crc, d, j) == crc && StreamBits(message, d, j) == message
    ensures j > 0 ==> Serial(crc, d, j) == Serial(Step(Xor(crc, d % 2)), d / 2, j - 1)
    ensures j > 0 ==> StreamBits(message, d, j) == StreamBits(2 * message + d % 2, d / 2, j - 1)
  {
  }

  lemma {:induction false} TrackBits(mirrored: nat, k: nat, message: nat, q: nat, crc: nat, d: nat, j: nat, n: nat)
    returns (q': nat)
    requires n == 32 && crc < Pow2(n)
    requires Extended(mirrored, k, message, n) == Xor(ClMul(q, POLY), Reflect(crc, n))
    ensures Serial(crc, d, j) < Pow2(n)
    ensures Extended(mirrored, k + j, StreamBits(message, d, j), n) ==
            Xor(ClMul(q', POLY), Reflect(Serial(crc, d, j), n))
    decreases j
  {
    SerialUnfold(crc, message, d, j);
    hide *;
    if j == 0 {
      q' := q;
    } else {
      var b := d % 2;
      var fed := Xor(crc, b);
      FeedBit(Extended(mirrored, k, message, n), q, crc, b, n, fed);
      ExtendedStep(mirrored, k, message, b, n);
      FedWidth(crc, b, n);
      assert Extended(mirrored, k + 1, 2 * message + b, n) ==
             Xor(ClMul(2 * q + fed % 2, POLY), Reflect(Step(fed), n));
      assert k + 1 + (j - 1) == k + j;
      q' := TrackBits(mirrored, k + 1, 2 * message + b, 2 * q + fed % 2, Step(fed), d / 2, j - 1, n);
    }
  }

  lemma {:induction false} ByteIsSerial(crc: nat, d: byte)
    ensures Steps(Xor(crc, d), 8) == Serial(crc, d, 8)
  {
    WordIsPow2();
    StepsAreSerial(crc, d, 8);
  }

  lemma {:induction false} TrackUnfold(crc: nat, message: nat, data: seq<byte>)
    ensures data == [] ==> Accumulate(crc, data) == crc && Stream(message, data) == message
    ensures data != [] ==> Accumulate(crc, data) == Accumulate(Steps(Xor(crc, data[0]), 8), data[1..])
    ensures data != [] ==> Stream(message, data) == Stream(StreamBits(message, data[0], 8), data[1..])
  {
  }

  lemma {:induction false} TrackBytes(mirrored: nat, k: nat, message: nat, q: nat, crc: nat, data: seq<byte>, n: nat)
    returns (q': nat)
    requires n == 32 && crc < Pow2(n)
    requires Extended(mirrored, k, message, n) == Xor(ClMul(q, POLY), Reflect(crc, n))
    ensures Accumulate(crc, data) < Pow2(n)
    ensures Extended(mirrored, k + 8 * |data|, Stream(message, data), n) ==
            Xor(ClMul(q', POLY), Reflect(Accumulate(crc, data), n))
    decreases |data|
  {
    TrackUnfold(crc, message, data);
    hide *;
    if data == [] {
      q' := q;
    } else {
      var next, crc' := StreamBits(message, data[0], 8), Steps(Xor(crc, data[0]), 8);
      var q1 := TrackBits(mirrored, k, message, q, crc, data[0], 8, n);
      ByteIsSerial(crc, data[0]);
      q' := TrackBytes(mirrored, k + 8, next, q1, crc', data[1..], n);
    }
  }

  /** CRC32C: the mirrored result is the remainder modulo POLY of the message times x^32, with the
      mirrored initial accumulator added in front. */
  lemma {:induction false} ChecksumIsRemainder(crc: u32, data: seq<byte>, n: nat)
    requires n == 32
    ensures Remainder(Extended(Reflect(crc, n), 8 * |data|, Stream(0, data), n), Reflect(Accumulate(crc, data), n))
  {
    hide *;
    var m := Reflect(crc, n);
    NothingFed(m, n);
    CrcWidth(crc, n);
    var q := TrackBytes(m, 0, 0, 0, crc, data, n);
    var r := Reflect(Accumulate(crc, data), n);
    ReflectWidth(Accumulate(crc, data), n);
    RemainderIntro(Extended(m, 8 * |data|, Stream(0, data), n), q, r, n);
  }

  lemma {:induction false} RemainderIntro(dividend: nat, q: nat, r: nat, n: nat)
    requires n == 32 && r < Pow2(n) && dividend == Xor(ClMul(q, POLY), r)
    ensures Remainder(dividend, r)
  {
  }

  lemma {:induction false} CrcWidth(crc: u32, n: nat)
    requires n == 32
    ensures crc < Pow2(n)
  {
    MirrorPowers(n);
  }

  lemma {:induction false} NothingFed(m: nat, n: nat)
    ensures Extended(m, 0, 0, n) == Xor(ClMul(0, POLY), m)
  {
    ShlSplit(0, 0, n);
    XorSelf(m);
  }
}
