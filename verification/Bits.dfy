/** Machine words as natural numbers, and the bitwise operators on them. */
module Bits {

  const WORD: nat := 0x1_0000_0000_0000_0000

  type byte = x: int | 0 <= x < 0x100
  type u64 = x: int | 0 <= x < 0x1_0000_0000_0000_0000

  /** Reduction modulo 2^64: the value a uint64_t keeps of any integer. */
  function Wrap(x: int): u64 {
    x % 0x1_0000_0000_0000_0000
  }

  function Pow2(n: nat): (p: nat)
    ensures p > 0
  {
    if n == 0 then 1 else 2 * Pow2(n - 1)
  }

  /** Bit i of x. */
  predicate Bit(x: nat, i: nat)
    decreases i
  {
    if i == 0 then x % 2 == 1 else Bit(x / 2, i - 1)
  }

  /** x >> k. */
  function Shr(x: nat, k: nat): (y: nat)
    ensures y <= x
    decreases k
  {
    if k == 0 then x else Shr(x / 2, k - 1)
  }

  /** x << k, without loss. */
  function Shl(x: nat, k: nat): nat
    decreases k
  {
    if k == 0 then x else 2 * Shl(x, k - 1)
  }

  /** The n low bytes of a value, least significant first. */
  function Bytes(value: nat, n: nat): (bs: seq<byte>)
    ensures |bs| == n
    decreases n
  {
    if n == 0 then [] else [value % 0x100] + Bytes(value / 0x100, n - 1)
  }

  function LittleEndian(bs: seq<byte>): nat
    decreases |bs|
  {
    if bs == [] then 0 else bs[0] + 0x100 * LittleEndian(bs[1..])
  }

  function BoolBit(b: bool): (d: nat)
    ensures d <= 1
  {
    if b then 1 else 0
  }

  function And(x: nat, y: nat): nat
    decreases x
  {
    if x == 0 then 0 else BoolBit(x % 2 == 1 && y % 2 == 1) + 2 * And(x / 2, y / 2)
  }

  function Or(x: nat, y: nat): nat
    decreases x + y
  {
    if x == 0 && y == 0 then 0 else BoolBit(x % 2 == 1 || y % 2 == 1) + 2 * Or(x / 2, y / 2)
  }

  function Xor(x: nat, y: nat): nat
    decreases x + y
  {
    if x == 0 && y == 0 then 0 else BoolBit((x % 2 == 1) != (y % 2 == 1)) + 2 * Xor(x / 2, y / 2)
  }

  lemma {:induction false} ShrStep(x: nat, k: nat)
    ensures Shr(x, k + 1) == Shr(x, k) / 2
    ensures Bit(x, k) == (Shr(x, k) % 2 == 1)
    decreases k
  {
    if k > 0 { ShrStep(x / 2, k - 1); }
  }

  lemma {:induction false} ShlSplit(d: nat, y: nat, k: nat)
    ensures Shl(d + 2 * y, k) == Shl(d, k) + Shl(y, k + 1)
    ensures Shl(1, k) == Pow2(k)
    ensures Shl(0, k) == 0
    decreases k
  {
    if k > 0 { ShlSplit(d, y, k - 1); }
  }

  lemma {:induction false} BitOfZero(i: nat)
    ensures !Bit(0, i)
  {
    if i > 0 { BitOfZero(i - 1); }
  }

  lemma {:induction false} AndParts(x: nat, y: nat)
    ensures (And(x, y) % 2 == 1) == (x % 2 == 1 && y % 2 == 1) && And(x, y) / 2 == And(x / 2, y / 2)
  {
  }

  lemma {:induction false} BitOfAnd(x: nat, y: nat, i: nat)
    ensures Bit(And(x, y), i) == (Bit(x, i) && Bit(y, i))
    decreases i
  {
    hide And;
    AndParts(x, y);
    if i > 0 {
      BitOfAnd(x / 2, y / 2, i - 1);
    }
  }

  lemma {:induction false} OrParts(x: nat, y: nat)
    ensures (Or(x, y) % 2 == 1) == (x % 2 == 1 || y % 2 == 1) && Or(x, y) / 2 == Or(x / 2, y / 2)
  {
  }

  lemma {:induction false} BitOfOr(x: nat, y: nat, i: nat)
    ensures Bit(Or(x, y), i) == (Bit(x, i) || Bit(y, i))
    decreases i
  {
    hide Or;
    OrParts(x, y);
    if i > 0 {
      BitOfOr(x / 2, y / 2, i - 1);
    }
  }

  lemma {:induction false} XorParts(x: nat, y: nat)
    ensures (Xor(x, y) % 2 == 1) == ((x % 2 == 1) != (y % 2 == 1)) && Xor(x, y) / 2 == Xor(x / 2, y / 2)
  {
  }

  lemma {:induction false} BitOfXor(x: nat, y: nat, i: nat)
    ensures Bit(Xor(x, y), i) == (Bit(x, i) != Bit(y, i))
    decreases i
  {
    hide Xor;
    XorParts(x, y);
    if i > 0 {
      BitOfXor(x / 2, y / 2, i - 1);
    }
  }

  /** Words are determined by their bits. */
  lemma {:induction false} EqualBits(x: nat, y: nat)
    requires forall i: nat :: Bit(x, i) == Bit(y, i)
    ensures x == y
    decreases x + y
  {
    if x != 0 || y != 0 {
      assert Bit(x, 0) == Bit(y, 0);
      forall i: nat ensures Bit(x / 2, i) == Bit(y / 2, i) {
        assert Bit(x, i + 1) == Bit(y, i + 1);
      }
      EqualBits(x / 2, y / 2);
    }
  }

  lemma {:induction false} BitAboveWidth(x: nat, n: nat, i: nat)
    requires x < Pow2(n) && n <= i
    ensures !Bit(x, i)
    decreases n
  {
    if n == 0 {
      BitOfZero(i);
    } else {
      BitAboveWidth(x / 2, n - 1, i - 1);
    }
  }

  lemma {:induction false} XorWidth(x: nat, y: nat, n: nat)
    requires x < Pow2(n) && y < Pow2(n)
    ensures Xor(x, y) < Pow2(n)
    decreases n
  {
    if n > 0 { XorWidth(x / 2, y / 2, n - 1); }
  }

  lemma {:induction false} AndWidth(x: nat, y: nat)
    ensures And(x, y) <= x && And(x, y) <= y
    decreases x
  {
    if x > 0 { AndWidth(x / 2, y / 2); }
  }

  lemma {:induction false} OrWidth(x: nat, y: nat, n: nat)
    requires x < Pow2(n) && y < Pow2(n)
    ensures Or(x, y) < Pow2(n)
    decreases n
  {
    if n > 0 { OrWidth(x / 2, y / 2, n - 1); }
  }

  lemma {:induction false} DivUnique(x: int, d: nat, q: int, r: int)
    requires d > 0 && x == d * q + r && 0 <= r < d
    ensures x / d == q && x % d == r
  {
    var q' := x / d;
    var k := q' - q;
    assert x == d * q' + x % d;
    assert d * k == r - x % d by {
      assert d * k == d * q' - d * q;
    }
    if k >= 1 { MulAtLeast(d, k); }
  }

  lemma {:induction false} MulAtLeast(d: nat, k: nat)
    requires k >= 1
    ensures d * k >= d
  {
  }

  lemma {:induction false} Pow2Add(a: nat, b: nat)
    ensures Pow2(a + b) == Pow2(a) * Pow2(b)
  {
    if a > 0 {
      Pow2Add(a - 1, b);
      Doubled(Pow2(a - 1), Pow2(b));
    }
  }

  lemma {:induction false} Doubled(p: nat, q: nat)
    ensures (2 * p) * q == 2 * (p * q)
  {
  }

  lemma {:induction false} Pow2Monotone(a: nat, b: nat)
    requires a <= b
    ensures Pow2(a) <= Pow2(b)
    decreases b
  {
    if a < b { Pow2Monotone(a, b - 1); }
  }

  lemma {:induction false} WordIsPow2()
    ensures Pow2(8) == 0x100 && Pow2(16) == 0x1_0000 && Pow2(32) == 0x1_0000_0000 && Pow2(64) == WORD
  {
    assert Pow2(2) == 4;
    assert Pow2(4) == 16;
    Pow2Add(4, 4);
    Pow2Add(8, 8);
    Pow2Add(16, 16);
    Pow2Add(32, 32);
  }

  lemma {:induction false} ValueOfBytes(v: nat, n: nat)
    requires v < Pow2(8 * n)
    ensures LittleEndian(Bytes(v, n)) == v
    decreases n
  {
    if n > 0 {
      assert Pow2(8 * n) == 0x100 * Pow2(8 * (n - 1)) by {
        Pow2Add(8, 8 * (n - 1));
        WordIsPow2();
      }
      ValueOfBytes(v / 0x100, n - 1);
      assert Bytes(v, n)[1..] == Bytes(v / 0x100, n - 1);
    }
  }

  lemma {:induction false} BytesOfValue(bs: seq<byte>)
    ensures Bytes(LittleEndian(bs), |bs|) == bs
    decreases |bs|
  {
    if bs != [] {
      BytesOfValue(bs[1..]);
    }
  }

  /** Byte i of a value is its i-th digit to base 256, so that the least significant byte comes first. */
  lemma {:induction false} BytesInOrder(v: nat, n: nat, i: nat)
    requires i < n
    ensures Bytes(v, n)[i] == v / Pow2(8 * i) % 0x100
    decreases n
  {
    hide Pow2;
    ByteWeight(i);
    if i > 0 {
      BytesInOrder(v / 0x100, n - 1, i - 1);
      DivTwice(v, Pow2(8 * (i - 1)));
    }
  }

  lemma {:induction false} ByteWeight(i: nat)
    ensures i == 0 ==> Pow2(8 * i) == 1
    ensures i > 0 ==> Pow2(8 * i) == 0x100 * Pow2(8 * (i - 1))
  {
    if i > 0 {
      Pow2Add(8, 8 * (i - 1));
      WordIsPow2();
    }
  }

  lemma {:induction false} DivTwice(v: nat, p: nat)
    requires p > 0
    ensures v / 0x100 / p == v / (0x100 * p)
  {
    var q, r := v / 0x100 / p, v / 0x100 % p;
    assert v / 0x100 == p * q + r;
    Nest(v, p, q, r);
    DivUnique(v, 0x100 * p, q, 0x100 * r + v % 0x100);
  }

  lemma {:induction false} Nest(v: nat, p: nat, q: nat, r: nat)
    requires v / 0x100 == p * q + r && r < p
    ensures v == (0x100 * p) * q + (0x100 * r + v % 0x100) && 0x100 * r + v % 0x100 < 0x100 * p
  {
  }

  lemma {:induction false} LittleEndianWidth(bs: seq<byte>)
    ensures LittleEndian(bs) < Pow2(8 * |bs|)
    decreases |bs|
  {
    if bs != [] {
      LittleEndianWidth(bs[1..]);
      assert Pow2(8 * |bs|) == 0x100 * Pow2(8 * |bs[1..]|) by {
        Pow2Add(8, 8 * |bs[1..]|);
        WordIsPow2();
      }
    }
  }

  /** x with bit i set to v. */
  function SetBit(x: nat, i: nat, v: bool): (y: nat)
    decreases i
  {
    if i == 0 then 2 * (x / 2) + BoolBit(v) else x % 2 + 2 * SetBit(x / 2, i - 1, v)
  }

  lemma {:induction false} BitOfSetBit(x: nat, i: nat, v: bool, j: nat)
    ensures Bit(SetBit(x, i, v), j) == if j == i then v else Bit(x, j)
    decreases i
  {
    assert SetBit(x, i, v) / 2 == if i == 0 then x / 2 else SetBit(x / 2, i - 1, v);
    if i > 0 && j > 0 { BitOfSetBit(x / 2, i - 1, v, j - 1); }
  }

  lemma {:induction false} SetBitWidth(x: nat, i: nat, v: bool, n: nat)
    requires x < Pow2(n) && i < n
    ensures SetBit(x, i, v) < Pow2(n)
    decreases n
  {
    if i > 0 { SetBitWidth(x / 2, i - 1, v, n - 1); }
  }
}
