/** The PEXT and PDEP loops of BMI2. */
module Bmi {
  import opened Bits

  /** Compress: the bits of s at the set positions of m, packed downwards. */
  function Gather(s: nat, m: nat): nat
    decreases m
  {
    if m == 0 then 0
    else if m % 2 == 1 then s % 2 + 2 * Gather(s / 2, m / 2)
    else Gather(s / 2, m / 2)
  }

  /** Expand: the low bits of s, spread over the set positions of m. */
  function Scatter(s: nat, m: nat): nat
    decreases m
  {
    if m == 0 then 0
    else if m % 2 == 1 then s % 2 + 2 * Scatter(s / 2, m / 2)
    else 2 * Scatter(s, m / 2)
  }

  function PopCount(m: nat): nat
    decreases m
  {
    if m == 0 then 0 else m % 2 + PopCount(m / 2)
  }

  /** How many set bits of m lie below position i. */
  function Rank(m: nat, i: nat): nat
    decreases i
  {
    if i == 0 then 0 else m % 2 + Rank(m / 2, i - 1)
  }

  function LowBit(m: nat): (l: nat)
    requires m > 0
    ensures 0 < l <= m
    decreases m
  {
    if m % 2 == 1 then 1 else 2 * LowBit(m / 2)
  }

  function Not(x: u64): u64 {
    WORD - 1 - x
  }

  /** Bit Rank(m, i) of the extract is bit i of the source, for every selected position i. */
  lemma {:induction false} GatherByRank(s: nat, m: nat, i: nat)
    requires Bit(m, i)
    ensures Bit(Gather(s, m), Rank(m, i)) == Bit(s, i)
    decreases i
  {
    if m == 0 {
      BitOfZero(i);
    } else if i > 0 {
      GatherByRank(s / 2, m / 2, i - 1);
      if m % 2 == 1 {
        assert Gather(s, m) / 2 == Gather(s / 2, m / 2);
        assert Rank(m, i) - 1 == Rank(m / 2, i - 1);
      }
    }
  }

  /** The extract has no bit beyond the PopCount(m) selected ones. */
  lemma {:induction false} GatherWidth(s: nat, m: nat)
    ensures Gather(s, m) < Pow2(PopCount(m))
    decreases m
  {
    if m > 0 { GatherWidth(s / 2, m / 2); }
  }

  /** Bit i of the deposit is source bit Rank(m, i) at selected positions and clear elsewhere. */
  lemma {:induction false} ScatterByRank(s: nat, m: nat, i: nat)
    ensures Bit(Scatter(s, m), i) == (Bit(m, i) && Bit(s, Rank(m, i)))
    decreases i
  {
    if m == 0 {
      BitOfZero(i);
    } else if i > 0 {
      if m % 2 == 1 {
        assert Scatter(s, m) / 2 == Scatter(s / 2, m / 2);
        ScatterByRank(s / 2, m / 2, i - 1);
      } else {
        assert Scatter(s, m) / 2 == Scatter(s, m / 2);
        ScatterByRank(s, m / 2, i - 1);
      }
    }
  }

  /** Depositing an extract gives the masked source back. */
  lemma {:induction false} DepositOfExtract(x: nat, m: nat)
    ensures Scatter(Gather(x, m), m) == And(x, m)
    decreases m
  {
    if m == 0 {
      AndWidth(x, m);
    } else {
      DepositOfExtract(x / 2, m / 2);
      if x == 0 {
        AndWidth(0, m / 2);
      }
    }
  }

  /** Extracting a deposit gives the low PopCount(m) bits of the source back. */
  lemma {:induction false} ExtractOfDeposit(x: nat, m: nat)
    ensures Gather(Scatter(x, m), m) == x % Pow2(PopCount(m))
    decreases m
  {
    if m != 0 {
      if m % 2 == 1 {
        ExtractOfDeposit(x / 2, m / 2);
        ModSplit(x, Pow2(PopCount(m / 2)));
        assert Scatter(x, m) / 2 == Scatter(x / 2, m / 2);
      } else {
        ExtractOfDeposit(x, m / 2);
      }
    }
  }

  lemma {:induction false} ModSplit(x: nat, p: nat)
    requires p > 0
    ensures x % (2 * p) == 2 * (x / 2 % p) + x % 2
  {
    var q, r := x / 2 / p, x / 2 % p;
    assert x / 2 == p * q + r;
    assert 2 * (p * q) == (2 * p) * q;
    DivUnique(x, 2 * p, q, 2 * r + x % 2);
  }

  // The lowest set bit, as two's complement negation isolates it.

  lemma {:induction false} AndComplement(x: nat, n: nat)
    requires x < Pow2(n)
    ensures And(x, Pow2(n) - 1 - x) == 0
    decreases n
  {
    if n > 0 && x > 0 {
      assert (Pow2(n) - 1 - x) / 2 == Pow2(n - 1) - 1 - x / 2;
      AndComplement(x / 2, n - 1);
    }
  }

  lemma {:induction false} AndNegation(m: nat, n: nat)
    requires 0 < m < Pow2(n)
    ensures And(m, Pow2(n) - m) == LowBit(m)
    decreases n
  {
    if m % 2 == 1 {
      assert (Pow2(n) - m) / 2 == Pow2(n - 1) - 1 - m / 2;
      AndComplement(m / 2, n - 1);
    } else {
      assert (Pow2(n) - m) / 2 == Pow2(n - 1) - m / 2;
      AndNegation(m / 2, n - 1);
    }
  }

  lemma {:induction false} AndSelf(m: nat)
    ensures And(m, m) == m
    decreases m
  {
    if m > 0 { AndSelf(m / 2); }
  }

  lemma {:induction false} ClearLowest(m: nat)
    requires m > 0
    ensures And(m, m - 1) == m - LowBit(m)
    ensures PopCount(m - LowBit(m)) == PopCount(m) - 1
    decreases m
  {
    if m % 2 == 1 {
      AndSelf(m / 2);
      assert (m - 1) / 2 == m / 2;
    } else {
      ClearLowest(m / 2);
      assert (m - 1) / 2 == m / 2 - 1;
      assert (m - LowBit(m)) / 2 == m / 2 - LowBit(m / 2);
    }
  }

  lemma {:induction false} GatherStep(s: nat, m: nat)
    requires m > 0
    ensures Gather(s, m) == BoolBit(And(s, LowBit(m)) != 0) + 2 * Gather(s, m - LowBit(m))
    decreases m
  {
    if m % 2 == 1 {
      AndWidth(s / 2, 0);
      assert (m - 1) / 2 == m / 2;
    } else {
      GatherStep(s / 2, m / 2);
      assert (m - LowBit(m)) / 2 == m / 2 - LowBit(m / 2);
    }
  }

  lemma {:induction false} ScatterStep(s: nat, m: nat)
    requires m > 0
    ensures Scatter(s, m) == s % 2 * LowBit(m) + Scatter(s / 2, m - LowBit(m))
    decreases m
  {
    if m % 2 == 1 {
      assert (m - 1) / 2 == m / 2;
    } else {
      ScatterStep(s, m / 2);
      assert (m - LowBit(m)) / 2 == m / 2 - LowBit(m / 2);
      assert s % 2 * (2 * LowBit(m / 2)) == 2 * (s % 2 * LowBit(m / 2));
    }
  }

  lemma {:induction false} ScatterWidth(s: nat, m: nat)
    ensures Scatter(s, m) <= m
    decreases m
  {
    if m > 0 {
      ScatterWidth(s / 2, m / 2);
      ScatterWidth(s, m / 2);
    }
  }

  lemma {:induction false} PopCountWidth(m: nat, n: nat)
    requires m < Pow2(n)
    ensures PopCount(m) <= n
    decreases n
  {
    if n > 0 { PopCountWidth(m / 2, n - 1); }
  }

  lemma {:induction false} PopCountOfWord(m: u64)
    ensures PopCount(m) <= 64
  {
    WordIsPow2();
    PopCountWidth(m, 64);
  }

  lemma {:induction false} AndPow2(s: nat, k: nat)
    ensures And(s, Pow2(k)) == if Bit(s, k) then Pow2(k) else 0
    decreases k
  {
    if s == 0 {
      BitOfZero(k);
    } else if k == 0 {
      assert And(s / 2, 0) == 0 by { AndWidth(s / 2, 0); }
    } else {
      AndPow2(s / 2, k - 1);
    }
  }

  /** Setting a bit above every set bit of r. */
  lemma {:induction false} OrAbove(r: nat, k: nat)
    requires r < Pow2(k)
    ensures Or(r, Pow2(k)) == r + Pow2(k)
    decreases k
  {
    if k > 0 { OrAbove(r / 2, k - 1); }
  }

  /** Setting the lowest bit of m in a word that shares no bit with m. */
  lemma {:induction false} OrLowest(r: nat, m: nat)
    requires m > 0 && And(r, m) == 0
    ensures Or(r, LowBit(m)) == r + LowBit(m)
    ensures And(r, m - LowBit(m)) == 0
    ensures And(r + LowBit(m), m - LowBit(m)) == 0
    decreases m
  {
    if m % 2 == 1 {
      OrZero(r / 2);
      assert (m - 1) / 2 == m / 2;
      if r == 0 { AndWidth(0, m / 2); }
      assert (r + 1) / 2 == r / 2;
    } else {
      if r == 0 { AndWidth(0, m / 2); }
      OrLowest(r / 2, m / 2);
      assert (m - LowBit(m)) / 2 == m / 2 - LowBit(m / 2);
      assert (r + LowBit(m)) / 2 == r / 2 + LowBit(m / 2);
    }
  }

  lemma {:induction false} OrZero(r: nat)
    ensures Or(r, 0) == r
    decreases r
  {
    if r > 0 { OrZero(r / 2); }
  }

  lemma {:induction false} NegationOfWord(m: u64)
    requires m > 0
    ensures Wrap(Not(m) + 1) == WORD - m
  {
  }

  lemma {:induction false} LowestByNegation(m: u64)
    requires m > 0
    ensures And(m, WORD - m) == LowBit(m)
  {
    WordIsPow2();
    AndNegation(m, 64);
  }

  /** `mask & (~mask + 1)` on 64-bit words. */
  lemma {:induction false} LowestOfWord(m: u64)
    requires m > 0
    ensures And(m, Wrap(Not(m) + 1)) == LowBit(m)
  {
    NegationOfWord(m);
    LowestByNegation(m);
  }

  lemma {:induction false} DoubleOutBit(k: nat)
    requires k < 64
    ensures Wrap(Pow2(k)) == Pow2(k) < WORD
    ensures Wrap(Wrap(Pow2(k)) * 2) == Wrap(Pow2(k + 1))
    ensures 2 * Pow2(k) <= WORD
  {
    WordIsPow2();
    Pow2Monotone(k + 1, 64);
  }

  ghost predicate PextInvariant(source: u64, mask: u64, m: u64, r: u64, k: nat) {
    && k + PopCount(m) <= 64
    && r < Pow2(k)
    && Gather(source, mask) == r + Shl(Gather(source, m), k)
  }

  lemma {:induction false} ExtractBit(source: nat, k: nat, m: nat)
    requires m > 0
    ensures Shl(Gather(source, m), k) ==
            (if And(source, LowBit(m)) != 0 then Pow2(k) else 0) + Shl(Gather(source, m - LowBit(m)), k + 1)
  {
    GatherStep(source, m);
    ShlSplit(BoolBit(And(source, LowBit(m)) != 0), Gather(source, m - LowBit(m)), k);
    ShlSplit(0, 0, k);
  }

  /** One round of the extract loop: m loses its lowest bit, r gains bit k. */
  lemma {:induction false} PextRound(source: u64, mask: u64, m: u64, r: u64, k: nat, r': nat)
    requires m > 0 && PextInvariant(source, mask, m, r, k)
    requires r' == if And(source, LowBit(m)) != 0 then Or(r, Pow2(k)) else r
    ensures k < 64 && r' < 0x1_0000_0000_0000_0000 && PextInvariant(source, mask, m - LowBit(m), r', k + 1)
  {
    ClearLowest(m);
    DoubleOutBit(k);
    OrAbove(r, k);
    ExtractBit(source, k, m);
  }

  method Pext(source: u64, mask: u64) returns (result: u64)
    ensures result == Gather(source, mask)
  {
    hide *;
    StartPext(source, mask);
    result := 0;
    var remaining: u64, outBit: u64 := mask, 1;
    ghost var k := 0;
    while remaining != 0
      invariant PextInvariant(source, mask, remaining, result, k)
      invariant outBit == Wrap(Pow2(k))
      decreases remaining
    {
      LowestOfWord(remaining);
      ClearLowest(remaining);
      PextBound(source, mask, remaining, result, k);
      DoubleOutBit(k);
      ghost var before, m := result, remaining;
      var lowest := And(remaining, Wrap(Not(remaining) + 1));
      ghost var after := if And(source, lowest) != 0 then Or(result, outBit) else result;
      PextRound(source, mask, m, before, k, after);
      if And(source, lowest) != 0 {
        result := Or(result, outBit);
      }
      remaining := And(remaining, remaining - 1);
      outBit := Wrap(outBit * 2);
      k := k + 1;
    }
    EndPext(source, mask, result, k);
  }

  lemma {:induction false} StartPext(source: u64, mask: u64)
    ensures PextInvariant(source, mask, mask, 0, 0) && Wrap(Pow2(0)) == 1
  {
    PopCountOfWord(mask);
  }

  lemma {:induction false} PextBound(source: u64, mask: u64, m: u64, r: u64, k: nat)
    requires m > 0 && PextInvariant(source, mask, m, r, k)
    ensures k < 64
  {
    ClearLowest(m);
  }

  lemma {:induction false} EndPext(source: u64, mask: u64, r: u64, k: nat)
    requires PextInvariant(source, mask, 0, r, k)
    ensures r == Gather(source, mask)
  {
    ShlSplit(0, 0, k);
  }

  ghost predicate PdepInvariant(source: u64, mask: u64, m: u64, r: u64, k: nat) {
    && k + PopCount(m) <= 64
    && And(r, m) == 0
    && Scatter(source, mask) == r + Scatter(Shr(source, k), m)
  }

  lemma {:induction false} DepositBit(source: nat, k: nat, m: nat)
    requires m > 0
    ensures Scatter(Shr(source, k), m) ==
            (if And(source, Pow2(k)) != 0 then LowBit(m) else 0) + Scatter(Shr(source, k + 1), m - LowBit(m))
  {
    AndPow2(source, k);
    ShrStep(source, k);
    ScatterStep(Shr(source, k), m);
  }

  /** One round of the deposit loop: m loses its lowest bit, which r may gain. */
  lemma {:induction false} PdepRound(source: u64, mask: u64, m: u64, r: u64, k: nat, r': nat)
    requires m > 0 && PdepInvariant(source, mask, m, r, k)
    requires r' == if And(source, Pow2(k)) != 0 then Or(r, LowBit(m)) else r
    ensures k < 64 && r' < 0x1_0000_0000_0000_0000 && PdepInvariant(source, mask, m - LowBit(m), r', k + 1)
  {
    ClearLowest(m);
    DepositBit(source, k, m);
    OrLowest(r, m);
    ScatterWidth(source, mask);
  }

  method Pdep(source: u64, mask: u64) returns (result: u64)
    ensures result == Scatter(source, mask)
  {
    hide *;
    StartPdep(source, mask);
    result := 0;
    var remaining: u64, inBit: u64 := mask, 1;
    ghost var k := 0;
    while remaining != 0
      invariant PdepInvariant(source, mask, remaining, result, k)
      invariant inBit == Wrap(Pow2(k))
      decreases remaining
    {
      LowestOfWord(remaining);
      ClearLowest(remaining);
      PdepBound(source, mask, remaining, result, k);
      DoubleOutBit(k);
      ghost var before, m := result, remaining;
      var lowest := And(remaining, Wrap(Not(remaining) + 1));
      ghost var after := if And(source, inBit) != 0 then Or(result, lowest) else result;
      PdepRound(source, mask, m, before, k, after);
      if And(source, inBit) != 0 {
        result := Or(result, lowest);
      }
      remaining := And(remaining, remaining - 1);
      inBit := Wrap(inBit * 2);
      k := k + 1;
    }
    EndPdep(source, mask, result, k);
  }

  lemma {:induction false} StartPdep(source: u64, mask: u64)
    ensures PdepInvariant(source, mask, mask, 0, 0) && Wrap(Pow2(0)) == 1
  {
    PopCountOfWord(mask);
    AndWidth(0, mask);
  }

  lemma {:induction false} PdepBound(source: u64, mask: u64, m: u64, r: u64, k: nat)
    requires m > 0 && PdepInvariant(source, mask, m, r, k)
    ensures k < 64
  {
    ClearLowest(m);
  }

  lemma {:induction false} EndPdep(source: u64, mask: u64, r: u64, k: nat)
    requires PdepInvariant(source, mask, 0, r, k)
    ensures r == Scatter(source, mask)
  {
  }
}
