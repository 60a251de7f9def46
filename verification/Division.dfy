/** The shift-and-subtract division of a 128-bit dividend by a 64-bit divisor. */
module Division {
  import opened Bits

  /** The leading bits of the dividend high:low, its last k bits dropped. */
  function Leading(high: u64, low: u64, k: nat): nat
    requires k <= 64
  {
    Shl(high, 64 - k) + Shr(low, k)
  }

  /** No partial remainder met before the last k bits reaches 2^63, so doubling it stays in 64 bits. */
  ghost predicate FitsAbove(high: u64, low: u64, divisor: u64, k: nat)
    requires divisor > 0
  {
    forall i | k < i <= 64 :: Leading(high, low, i) % divisor < 0x8000_0000_0000_0000
  }

  lemma {:induction false} FitsStep(high: u64, low: u64, divisor: u64, k: nat)
    requires divisor > 0 && k < 64
    ensures FitsAbove(high, low, divisor, k) <==>
            FitsAbove(high, low, divisor, k + 1) && Leading(high, low, k + 1) % divisor < 0x8000_0000_0000_0000
  {
    forall i | k < i <= 64 && FitsAbove(high, low, divisor, k + 1)
      ensures i == k + 1 || Leading(high, low, i) % divisor < 0x8000_0000_0000_0000 {
    }
  }

  lemma {:induction false} LeadingStep(high: u64, low: u64, k: nat)
    requires k < 64
    ensures Leading(high, low, k) == 2 * Leading(high, low, k + 1) + Shr(low, k) % 2
  {
    ShrStep(low, k);
  }

  lemma {:induction false} ShrAll(x: nat, n: nat)
    requires x < Pow2(n)
    ensures Shr(x, n) == 0
    decreases n
  {
    if n > 0 { ShrAll(x / 2, n - 1); }
  }

  lemma {:induction false} LeadingEnds(high: u64, low: u64)
    ensures Leading(high, low, 64) == high
    ensures Leading(high, low, 0) == high * WORD + low
  {
    WordIsPow2();
    ShrAll(low, 64);
    ShlIsProduct(high, 64);
  }

  lemma {:induction false} ShlIsProduct(x: nat, k: nat)
    ensures Shl(x, k) == x * Pow2(k)
    decreases k
  {
    if k > 0 {
      ShlIsProduct(x, k - 1);
      assert 2 * (x * Pow2(k - 1)) == x * (2 * Pow2(k - 1));
    }
  }

  /** Setting bit k below a quotient whose low k + 1 bits are clear. */
  lemma {:induction false} OrDigit(q: nat, k: nat)
    ensures Or(Shl(2 * q, k), Pow2(k)) == Shl(2 * q + 1, k)
    decreases k
  {
    if k > 0 {
      OrDigit(q, k - 1);
      assert Shl(2 * q, k) / 2 == Shl(2 * q, k - 1);
    } else {
      OrZero(q);
      assert Or(2 * q, 1) == 1 + 2 * Or(q, 0);
    }
  }

  lemma {:induction false} OrZero(x: nat)
    ensures Or(x, 0) == x
    decreases x
  {
    if x > 0 { OrZero(x / 2); }
  }

  lemma {:induction false} ShlDouble(x: nat, k: nat)
    ensures Shl(x, k + 1) == Shl(2 * x, k)
    decreases k
  {
    if k > 0 { ShlDouble(x, k - 1); }
  }

  /** State before bit k - 1: a quotient prefix q, a remainder, and what the shifts have dropped. */
  ghost predicate Partial(high: u64, low: u64, divisor: u64, k: nat, q: nat, rem: u64, lost: nat)
    requires k <= 64 && divisor > 0
  {
    && rem < divisor
    && Leading(high, low, k) == q * divisor + rem + WORD * lost
    && (lost == 0 <==> FitsAbove(high, low, divisor, k))
  }

  /** One doubling: the wrapped remainder, and one dropped unit when the top bit was set. */
  lemma {:induction false} Doubled(rem: u64, bit: nat, divisor: u64, digit: nat)
    requires rem < divisor && bit <= 1
    requires digit == if Wrap(2 * rem) + bit >= divisor then 1 else 0
    ensures Wrap(2 * rem) + bit < WORD
    ensures 0 <= Wrap(2 * rem) + bit - digit * divisor < divisor
    ensures 2 * rem + bit == Wrap(2 * rem) + bit + (if rem < 0x8000_0000_0000_0000 then 0 else WORD)
  {
  }

  lemma {:induction false} DigitOut(l: nat, q: nat, rem: u64, lost: nat, divisor: u64, digit: nat, spill: nat,
      bit: nat, w: nat)
    requires l == q * divisor + rem + WORD * lost
    requires 2 * rem + bit == w + WORD * spill
    ensures 2 * l + bit == (2 * q + digit) * divisor + (w - digit * divisor) + WORD * (2 * lost + spill)
  {
    assert (2 * q + digit) * divisor == 2 * (q * divisor) + digit * divisor;
  }

  lemma {:induction false} ModUnique(x: nat, d: nat, q: nat, r: nat)
    requires d > 0 && x == q * d + r && r < d
    ensures x % d == r
  {
    DivUnique(x, d, q, r);
  }

  lemma {:induction false} Round(high: u64, low: u64, divisor: u64, k: nat, q: nat, rem: u64, lost: nat, digit: nat)
    returns (lost': nat)
    requires k < 64 && divisor > 0 && Partial(high, low, divisor, k + 1, q, rem, lost)
    requires digit == if Wrap(2 * rem) + Shr(low, k) % 2 >= divisor then 1 else 0
    ensures var rem' := Wrap(2 * rem) + Shr(low, k) % 2 - digit * divisor;
            0 <= rem' < divisor && Partial(high, low, divisor, k, 2 * q + digit, rem', lost')
  {
    LeadingStep(high, low, k);
    var bit := Shr(low, k) % 2;
    var spill := if rem < 0x8000_0000_0000_0000 then 0 else 1;
    Doubled(rem, bit, divisor, digit);
    lost' := 2 * lost + spill;
    DigitOut(Leading(high, low, k + 1), q, rem, lost, divisor, digit, spill, bit, Wrap(2 * rem) + bit);
    FitsStep(high, low, divisor, k);
    if lost == 0 {
      ModUnique(Leading(high, low, k + 1), divisor, q, rem);
    }
  }

  /** The quotient and remainder are exact just when no shift drops a bit, which is so for every
      divisor up to 2^63. Callers raise #DE first unless high < divisor. */
  method UDiv128(high: u64, low: u64, divisor: u64) returns (quotient: u64, remainder: u64)
    requires high < divisor
    ensures remainder < divisor
    ensures (high * WORD + low == quotient * divisor + remainder) <==> FitsAbove(high, low, divisor, 0)
    ensures divisor <= 0x8000_0000_0000_0000 ==> high * WORD + low == quotient * divisor + remainder
  {
    hide Shl, Shr, Or, Pow2, Leading, FitsAbove, Partial;
    quotient := 0;
    remainder := high;
    StartDivision(high, low, divisor);
    ghost var q: nat, lost: nat := 0, 0;
    var bit := 63;
    while bit >= 0
      invariant -1 <= bit <= 63 && remainder < divisor
      invariant Partial(high, low, divisor, bit + 1, q, remainder, lost)
      invariant quotient == Shl(q, bit + 1)
      invariant q < Pow2(63 - bit)
    {
      ghost var digit := if Wrap(2 * remainder) + Shr(low, bit) % 2 >= divisor then 1 else 0;
      Doubled(remainder, Shr(low, bit) % 2, divisor, digit);
      lost := Round(high, low, divisor, bit, q, remainder, lost, digit);
      QuotientBit(q, bit);
      remainder := Wrap(2 * remainder) + Shr(low, bit) % 2;
      if remainder >= divisor {
        remainder := remainder - divisor;
        quotient := Or(quotient, Pow2(bit));
      }
      q := 2 * q + digit;
      bit := bit - 1;
    }
    ShlNothing(q);
    Conclude(high, low, divisor, quotient, remainder, lost);
  }

  lemma {:induction false} StartDivision(high: u64, low: u64, divisor: u64)
    requires high < divisor
    ensures Partial(high, low, divisor, 64, 0, high, 0)
    ensures Shl(0, 64) == 0 && 0 < Pow2(0)
  {
    LeadingEnds(high, low);
    ShlIsProduct(0, 64);
  }

  lemma {:induction false} ShlNothing(q: nat)
    ensures Shl(q, 0) == q
  {
  }

  lemma {:induction false} ShlWidth(q: nat, k: nat, n: nat)
    requires q < Pow2(n)
    ensures Shl(q, k) < Pow2(n + k)
    decreases k
  {
    if k > 0 { ShlWidth(q, k - 1, n); }
  }

  lemma {:induction false} QuotientBit(q: nat, bit: nat)
    requires bit < 64 && q < Pow2(63 - bit)
    ensures Shl(q, bit + 1) == Shl(2 * q, bit)
    ensures Or(Shl(q, bit + 1), Pow2(bit)) == Shl(2 * q + 1, bit) < WORD
    ensures 2 * q + 1 < Pow2(64 - bit)
  {
    ShlDouble(q, bit);
    OrDigit(q, bit);
    ShlWidth(2 * q + 1, bit, 64 - bit);
    WordIsPow2();
  }

  lemma {:induction false} Conclude(high: u64, low: u64, divisor: u64, q: nat, rem: u64, lost: nat)
    requires divisor > 0 && Partial(high, low, divisor, 0, q, rem, lost)
    ensures (high * WORD + low == q * divisor + rem) <==> FitsAbove(high, low, divisor, 0)
    ensures divisor <= 0x8000_0000_0000_0000 ==> FitsAbove(high, low, divisor, 0)
  {
    LeadingEnds(high, low);
  }

  /** With a dividend of 2^127 or more the first doubling already drops a bit, so the result is always inexact. */
  lemma {:induction false} LargeDividend(high: u64, low: u64, divisor: u64)
    requires 0x8000_0000_0000_0000 <= high < divisor
    ensures !FitsAbove(high, low, divisor, 0)
  {
    hide Leading;
    LeadingEnds(high, low);
    ModUnique(high, divisor, 0, high);
    assert Leading(high, low, 64) % divisor == high;
  }

  /** 2^127 by 2^63 + 1 is such a division. */
  lemma {:induction false} InexactDivision()
    ensures !FitsAbove(0x8000_0000_0000_0000, 0, 0x8000_0000_0000_0001, 0)
  {
    LargeDividend(0x8000_0000_0000_0000, 0, 0x8000_0000_0000_0001);
  }
}
