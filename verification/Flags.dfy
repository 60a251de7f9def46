/** Status flags: how the arithmetic kernels set them, and what the condition codes then decide. */
module Flags {
  import opened Bits

  // The positions of the six status flags in RFLAGS.
  const CF: nat := 0
  const PF: nat := 2
  const AF: nat := 4
  const ZF: nat := 6
  const SF: nat := 7
  const OF: nat := 11

  type Width = w: nat | w == 8 || w == 16 || w == 32 || w == 64 witness 8

  /** 2^w. */
  function Modulus(w: Width): (m: nat)
    ensures 0x100 <= m <= 0x1_0000_0000_0000_0000 && m % 2 == 0
  {
    if w == 8 then 0x100 else if w == 16 then 0x1_0000
    else if w == 32 then 0x1_0000_0000 else 0x1_0000_0000_0000_0000
  }

  /** The w-bit word that a C conversion keeps of an integer. */
  function Low(w: Width, x: int): (y: u64)
    ensures y < Modulus(w)
  {
    x % Modulus(w)
  }

  /** The two's complement value of a w-bit word. */
  function Signed(w: Width, x: nat): int {
    if x >= Modulus(w) / 2 then x - Modulus(w) else x
  }

  function SetFlag(flags: u64, flag: nat, value: bool): (after: u64)
    requires flag < 64
    ensures after == SetBit(flags, flag, value)
  {
    SetFlagWidth(flags, flag, value);
    SetBit(flags, flag, value)
  }

  lemma {:induction false} SetFlagWidth(flags: u64, flag: nat, value: bool)
    requires flag < 64
    ensures 0 <= SetBit(flags, flag, value) < 0x1_0000_0000_0000_0000
  {
    hide SetBit;
    WordIsPow2();
    SetBitWidth(flags, flag, value, 64);
  }

  datatype Status = Status(cf: bool, pf: bool, af: bool, zf: bool, sf: bool, of: bool)

  function StatusOf(flags: u64): Status {
    Status(Bit(flags, CF), Bit(flags, PF), Bit(flags, AF), Bit(flags, ZF), Bit(flags, SF), Bit(flags, OF))
  }

  // Parity.

  function ParityFold(val: nat, k: nat): nat {
    Xor(val, Shr(val, k))
  }

  /** The number of set bits among the n lowest. */
  function OnesBelow(x: nat, n: nat): nat {
    if n == 0 then 0 else OnesBelow(x, n - 1) + BoolBit(Bit(x, n - 1))
  }

  predicate EvenParity(val: nat) {
    OnesBelow(val, 8) % 2 == 0
  }

  lemma {:induction false} BitOfShr(x: nat, k: nat, i: nat)
    ensures Bit(Shr(x, k), i) == Bit(x, i + k)
    decreases k
  {
    if k > 0 { BitOfShr(x / 2, k - 1, i); }
  }

  lemma {:induction false} BitOfFold(val: nat, k: nat, i: nat)
    ensures Bit(ParityFold(val, k), i) == (Bit(val, i) != Bit(val, i + k))
  {
    hide Bit, Xor, Shr;
    BitOfShr(val, k, i);
    BitOfXor(val, Shr(val, k), i);
  }

  lemma {:induction false} FoldedParity(val: nat, a: nat, b: nat, c: nat)
    requires a == ParityFold(val, 4) && b == ParityFold(a, 2) && c == ParityFold(b, 1)
    ensures !Bit(c, 0) == EvenParity(val)
  {
    hide Bit, ParityFold;
    BitOfFold(b, 1, 0);
    BitOfFold(a, 2, 0);
    BitOfFold(a, 2, 1);
    BitOfFold(val, 4, 0);
    BitOfFold(val, 4, 1);
    BitOfFold(val, 4, 2);
    BitOfFold(val, 4, 3);
    OnesOfByte(val);
  }

  lemma {:induction false} OnesOfByte(x: nat)
    ensures OnesBelow(x, 8) == BoolBit(Bit(x, 0)) + BoolBit(Bit(x, 1)) + BoolBit(Bit(x, 2)) + BoolBit(Bit(x, 3))
                               + BoolBit(Bit(x, 4)) + BoolBit(Bit(x, 5)) + BoolBit(Bit(x, 6)) + BoolBit(Bit(x, 7))
  {
    hide Bit, BoolBit, OnesBelow;
    OnesStep(x, 0);
    OnesStep(x, 1);
    OnesStep(x, 2);
    OnesStep(x, 3);
    OnesStep(x, 4);
    OnesStep(x, 5);
    OnesStep(x, 6);
    OnesStep(x, 7);
  }

  lemma {:induction false} OnesStep(x: nat, n: nat)
    ensures OnesBelow(x, 0) == 0
    ensures OnesBelow(x, n + 1) == OnesBelow(x, n) + BoolBit(Bit(x, n))
  {
  }

  /** The xor-folding loop body answers whether the low byte has an even number of ones. */
  method CalcParity(val: byte) returns (even: bool)
    ensures even == EvenParity(val)
  {
    hide *;
    var folded: nat := ParityFold(val, 4);
    ghost var a := folded;
    folded := ParityFold(folded, 2);
    ghost var b := folded;
    folded := ParityFold(folded, 1);
    FoldedParity(val, a, b, folded);
    even := !Bit(folded, 0);
  }

  // The flag updates.

  /** The common tail of every update: SF, ZF, AF and PF after CF and OF. */
  function UpdateFlags(flags: u64, w: Width, carry: bool, overflow: bool, adjust: bool, result: nat): u64 {
    var f1 := SetFlag(flags, CF, carry);
    var f2 := SetFlag(f1, OF, overflow);
    var f3 := SetFlag(f2, SF, Bit(result, w - 1));
    var f4 := SetFlag(f3, ZF, result == 0);
    var f5 := SetFlag(f4, AF, adjust);
    SetFlag(f5, PF, EvenParity(result))
  }

  lemma {:induction false} SetsFlag(flags: u64, flag: nat, value: bool, j: nat)
    requires flag < 64
    ensures Bit(SetFlag(flags, flag, value), j) == if j == flag then value else Bit(flags, j)
  {
    hide Bit, SetBit;
    BitOfSetBit(flags, flag, value, j);
  }

  /** The bits of RFLAGS after an update, one by one. */
  lemma {:induction false} UpdateBit(
    flags: u64, w: Width, carry: bool, overflow: bool, adjust: bool, result: nat, j: nat)
    ensures Bit(UpdateFlags(flags, w, carry, overflow, adjust, result), j) ==
            if j == PF then EvenParity(result) else if j == AF then adjust else if j == ZF then result == 0
            else if j == SF then Bit(result, w - 1) else if j == OF then overflow
            else if j == CF then carry else Bit(flags, j)
  {
    hide Bit, SetFlag, EvenParity, SetBit;
    var f1 := SetFlag(flags, 0, carry);
    var f2 := SetFlag(f1, 11, overflow);
    var f3 := SetFlag(f2, 7, Bit(result, w - 1));
    var f4 := SetFlag(f3, 6, result == 0);
    var f5 := SetFlag(f4, 4, adjust);
    SetsFlag(flags, 0, carry, j);
    SetsFlag(f1, 11, overflow, j);
    SetsFlag(f2, 7, Bit(result, w - 1), j);
    SetsFlag(f3, 6, result == 0, j);
    SetsFlag(f4, 4, adjust, j);
    SetsFlag(f5, 2, EvenParity(result), j);
  }

  /** An update sets the six flags independently and leaves every other bit of RFLAGS alone. */
  lemma {:induction false} UpdateSets(
    flags: u64, w: Width, carry: bool, overflow: bool, adjust: bool, result: nat, other: nat)
    requires other !in {0, 2, 4, 6, 7, 11}
    ensures var after := UpdateFlags(flags, w, carry, overflow, adjust, result);
            && StatusOf(after) == Status(carry, EvenParity(result), adjust, result == 0, Bit(result, w - 1), overflow)
            && Bit(after, other) == Bit(flags, other)
  {
    hide Bit, SetFlag, EvenParity, UpdateFlags;
    UpdateBit(flags, w, carry, overflow, adjust, result, 0);
    UpdateBit(flags, w, carry, overflow, adjust, result, 2);
    UpdateBit(flags, w, carry, overflow, adjust, result, 4);
    UpdateBit(flags, w, carry, overflow, adjust, result, 6);
    UpdateBit(flags, w, carry, overflow, adjust, result, 7);
    UpdateBit(flags, w, carry, overflow, adjust, result, 11);
    UpdateBit(flags, w, carry, overflow, adjust, result, other);
  }

  function AddResult(w: Width, dst: nat, src: nat, carryIn: nat): u64 {
    Low(w, dst + src + carryIn)
  }

  /** The 64-bit forms compare the wrapped result, the narrower ones look at the bits above the width. */
  predicate AddCarry(w: Width, dst: nat, src: nat, carryIn: nat) {
    if w == 64 then
      AddResult(w, dst, src, carryIn) < dst || (carryIn == 1 && AddResult(w, dst, src, carryIn) == dst)
    else dst + src + carryIn > Modulus(w) - 1
  }

  predicate AddOverflow(w: Width, dst: nat, src: nat, result: nat) {
    Bit(And(Xor(dst, result), Xor(src, result)), w - 1)
  }

  predicate SubOverflow(w: Width, dst: nat, src: nat, result: nat) {
    Bit(And(Xor(dst, src), Xor(dst, result)), w - 1)
  }

  function AddFlags(flags: u64, w: Width, dst: nat, src: nat): u64 {
    var result := AddResult(w, dst, src, 0);
    UpdateFlags(flags, w, AddCarry(w, dst, src, 0), AddOverflow(w, dst, src, result),
                Bit(Xor(Xor(dst, src), result), 4), result)
  }

  function SubFlags(flags: u64, w: Width, dst: nat, src: nat): u64 {
    var result := Low(w, dst - src);
    UpdateFlags(flags, w, dst < src, SubOverflow(w, dst, src, result), Bit(Xor(Xor(dst, src), result), 4), result)
  }

  function AdcFlags(flags: u64, w: Width, dst: nat, src: nat, carryIn: nat): u64 {
    var result := AddResult(w, dst, src, carryIn);
    UpdateFlags(flags, w, AddCarry(w, dst, src, carryIn), AddOverflow(w, dst, src, result),
                (dst % 0x10 + src % 0x10 + carryIn) / 0x10 % 2 == 1, result)
  }

  /** AND and TEST clear CF and OF and leave AF. */
  function LogicFlags(flags: u64, w: Width, result: nat): u64 {
    var f1 := SetFlag(flags, CF, false);
    var f2 := SetFlag(f1, OF, false);
    var f3 := SetFlag(f2, SF, Bit(result, w - 1));
    var f4 := SetFlag(f3, ZF, result == 0);
    SetFlag(f4, PF, EvenParity(result))
  }

  lemma {:induction false} TopBit(x: nat, n: nat)
    requires n > 0 && x < Pow2(n)
    ensures Bit(x, n - 1) == (x >= Pow2(n - 1))
    decreases n
  {
    if n > 1 { TopBit(x / 2, n - 1); }
  }

  lemma {:induction false} SignBit(w: Width, x: nat)
    requires x < Modulus(w)
    ensures Bit(x, w - 1) == (x >= Modulus(w) / 2)
  {
    hide Bit;
    ModulusIsPow2(w);
    TopBit(x, w);
  }

  lemma {:induction false} ModulusIsPow2(w: Width)
    ensures Modulus(w) == Pow2(w) && Modulus(w) / 2 == Pow2(w - 1)
  {
    WordIsPow2();
    assert Pow2(w) == 2 * Pow2(w - 1);
  }

  lemma {:induction false} OverflowSigns(w: Width, dst: nat, src: nat, result: nat)
    requires dst < Modulus(w) && src < Modulus(w) && result < Modulus(w)
    ensures AddOverflow(w, dst, src, result) ==
            ((Signed(w, dst) < 0) != (Signed(w, result) < 0) && (Signed(w, src) < 0) != (Signed(w, result) < 0))
    ensures SubOverflow(w, dst, src, result) ==
            ((Signed(w, dst) < 0) != (Signed(w, src) < 0) && (Signed(w, dst) < 0) != (Signed(w, result) < 0))
  {
    hide Bit, And, Xor, Modulus;
    BitOfAnd(Xor(dst, result), Xor(src, result), w - 1);
    BitOfAnd(Xor(dst, src), Xor(dst, result), w - 1);
    BitOfXor(dst, result, w - 1);
    BitOfXor(src, result, w - 1);
    BitOfXor(dst, src, w - 1);
    SignBit(w, dst);
    SignBit(w, src);
    SignBit(w, result);
  }

  /** After an addition CF is unsigned overflow and OF signed overflow, with or without a carry in. */
  lemma {:induction false} AddStatus(w: Width, dst: nat, src: nat, carryIn: nat)
    requires dst < Modulus(w) && src < Modulus(w) && carryIn <= 1
    ensures var result := AddResult(w, dst, src, carryIn);
            && AddCarry(w, dst, src, carryIn) == (dst + src + carryIn >= Modulus(w))
            && dst + src + carryIn == result + (if AddCarry(w, dst, src, carryIn) then Modulus(w) else 0)
            && AddOverflow(w, dst, src, result) ==
               !(-(Modulus(w) / 2) <= Signed(w, dst) + Signed(w, src) + carryIn < Modulus(w) / 2)
  {
    hide Modulus, AddOverflow;
    var result := AddResult(w, dst, src, carryIn);
    ReduceOnce(Modulus(w), dst + src + carryIn);
    OverflowSigns(w, dst, src, result);
    UnfoldModulus64(w);
  }

  lemma {:induction false} UnfoldModulus64(w: Width)
    ensures w == 64 ==> Modulus(w) == 0x1_0000_0000_0000_0000
  {
  }

  lemma {:induction false} ReduceOnce(m: int, x: int)
    requires m > 0 && -m <= x < 2 * m
    ensures x % m == if x < 0 then x + m else if x >= m then x - m else x
  {
    DivUnique(x, m, if x < 0 then -1 else if x >= m then 1 else 0,
              if x < 0 then x + m else if x >= m then x - m else x);
  }

  /** What the flags of a comparison mean. */
  lemma {:induction false} SubStatus(w: Width, dst: nat, src: nat)
    requires dst < Modulus(w) && src < Modulus(w)
    ensures var result := Low(w, dst - src);
            && ((result == 0) == (dst == src))
            && (SubOverflow(w, dst, src, result) ==
                !(-(Modulus(w) / 2) <= Signed(w, dst) - Signed(w, src) < Modulus(w) / 2))
            && ((Bit(result, w - 1) != SubOverflow(w, dst, src, result)) == (Signed(w, dst) < Signed(w, src)))
            && (Bit(result, w - 1) == (Signed(w, result) < 0))
  {
    hide Modulus, SubOverflow, Bit;
    var result := Low(w, dst - src);
    ReduceOnce(Modulus(w), dst - src);
    OverflowSigns(w, dst, src, result);
    SignBit(w, result);
  }

  // What each update means, in numbers.

  /** The six flags of a result: those of the result itself, and the three that the operation decides. */
  ghost predicate FlagsRead(w: Width, before: u64, after: u64, result: nat, carry: bool, adjust: bool, overflow: bool) {
    && Bit(after, 0) == carry && Bit(after, 4) == adjust && Bit(after, 11) == overflow
    && Bit(after, 2) == (OnesBelow(result, 8) % 2 == 0) && Bit(after, 6) == (result == 0)
    && Bit(after, 7) == (result >= Modulus(w) / 2)
    && (forall j: nat :: j !in {0, 2, 4, 6, 7, 11} ==> Bit(after, j) == Bit(before, j))
  }

  lemma {:induction false} UpdateReads(
    flags: u64, w: Width, carry: bool, overflow: bool, adjust: bool, result: nat)
    requires result < Modulus(w)
    ensures FlagsRead(w, flags, UpdateFlags(flags, w, carry, overflow, adjust, result), result, carry, adjust, overflow)
  {
    hide Bit, SetFlag, OnesBelow, UpdateFlags, Modulus;
    SignBit(w, result);
    forall j: nat
      ensures Bit(UpdateFlags(flags, w, carry, overflow, adjust, result), j) ==
              if j == PF then EvenParity(result) else if j == AF then adjust else if j == ZF then result == 0
              else if j == SF then Bit(result, w - 1) else if j == OF then overflow
              else if j == CF then carry else Bit(flags, j)
    {
      UpdateBit(flags, w, carry, overflow, adjust, result, j);
    }
  }

  lemma {:induction false} FifthBit(x: nat)
    ensures Bit(x, 4) == (x / 16 % 2 == 1)
  {
  }

  /** Reducing by a multiple of 32 keeps the fifth bit. */
  lemma {:induction false} FifthOfRest(x: int, k: nat)
    requires k > 0
    ensures x % (32 * k) / 16 % 2 == x / 16 % 2
  {
    var q, r := x / (32 * k), x % (32 * k);
    var a, b := r / 16, r % 16;
    Regroup(x, k, q, a, b);
    DivUnique(x, 16, 2 * (k * q) + a, b);
    DivUnique(2 * (k * q) + a, 2, k * q + a / 2, a % 2);
  }

  lemma {:induction false} Regroup(x: int, k: nat, q: int, a: int, b: int)
    requires x == (32 * k) * q + (16 * a + b)
    ensures x == 16 * (2 * (k * q) + a) + b
  {
  }

  lemma {:induction false} FifthOfLow(w: Width, x: int)
    ensures Low(w, x) / 16 % 2 == x / 16 % 2
  {
    FifthOfRest(x, Modulus(w) / 32);
  }

  /** The xor of operands and result shows the carry into bit 4. */
  lemma {:induction false} HalfCarry(w: Width, dst: nat, src: nat)
    ensures Bit(Xor(Xor(dst, src), Low(w, dst + src)), 4) == (dst % 16 + src % 16 >= 16)
    ensures Bit(Xor(Xor(dst, src), Low(w, dst - src)), 4) == (dst % 16 < src % 16)
  {
    hide Bit, Xor, Low;
    FifthOfLow(w, dst + src);
    FifthOfLow(w, dst - src);
    FifthXor(dst, src, Low(w, dst + src));
    FifthXor(dst, src, Low(w, dst - src));
    HalfSum(dst, src);
  }

  lemma {:induction false} FifthXor(x: nat, y: nat, z: nat)
    ensures Bit(Xor(Xor(x, y), z), 4) == (((x / 16 % 2 == 1) != (y / 16 % 2 == 1)) != (z / 16 % 2 == 1))
  {
    hide Bit, Xor;
    BitOfXor(Xor(x, y), z, 4);
    BitOfXor(x, y, 4);
    FifthBit(x);
    FifthBit(y);
    FifthBit(z);
  }

  lemma {:induction false} HalfSum(x: nat, y: nat)
    ensures ((x + y) / 16 % 2 == 1) == (((x / 16 % 2 == 1) != (y / 16 % 2 == 1)) != (x % 16 + y % 16 >= 16))
    ensures ((x - y) / 16 % 2 == 1) == (((x / 16 % 2 == 1) != (y / 16 % 2 == 1)) != (x % 16 < y % 16))
  {
    var c, d := if x % 16 + y % 16 >= 16 then 1 else 0, if x % 16 < y % 16 then 1 else 0;
    DivUnique(x + y, 16, x / 16 + y / 16 + c, x % 16 + y % 16 - 16 * c);
    DivUnique(x - y, 16, x / 16 - y / 16 - d, x % 16 - y % 16 + 16 * d);
    Parities(x / 16, y / 16, c);
    Parities(x / 16, y / 16, d);
  }

  lemma {:induction false} Parities(a: nat, b: nat, c: nat)
    requires c <= 1
    ensures ((a + b + c) % 2 == 1) == (((a % 2 == 1) != (b % 2 == 1)) != (c == 1))
    ensures ((a - b - c) % 2 == 1) == (((a % 2 == 1) != (b % 2 == 1)) != (c == 1))
  {
  }

  /** ADD and XADD: CF is the carry out of the width, OF signed overflow, AF the carry out of the low digit, and the
      others describe the sum; every other bit of RFLAGS stays. */
  lemma {:induction false} AddFlagsMean(flags: u64, w: Width, a: nat, b: nat)
    requires a < Modulus(w) && b < Modulus(w)
    ensures FlagsRead(w, flags, AddFlags(flags, w, a, b), (a + b) % Modulus(w), a + b >= Modulus(w),
                      a % 16 + b % 16 >= 16,
                      !(-(Modulus(w) / 2) <= Signed(w, a) + Signed(w, b) < Modulus(w) / 2))
  {
    hide Modulus, Signed, AddCarry, AddOverflow, Bit, Xor, UpdateFlags, FlagsRead;
    var result := AddResult(w, a, b, 0);
    AddStatus(w, a, b, 0);
    HalfCarry(w, a, b);
    UpdateReads(flags, w, AddCarry(w, a, b, 0), AddOverflow(w, a, b, result), Bit(Xor(Xor(a, b), result), 4), result);
  }

  /** SUB and CMP: CF is the borrow, OF signed overflow, AF the borrow of the low digit. */
  lemma {:induction false} SubFlagsMean(flags: u64, w: Width, a: nat, b: nat)
    requires a < Modulus(w) && b < Modulus(w)
    ensures FlagsRead(w, flags, SubFlags(flags, w, a, b), (a - b) % Modulus(w), a < b, a % 16 < b % 16,
                      !(-(Modulus(w) / 2) <= Signed(w, a) - Signed(w, b) < Modulus(w) / 2))
  {
    hide Modulus, Signed, SubOverflow, Bit, Xor, UpdateFlags, FlagsRead;
    var result := Low(w, a - b);
    SubStatus(w, a, b);
    HalfCarry(w, a, b);
    UpdateReads(flags, w, a < b, SubOverflow(w, a, b, result), Bit(Xor(Xor(a, b), result), 4), result);
  }

  /** ADC: the same of the sum with the carry in. */
  lemma {:induction false} AdcFlagsMean(flags: u64, w: Width, a: nat, b: nat, carryIn: nat)
    requires a < Modulus(w) && b < Modulus(w) && carryIn <= 1
    ensures FlagsRead(w, flags, AdcFlags(flags, w, a, b, carryIn), (a + b + carryIn) % Modulus(w),
                      a + b + carryIn >= Modulus(w), a % 16 + b % 16 + carryIn >= 16,
                      !(-(Modulus(w) / 2) <= Signed(w, a) + Signed(w, b) + carryIn < Modulus(w) / 2))
  {
    hide Modulus, Signed, AddCarry, AddOverflow, UpdateFlags, FlagsRead;
    var result := AddResult(w, a, b, carryIn);
    AddStatus(w, a, b, carryIn);
    UpdateReads(flags, w, AddCarry(w, a, b, carryIn), AddOverflow(w, a, b, result),
                (a % 0x10 + b % 0x10 + carryIn) / 0x10 % 2 == 1, result);
  }

  /** AND: CF and OF are clear, AF stays. */
  lemma {:induction false} LogicFlagsMean(flags: u64, w: Width, result: nat)
    requires result < Modulus(w)
    ensures FlagsRead(w, flags, LogicFlags(flags, w, result), result, false, Bit(flags, 4), false)
  {
    hide Bit, SetFlag, OnesBelow, Modulus, SetBit;
    SignBit(w, result);
    var f1 := SetFlag(flags, 0, false);
    var f2 := SetFlag(f1, 11, false);
    var f3 := SetFlag(f2, 7, Bit(result, w - 1));
    var f4 := SetFlag(f3, 6, result == 0);
    forall j: nat
      ensures Bit(LogicFlags(flags, w, result), j)
              == if j == PF then EvenParity(result) else if j == ZF then result == 0
                 else if j == SF then Bit(result, w - 1) else if j == OF || j == CF then false else Bit(flags, j)
    {
      SetsFlag(flags, 0, false, j);
      SetsFlag(f1, 11, false, j);
      SetsFlag(f2, 7, Bit(result, w - 1), j);
      SetsFlag(f3, 6, result == 0, j);
      SetsFlag(f4, 2, EvenParity(result), j);
    }
  }

  // Condition codes.

  predicate EvalJcc(flags: u64, cond: nat) {
    var cf := Bit(flags, CF);
    var zf := Bit(flags, ZF);
    var sf := Bit(flags, SF);
    var of := Bit(flags, OF);
    var pf := Bit(flags, PF);
    match cond
    case 0 => of
    case 1 => !of
    case 2 => cf
    case 3 => !cf
    case 4 => zf
    case 5 => !zf
    case 6 => cf || zf
    case 7 => !cf && !zf
    case 8 => sf
    case 9 => !sf
    case 10 => pf
    case 11 => !pf
    case 12 => sf != of
    case 13 => sf == of
    case 14 => zf || sf != of
    case 15 => !zf && sf == of
    case _ => false
  }

  /** What each condition code asks about the operands of a comparison. */
  predicate Relation(cond: nat, w: Width, a: nat, b: nat) {
    var difference := Low(w, a - b);
    var fits := -(Modulus(w) / 2) <= Signed(w, a) - Signed(w, b) < Modulus(w) / 2;
    match cond
    case 0 => !fits
    case 1 => fits
    case 2 => a < b
    case 3 => a >= b
    case 4 => a == b
    case 5 => a != b
    case 6 => a <= b
    case 7 => a > b
    case 8 => Signed(w, difference) < 0
    case 9 => Signed(w, difference) >= 0
    case 10 => EvenParity(difference)
    case 11 => !EvenParity(difference)
    case 12 => Signed(w, a) < Signed(w, b)
    case 13 => Signed(w, a) >= Signed(w, b)
    case 14 => Signed(w, a) <= Signed(w, b)
    case 15 => Signed(w, a) > Signed(w, b)
    case _ => false
  }

  /** Compare then branch: at every width the sixteen conditions decide exactly these relations. */
  lemma {:induction false} CompareThenBranch(flags: u64, w: Width, a: nat, b: nat, cond: nat)
    requires a < Modulus(w) && b < Modulus(w)
    ensures EvalJcc(SubFlags(flags, w, a, b), cond) == Relation(cond, w, a, b)
  {
    hide Modulus, SubOverflow, Bit, EvenParity, UpdateFlags, Low;
    var result := Low(w, a - b);
    UpdateSets(flags, w, a < b, SubOverflow(w, a, b, result), Bit(Xor(Xor(a, b), result), 4), result, 1);
    SubStatus(w, a, b);
    SignedEqual(w, a, b);
  }

  lemma {:induction false} SignedEqual(w: Width, a: nat, b: nat)
    requires a < Modulus(w) && b < Modulus(w)
    ensures (Signed(w, a) == Signed(w, b)) == (a == b)
  {
    hide Modulus;
  }

  // Multi-precision addition.

  type Limbs = seq<u64>

  /** The number whose 64-bit limbs these are, least significant first. */
  function Value(limbs: Limbs): nat {
    if limbs == [] then 0 else limbs[0] + 0x1_0000_0000_0000_0000 * Value(limbs[1..])
  }

  /** The same limbs as a two's complement number. */
  function SignedValue(limbs: Limbs): int
    requires limbs != []
  {
    if |limbs| == 1 then Signed(64, limbs[0])
    else limbs[0] + 0x1_0000_0000_0000_0000 * SignedValue(limbs[1..])
  }

  /** 2^(64 n). */
  function LimbWeight(n: nat): (w: nat)
    ensures w > 0
  {
    if n == 0 then 1 else 0x1_0000_0000_0000_0000 * LimbWeight(n - 1)
  }

  /** One 64-bit ADC: the carry comes from CF and the new flags go back. */
  function AdcLimb(flags: u64, dst: u64, src: u64): (u64, u64) {
    var carryIn := BoolBit(Bit(flags, CF));
    (AddResult(64, dst, src, carryIn), AdcFlags(flags, 64, dst, src, carryIn))
  }

  /** ADC over every limb in turn, nothing else touching the flags in between. */
  function AdcChain(flags: u64, a: Limbs, b: Limbs): (r: (Limbs, u64))
    requires |a| == |b|
    ensures |r.0| == |a|
    decreases |a|
  {
    if a == [] then ([], flags)
    else
      var (limb, next) := AdcLimb(flags, a[0], b[0]);
      var (rest, last) := AdcChain(next, a[1..], b[1..]);
      ([limb] + rest, last)
  }

  lemma {:induction false} AdcLimbExact(flags: u64, a: u64, b: u64)
    ensures var (limb, next) := AdcLimb(flags, a, b);
            var carryIn := BoolBit(Bit(flags, CF));
            && a + b + carryIn == limb + 0x1_0000_0000_0000_0000 * BoolBit(Bit(next, CF))
            && Bit(next, OF)
               == !(-0x8000_0000_0000_0000 <= Signed(64, a) + Signed(64, b) + carryIn < 0x8000_0000_0000_0000)
            && Signed(64, limb) == Signed(64, a) + Signed(64, b) + carryIn
                 - (if !Bit(next, OF) then 0 else if Signed(64, limb) < 0 then 0x1_0000_0000_0000_0000
                    else -0x1_0000_0000_0000_0000)
  {
    hide Bit, AddOverflow, AddCarry, AddResult, UpdateFlags, EvenParity;
    UnfoldModulus64(64);
    var carryIn := BoolBit(Bit(flags, CF));
    AddStatus(64, a, b, carryIn);
    var result := AddResult(64, a, b, carryIn);
    UpdateSets(flags, 64, AddCarry(64, a, b, carryIn), AddOverflow(64, a, b, result),
               (a % 0x10 + b % 0x10 + carryIn) / 0x10 % 2 == 1, result, 1);
  }

  /** The chain is addition of the whole numbers, and CF is its carry out. */
  lemma {:induction false} AdcChainAdds(flags: u64, a: Limbs, b: Limbs)
    requires |a| == |b|
    ensures var (sum, last) := AdcChain(flags, a, b);
            Value(sum) + LimbWeight(|a|) * BoolBit(Bit(last, CF)) == Value(a) + Value(b) + BoolBit(Bit(flags, CF))
    decreases |a|
  {
    hide AdcLimb, Bit;
    if a != [] {
      var (limb, next) := AdcLimb(flags, a[0], b[0]);
      AdcLimbExact(flags, a[0], b[0]);
      AdcChainAdds(next, a[1..], b[1..]);
      var (sum, last) := AdcChain(next, a[1..], b[1..]);
      assert ([limb] + sum)[1..] == sum;
      Scale(LimbWeight(|a| - 1), BoolBit(Bit(last, CF)));
    }
  }

  lemma {:induction false} Scale(w: nat, c: nat)
    requires c <= 1
    ensures (0x1_0000_0000_0000_0000 * w) * c == 0x1_0000_0000_0000_0000 * (w * c)
  {
  }

  /** What overflow takes away from the sum of the signed numbers. */
  function Excess(overflow: bool, negative: bool, weight: nat): int {
    if !overflow then 0 else if negative then weight else 0 - weight
  }

  lemma {:induction false} OverflowOfOne(flags: u64, a: Limbs, b: Limbs)
    requires |a| == |b| == 1
    ensures var (sum, last) := AdcChain(flags, a, b);
            SignedValue(sum) == SignedValue(a) + SignedValue(b) + BoolBit(Bit(flags, CF))
                                - Excess(Bit(last, OF), SignedValue(sum) < 0, LimbWeight(|a|))
  {
    hide AdcLimb, Bit, Signed;
    AdcLimbExact(flags, a[0], b[0]);
    assert LimbWeight(1) == 0x1_0000_0000_0000_0000 * LimbWeight(0);
  }

  lemma {:induction false} OverflowStep(
    a0: u64, b0: u64, limb: u64, carryIn: nat, carry: nat, ta: int, tb: int, ts: int, of: bool, weight: nat)
    requires a0 + b0 + carryIn == limb + 0x1_0000_0000_0000_0000 * carry
    requires ts == ta + tb + carry - Excess(of, ts < 0, weight)
    ensures var sum := limb + 0x1_0000_0000_0000_0000 * ts;
            sum == (a0 + 0x1_0000_0000_0000_0000 * ta) + (b0 + 0x1_0000_0000_0000_0000 * tb) + carryIn
                   - Excess(of, sum < 0, 0x1_0000_0000_0000_0000 * weight)
  {
  }

  lemma {:induction false} SignedCons(limb: u64, rest: Limbs)
    requires rest != []
    ensures SignedValue([limb] + rest) == limb + 0x1_0000_0000_0000_0000 * SignedValue(rest)
  {
    hide Signed;
    assert ([limb] + rest)[1..] == rest;
  }

  lemma {:induction false} ChainExcess(flags: u64, a: Limbs, b: Limbs)
    requires |a| == |b| > 0
    ensures var (sum, last) := AdcChain(flags, a, b);
            SignedValue(sum) == SignedValue(a) + SignedValue(b) + BoolBit(Bit(flags, CF))
                                - Excess(Bit(last, OF), SignedValue(sum) < 0, LimbWeight(|a|))
    decreases |a|
  {
    hide AdcLimb, Bit, Signed, Excess, SignedValue;
    if |a| == 1 {
      OverflowOfOne(flags, a, b);
    } else {
      var (limb, next) := AdcLimb(flags, a[0], b[0]);
      AdcLimbExact(flags, a[0], b[0]);
      ChainExcess(next, a[1..], b[1..]);
      var (sum, last) := AdcChain(next, a[1..], b[1..]);
      OverflowStep(a[0], b[0], limb, BoolBit(Bit(flags, CF)), BoolBit(Bit(next, CF)),
                   SignedValue(a[1..]), SignedValue(b[1..]), SignedValue(sum), Bit(last, OF), LimbWeight(|a| - 1));
      SignedCons(limb, sum);
      SignedCons(a[0], a[1..]);
      SignedCons(b[0], b[1..]);
      assert a == [a[0]] + a[1..] && b == [b[0]] + b[1..];
    }
  }

  lemma {:induction false} SignedRange(limbs: Limbs)
    requires limbs != []
    ensures 0 <= 2 * SignedValue(limbs) + LimbWeight(|limbs|) < 2 * LimbWeight(|limbs|)
    decreases |limbs|
  {
    hide SignedValue, LimbWeight, Signed;
    WeightStep(|limbs|);
    if |limbs| == 1 {
      RangeOfOne(limbs);
    } else {
      SignedRange(limbs[1..]);
      assert limbs == [limbs[0]] + limbs[1..];
      SignedCons(limbs[0], limbs[1..]);
      RangeStep(limbs[0], SignedValue(limbs[1..]), LimbWeight(|limbs| - 1));
    }
  }

  lemma {:induction false} WeightStep(n: nat)
    requires n > 0
    ensures LimbWeight(n) == 0x1_0000_0000_0000_0000 * LimbWeight(n - 1)
    ensures n > 1 ==> LimbWeight(n - 1) % 2 == 0
  {
  }

  lemma {:induction false} RangeOfOne(limbs: Limbs)
    requires |limbs| == 1
    ensures 0 <= 2 * SignedValue(limbs) + LimbWeight(1) < 2 * LimbWeight(1)
  {
    assert LimbWeight(1) == 0x1_0000_0000_0000_0000 * LimbWeight(0);
  }

  lemma {:induction false} RangeStep(limb: u64, tail: int, weight: nat)
    requires 0 <= 2 * tail + weight < 2 * weight && weight % 2 == 0
    ensures var whole := limb + 0x1_0000_0000_0000_0000 * tail;
            0 <= 2 * whole + 0x1_0000_0000_0000_0000 * weight < 2 * (0x1_0000_0000_0000_0000 * weight)
  {
  }

  lemma {:induction false} ExcessDecides(exact: int, sum: int, overflow: bool, weight: nat)
    requires sum == exact - Excess(overflow, sum < 0, weight) && weight > 0
    requires 0 <= 2 * sum + weight < 2 * weight
    ensures overflow == !(0 <= 2 * exact + weight < 2 * weight)
    ensures !overflow ==> sum == exact
  {
  }

  /** After the last limb OF says exactly whether the sum of the whole signed numbers overflowed. */
  lemma {:induction false} AdcChainOverflow(flags: u64, a: Limbs, b: Limbs)
    requires |a| == |b| > 0
    ensures var (sum, last) := AdcChain(flags, a, b);
            var exact := SignedValue(a) + SignedValue(b) + BoolBit(Bit(flags, CF));
            && Bit(last, OF) == !(0 <= 2 * exact + LimbWeight(|a|) < 2 * LimbWeight(|a|))
            && (!Bit(last, OF) ==> SignedValue(sum) == exact)
  {
    hide AdcLimb, Bit, Signed, SignedValue, LimbWeight;
    ChainExcess(flags, a, b);
    var (sum, last) := AdcChain(flags, a, b);
    SignedRange(sum);
    ExcessDecides(SignedValue(a) + SignedValue(b) + BoolBit(Bit(flags, CF)), SignedValue(sum), Bit(last, OF),
                  LimbWeight(|a|));
  }
}
