/** BT, BTS, BTR and BTC on memory: one bit of a bit string with a signed index. */
module BitString {
  import opened Bits
  import opened MemoryManagement
  import opened CpuState
  import opened LinearMemory
  import opened Stack
  import Flags
  import AluExecute

  datatype BitOp = BitTest | BitSet | BitReset | BitFlip

  predicate OperandBits(bits: nat) {
    bits == 16 || bits == 32 || bits == 64
  }

  function WordOf(bits: nat): (w: nat)
    ensures w > 0
  {
    if bits == 16 then 0x1_0000 else if bits == 32 then 0x1_0000_0000 else WORD
  }

  // Index arithmetic.

  /** The source register as a signed index. */
  function RegisterIndex(raw: nat, bits: nat): int {
    if raw >= WordOf(bits) / 2 then raw - WordOf(bits) else raw
  }

  /** The immediate byte stays within the operand. */
  function ImmediateIndex(immediate: byte, bits: nat): nat
    requires bits > 0
  {
    immediate % bits
  }

  /** The quotient of C, which truncates, turned into a floor; the magnitude is computed without negating the
      smallest integer. */
  function FloorDiv(value: int, divisor: nat): int
    requires divisor > 0
  {
    if value >= 0 then value / divisor
    else
      var magnitude := Wrap(Wrap(-(value + 1)) + 1);
      -((Wrap(magnitude + divisor - 1) / divisor) as int)
  }

  function AddSignedOffset(base: u64, offset: int): u64 {
    if offset >= 0 then Wrap(base + Wrap(offset)) else Wrap(base - Wrap(-offset))
  }

  lemma {:induction false} Magnitude(index: int, bits: nat)
    requires -0x8000_0000_0000_0000 <= index < 0 && 0 < bits <= 64
    ensures FloorDiv(index, bits) == -((-index + bits - 1) / bits)
  {
    assert Wrap(-(index + 1)) == -(index + 1);
    assert Wrap(Wrap(-(index + 1)) + 1) == -index;
    assert Wrap(-index + bits - 1) == -index + bits - 1;
  }

  lemma {:induction false} CeilingNegated(x: int, d: int)
    requires x >= 0 && d > 0
    ensures -((x + d - 1) / d) == -x / d
  {
    var k, r := (x + d - 1) / d, (x + d - 1) % d;
    assert x + d - 1 == d * k + r;
    assert d * -k == -(d * k);
    DivUnique(-x, d, -k, d - 1 - r);
  }

  lemma {:induction false} WrapKeepsLow(index: int, bits: nat)
    requires OperandBits(bits) && -0x8000_0000_0000_0000 <= index < 0x8000_0000_0000_0000
    ensures Wrap(index) % bits == index % bits
  {
    if index >= 0 {
      assert Wrap(index) == index;
    } else {
      assert Wrap(index) == index + 0x1_0000_0000_0000_0000;
      var q, r := index / bits, index % bits;
      assert index == bits * q + r;
      if bits == 16 {
        DivUnique(index + 0x1_0000_0000_0000_0000, 16, q + 0x1000_0000_0000_0000, r);
      } else if bits == 32 {
        DivUnique(index + 0x1_0000_0000_0000_0000, 32, q + 0x800_0000_0000_0000, r);
      } else {
        DivUnique(index + 0x1_0000_0000_0000_0000, 64, q + 0x400_0000_0000_0000, r);
      }
    }
  }

  /** Every 64-bit index is element times width plus bit, with the bit in range: floor division, even for the
      smallest integer. */
  lemma {:induction false} IndexSplits(index: int, bits: nat)
    requires OperandBits(bits) && -0x8000_0000_0000_0000 <= index < 0x8000_0000_0000_0000
    ensures index == bits * FloorDiv(index, bits) + Wrap(index) % bits
    ensures FloorDiv(index, bits) == index / bits
  {
    hide Wrap;
    WrapKeepsLow(index, bits);
    if index < 0 {
      hide FloorDiv;
      Magnitude(index, bits);
      CeilingNegated(-index, bits);
    }
    assert index == bits * (index / bits) + index % bits;
  }

  lemma {:induction false} OffsetAdds(base: u64, offset: int)
    requires -0x8000_0000_0000_0000 <= offset < 0x8000_0000_0000_0000
    ensures AddSignedOffset(base, offset) == Wrap(base + offset)
  {
  }

  // The operation.

  /** Where the element is, and which of its bits. The immediate form stays within the operand. */
  function ElementAddress(base: u64, index: int, bits: nat): u64
    requires bits > 0
  {
    AddSignedOffset(base, FloorDiv(index, bits) * (bits / 8))
  }

  function BitIndex(index: int, bits: nat): nat
    requires bits > 0
  {
    Wrap(index) % bits
  }

  function Complement(x: u64): u64 {
    WORD - 1 - x
  }

  /** 1 << i. */
  function Mask(i: nat): u64 {
    Wrap(Shl(1, i))
  }

  function Apply(op: BitOp, value: nat, i: nat): nat {
    match op
    case BitTest => value
    case BitSet => Or(value, Mask(i))
    case BitReset => And(value, Complement(Mask(i)))
    case BitFlip => Xor(value, Mask(i))
  }

  function WithCarry(c: Cpu, carry: bool): Cpu {
    AluExecute.WithFlags(c, Flags.SetFlag(c.scalar.rflags, Flags.CF, carry))
  }

  function BitStringOp(m: Machine, op: BitOp, base: u64, index: int, bits: nat): Machine
    requires OperandBits(bits)
  {
    var address := ElementAddress(base, index, bits);
    var m1 := Checked(m, address, bits / 8, Read);
    var value := LoadValue(m, address, bits / 8) % WordOf(bits);
    if Pending(m1.cpu) then m1
    else
      var i := BitIndex(index, bits);
      var m2 := m1.(cpu := WithCarry(m1.cpu, Bit(value, i)));
      if op == BitTest then m2 else Store(m2, address, bits / 8, Apply(op, value, i) % WordOf(bits))
  }

  /** execute_bt_operation with a memory operand and no LOCK. */
  method ExecuteBitString(ctx: CpuContext, op: BitOp, base: u64, index: int, bits: nat)
    requires OperandBits(bits)
    modifies ctx`scalar, ctx`exception, ctx.memMgr`host
    ensures ctx.Whole() == BitStringOp(old(ctx.Whole()), op, base, index, bits)
  {
    hide ElementAddress, Checked, LoadValue, Store, Pending, Apply, Bit, BitIndex, Flags.SetFlag;
    var address := ElementAddress(base, index, bits);
    var raw := ReadMemory(ctx, address, bits / 8);
    if Pending(ctx.State()) {
      return;
    }
    var value, i := raw % WordOf(bits), BitIndex(index, bits);
    AluExecute.SetFlags(ctx, Flags.SetFlag(ctx.scalar.rflags, Flags.CF, Bit(value, i)));
    if op != BitTest {
      WriteMemory(ctx, address, bits / 8, Apply(op, value, i) % WordOf(bits));
    }
  }

  /** A register index has the value of the register as a signed number of its width. */
  lemma {:induction false} RegisterIndexSigned(raw: nat, bits: nat)
    requires OperandBits(bits) && raw < WordOf(bits)
    ensures var index := RegisterIndex(raw, bits);
            && -(WordOf(bits) / 2) <= index < WordOf(bits) / 2 && index % WordOf(bits) == raw
            && -0x8000_0000_0000_0000 <= index < 0x8000_0000_0000_0000
  {
  }

  /** The immediate form touches the addressed element itself. */
  lemma {:induction false} ImmediateStays(base: u64, immediate: byte, bits: nat)
    requires OperandBits(bits)
    ensures var index := ImmediateIndex(immediate, bits);
            ElementAddress(base, index, bits) == base && BitIndex(index, bits) == index
  {
    var index := ImmediateIndex(immediate, bits);
    DivUnique(index, bits, 0, index);
    assert FloorDiv(index, bits) * (bits / 8) == 0;
  }

  // Bits of words and of their bytes.

  lemma {:induction false} BitOfMask(i: nat, j: nat)
    ensures Bit(Shl(1, i), j) == (i == j)
    decreases i
  {
    if i == 0 {
      if j > 0 {
        BitOfZero(j - 1);
      }
    } else if j > 0 {
      assert Shl(1, i) / 2 == Shl(1, i - 1);
      BitOfMask(i - 1, j - 1);
    }
  }

  lemma {:induction false} MaskIsPow2(i: nat)
    ensures Shl(1, i) == Pow2(i)
    decreases i
  {
    if i > 0 { MaskIsPow2(i - 1); }
  }

  lemma {:induction false} MaskFits(i: nat)
    requires i < 64
    ensures Mask(i) == Shl(1, i)
  {
    hide Pow2, Shl;
    MaskIsPow2(i);
    Pow2Monotone(i, 63);
    TopPow();
  }

  lemma {:induction false} TopPow()
    ensures Pow2(63) < WORD
  {
    WordIsPow2();
    assert Pow2(64) == 2 * Pow2(63);
  }

  lemma {:induction false} BitOfComplement(x: nat, n: nat, j: nat)
    requires x < Pow2(n) && j < n
    ensures Bit(Pow2(n) - 1 - x, j) == !Bit(x, j)
    decreases n
  {
    if j > 0 {
      assert (Pow2(n) - 1 - x) / 2 == Pow2(n - 1) - 1 - x / 2;
      BitOfComplement(x / 2, n - 1, j - 1);
    }
  }

  function Wanted(op: BitOp, was: bool): bool {
    match op
    case BitTest => was
    case BitSet => true
    case BitReset => false
    case BitFlip => !was
  }

  /** The operation changes bit i as its name says, and no other. */
  lemma {:induction false} ApplyBit(op: BitOp, value: nat, i: nat, j: nat)
    requires i < 64 && j < 64
    ensures Bit(Apply(op, value, i), j) == if j == i then Wanted(op, Bit(value, i)) else Bit(value, j)
  {
    hide Bit, Shl, Or, And, Xor, Mask, Pow2;
    MaskFits(i);
    BitOfMask(i, j);
    BitOfOr(value, Mask(i), j);
    BitOfXor(value, Mask(i), j);
    BitOfAnd(value, Complement(Mask(i)), j);
    WordIsPow2();
    BitOfComplement(Mask(i), 64, j);
  }

  lemma {:induction false} BitModPow2(x: nat, n: nat, j: nat)
    requires j < n
    ensures Bit(x % Pow2(n), j) == Bit(x, j)
    decreases n
  {
    HalfMod(x, n);
    if j > 0 {
      BitModPow2(x / 2, n - 1, j - 1);
    }
  }

  lemma {:induction false} HalfMod(x: nat, n: nat)
    requires n > 0
    ensures (x % Pow2(n)) / 2 == (x / 2) % Pow2(n - 1) && (x % Pow2(n)) % 2 == x % 2
  {
    var h, p := x / 2, Pow2(n - 1);
    var q, r := h / p, h % p;
    assert h == p * q + r;
    assert x == (2 * p) * q + (2 * r + x % 2) by {
      assert (2 * p) * q == 2 * (p * q);
    }
    DivUnique(x, 2 * p, q, 2 * r + x % 2);
  }

  lemma {:induction false} BitAfterByte(x: nat, j: nat)
    ensures Bit(x / 0x100, j) == Bit(x, j + 8)
  {
    assert Bit(x, j + 8) == Bit(x / 2, j + 7) == Bit(x / 4, j + 6) by { Halve(x, j + 8); Halve(x / 2, j + 7); }
    assert Bit(x / 4, j + 6) == Bit(x / 16, j + 4) by { Halve(x / 4, j + 6); Halve(x / 8, j + 5); }
    assert Bit(x / 16, j + 4) == Bit(x / 64, j + 2) by { Halve(x / 16, j + 4); Halve(x / 32, j + 3); }
    assert Bit(x / 64, j + 2) == Bit(x / 0x100, j) by { Halve(x / 64, j + 2); Halve(x / 128, j + 1); }
  }

  lemma {:induction false} Halve(x: nat, j: nat)
    requires j > 0
    ensures Bit(x, j) == Bit(x / 2, j - 1)
  {
  }

  lemma {:induction false} BitOfByte(v: nat, n: nat, k: nat, j: nat)
    requires k < n && j < 8
    ensures Bit(Bytes(v, n)[k], j) == Bit(v, 8 * k + j)
    decreases n
  {
    hide Bit, Pow2;
    if k == 0 {
      WordIsPow2();
      BitModPow2(v, 8, j);
    } else {
      BitOfByte(v / 0x100, n - 1, k - 1, j);
      BitAfterByte(v, 8 * (k - 1) + j);
    }
  }

  // The bit string.

  /** Bit k of the bit string at base: bit k mod 8 of the byte at base plus k / 8, rounded down. */
  function BitAt(mem: Mem, base: u64, k: int): bool {
    Bit(ByteAt(mem, Wrap(base + k / 8)), k % 8)
  }

  /** The address and the bit of an element bit are those of the bit string. */
  lemma {:induction false} ElementIsString(base: u64, index: int, bits: nat)
    requires OperandBits(bits) && -0x8000_0000_0000_0000 <= index < 0x8000_0000_0000_0000
    ensures var i := BitIndex(index, bits);
            && i < bits && Wrap(ElementAddress(base, index, bits) + i / 8) == Wrap(base + index / 8)
               && i % 8 == index % 8
  {
    hide FloorDiv, Wrap, AddSignedOffset;
    IndexSplits(index, bits);
    var q, i, n := FloorDiv(index, bits), BitIndex(index, bits), bits / 8;
    ElementStart(index, bits, q, i);
    OffsetAdds(base, q * n);
    WrapSum(base + q * n, i / 8);
  }

  lemma {:induction false} ElementStart(index: int, bits: nat, q: int, i: nat)
    requires OperandBits(bits) && index == bits * q + i && i < bits
    requires -0x8000_0000_0000_0000 <= index < 0x8000_0000_0000_0000
    ensures index / 8 == q * (bits / 8) + i / 8 && index % 8 == i % 8
    ensures -0x8000_0000_0000_0000 <= q * (bits / 8) < 0x8000_0000_0000_0000
  {
    if bits == 16 {
      DivUnique(index, 8, q * 2 + i / 8, i % 8);
    } else if bits == 32 {
      DivUnique(index, 8, q * 4 + i / 8, i % 8);
    } else {
      DivUnique(index, 8, q * 8 + i / 8, i % 8);
    }
  }

  lemma {:induction false} WrapSum(x: int, y: nat)
    ensures Wrap(Wrap(x) + y) == Wrap(x + y)
  {
  }

  lemma {:induction false} ValueFits(m: Machine, address: u64, bits: nat)
    requires OperandBits(bits) && Accessible(m, address, bits / 8, Read)
    ensures var value := LoadValue(m, address, bits / 8);
            value % WordOf(bits) == value && Bytes(value, bits / 8) == BytesAt(m.mem, address, bits / 8)
  {
    hide Accessible, LittleEndian, Bytes, BytesAt, Pow2;
    WordIsPow2();
    LittleEndianWidth(BytesAt(m.mem, address, bits / 8));
    BytesOfValue(BytesAt(m.mem, address, bits / 8));
  }

  lemma {:induction false} ByteInWindow(mem: Mem, address: u64, n: nat, k: nat)
    requires k < n
    ensures BytesAt(mem, address, n)[k] == ByteAt(mem, Wrap(address + k))
  {
    hide ByteAt;
  }

  /** The bit an element read finds is the bit of the string. */
  lemma {:induction false} ElementBit(m: Machine, base: u64, index: int, bits: nat)
    requires OperandBits(bits) && -0x8000_0000_0000_0000 <= index < 0x8000_0000_0000_0000
    requires Accessible(m, ElementAddress(base, index, bits), bits / 8, Read)
    ensures Bit(LoadValue(m, ElementAddress(base, index, bits), bits / 8) % WordOf(bits), BitIndex(index, bits))
            == BitAt(m.mem, base, index)
  {
    hide Accessible, LoadValue, Bit, Bytes, BytesAt, ByteAt, ElementAddress, BitIndex;
    var address, i := ElementAddress(base, index, bits), BitIndex(index, bits);
    ElementIsString(base, index, bits);
    ValueFits(m, address, bits);
    BitOfByte(LoadValue(m, address, bits / 8), bits / 8, i / 8, i % 8);
    ByteInWindow(m.mem, address, bits / 8, i / 8);
  }

  lemma {:induction false} NewByteBit(op: BitOp, value: nat, i: nat, bits: nat, k: nat, j: nat)
    requires OperandBits(bits) && value < WordOf(bits) && i < bits && k < bits / 8 && j < 8
    ensures Bit(Bytes(Apply(op, value, i) % WordOf(bits), bits / 8)[k], j)
            == if 8 * k + j == i then Wanted(op, Bit(value, i)) else Bit(Bytes(value, bits / 8)[k], j)
  {
    hide Apply, Bit, Bytes, Pow2;
    WordIsPow2();
    BitOfByte(Apply(op, value, i) % WordOf(bits), bits / 8, k, j);
    BitOfByte(value, bits / 8, k, j);
    BitModPow2(Apply(op, value, i), bits, 8 * k + j);
    ApplyBit(op, value, i, 8 * k + j);
  }

  lemma {:induction false} StoredInside(m: Machine, op: BitOp, address: u64, i: nat, bits: nat, value: nat, x: u64,
      k: nat, j: nat)
    requires OperandBits(bits) && i < bits && j < 8 && Unaliased(m.mem) && Mapped(m.mem, x)
    requires Accessible(m, address, bits / 8, Read) && Accessible(m, address, bits / 8, Write)
    requires value == LoadValue(m, address, bits / 8) && k < bits / 8 && x == Wrap(address + k)
    ensures var after := Store(m, address, bits / 8, Apply(op, value, i) % WordOf(bits));
            Bit(ByteAt(after.mem, x), j) == if 8 * k + j == i then Wanted(op, Bit(value, i))
                else Bit(ByteAt(m.mem, x), j)
  {
    hide Apply, Bit, Bytes, BytesAt, ByteAt, Accessible, LoadValue, Store, Unaliased, Mapped, IsByte, Wrap, WordOf,
      Wanted;
    ValueFits(m, address, bits);
    ValueBelow(value, bits);
    StoreChangesExactly(m, address, bits / 8, Apply(op, value, i) % WordOf(bits), x);
    ByteIs(address, k, x);
    NewByteBit(op, value, i, bits, k, j);
    ByteInWindow(m.mem, address, bits / 8, k);
  }

  lemma {:induction false} ValueBelow(value: nat, bits: nat)
    requires value % WordOf(bits) == value
    ensures value < WordOf(bits)
  {
  }

  lemma {:induction false} ByteIs(address: u64, k: nat, x: u64)
    ensures IsByte(address, k, x) == (x == Wrap(address + k))
  {
  }

  lemma {:induction false} StoredOutside(m: Machine, address: u64, n: nat, value: nat, x: u64)
    requires Unaliased(m.mem) && Mapped(m.mem, x) && Accessible(m, address, n, Write) && n <= 8
             && Wrap(x - address) >= n
    ensures ByteAt(Store(m, address, n, value).mem, x) == ByteAt(m.mem, x)
  {
    hide Bytes, ByteAt, Accessible, Store, Unaliased, Mapped, IsByte, Wrap;
    forall o: nat | o < n
      ensures !IsByte(address, o, x)
    {
      ByteOffset(address, o, x);
    }
    StoreChangesExactly(m, address, n, value, x);
  }

  /** One bit of a byte x of memory after the element is written back. */
  lemma {:induction false} StoredBit(m: Machine, op: BitOp, address: u64, i: nat, bits: nat, x: u64, j: nat)
    requires OperandBits(bits) && i < bits && j < 8 && Unaliased(m.mem) && Mapped(m.mem, x)
    requires Accessible(m, address, bits / 8, Read) && Accessible(m, address, bits / 8, Write)
    ensures var value := LoadValue(m, address, bits / 8) % WordOf(bits);
            var after := Store(m, address, bits / 8, Apply(op, value, i) % WordOf(bits));
            Bit(ByteAt(after.mem, x), j)
            == if x == Wrap(address + i / 8) && j == i % 8 then Wanted(op, Bit(value, i)) else Bit(ByteAt(m.mem, x), j)
  {
    hide Apply, Bit, Bytes, BytesAt, ByteAt, Accessible, LoadValue, Store, Unaliased, Mapped, IsByte, Wrap, WordOf,
      Wanted;
    var value := LoadValue(m, address, bits / 8);
    ValueFits(m, address, bits);
    var k := Wrap(x - address);
    if x == Wrap(address + i / 8) {
      SameOffset(address, i / 8, x);
    }
    if k < bits / 8 {
      BackToByte(address, k, x);
      StoredInside(m, op, address, i, bits, value, x, k, j);
      assert x == Wrap(address + i / 8) ==> k == i / 8;
    } else {
      StoredOutside(m, address, bits / 8, Apply(op, value, i) % WordOf(bits), x);
    }
  }

  lemma {:induction false} BackToByte(address: u64, k: nat, x: u64)
    requires k == Wrap(x - address)
    ensures Wrap(address + k) == x
  {
  }

  lemma {:induction false} ByteOffset(address: u64, o: nat, x: u64)
    requires o < 0x1_0000_0000_0000_0000
    ensures IsByte(address, o, x) == (o == Wrap(x - address))
  {
  }

  lemma {:induction false} SameOffset(address: u64, o: nat, x: u64)
    requires o < 0x1_0000_0000_0000_0000 && x == Wrap(address + o)
    ensures Wrap(x - address) == o
  {
  }

  lemma {:induction false} CarryKeeps(m: Machine, carry: bool, address: u64, n: nat)
    ensures var after := m.(cpu := WithCarry(m.cpu, carry));
            && Pending(after.cpu) == Pending(m.cpu)
            && (forall access :: Accessible(after, address, n, access) == Accessible(m, address, n, access))
            && LoadValue(after, address, n) == LoadValue(m, address, n)
  {
    hide FirstFault, Flags.SetFlag, Is64BitCode, BytesAt, LittleEndian;
    var after := m.(cpu := WithCarry(m.cpu, carry));
    SameMode(m.cpu, after.cpu);
    forall access: Access ensures Accessible(after, address, n, access) == Accessible(m, address, n, access) {
      SameFaults(m, after, address, n, access);
    }
  }

  lemma {:induction false} SameMode(c: Cpu, after: Cpu)
    requires after == c.(scalar := c.scalar.(rflags := after.scalar.rflags))
    ensures Is64BitCode(after) == Is64BitCode(c) && Pending(after) == Pending(c) && after.scalar.cpl == c.scalar.cpl
  {
  }

  /** BT, BTS, BTR and BTC act on exactly the bit at the signed index from base, whatever element carries it: CF is
      the old bit, that bit becomes what the operation says, and every other bit of memory stays. */
  lemma {:induction false} ActsOnOneBit(m: Machine, op: BitOp, base: u64, index: int, bits: nat, x: u64, j: nat)
    requires OperandBits(bits) && -0x8000_0000_0000_0000 <= index < 0x8000_0000_0000_0000
    requires Unaliased(m.mem) && Mapped(m.mem, x) && j < 8
    requires var address := ElementAddress(base, index, bits);
             Accessible(m, address, bits / 8, Read) && (op != BitTest ==> Accessible(m, address, bits / 8, Write))
    ensures var after := BitStringOp(m, op, base, index, bits);
            && after.cpu == WithCarry(m.cpu, BitAt(m.mem, base, index))
            && Bit(ByteAt(after.mem, x), j)
               == if x == Wrap(base + index / 8) && j == index % 8 then Wanted(op, BitAt(m.mem, base, index))
                  else Bit(ByteAt(m.mem, x), j)
  {
    hide ElementAddress, BitIndex, Accessible, LoadValue, Store, Bit, ByteAt, Unaliased, Mapped, Apply, WithCarry,
      Pending, Checked;
    var address, i := ElementAddress(base, index, bits), BitIndex(index, bits);
    ElementIsString(base, index, bits);
    ElementBit(m, base, index, bits);
    ReadableChecked(m, address, bits / 8);
    var carry := BitAt(m.mem, base, index);
    var m2 := m.(cpu := WithCarry(m.cpu, carry));
    CarryKeeps(m, carry, address, bits / 8);
    var value := LoadValue(m, address, bits / 8) % WordOf(bits);
    if op != BitTest {
      StoredBit(m2, op, address, i, bits, x, j);
      StoreCpu(m2, address, bits / 8, Apply(op, value, i) % WordOf(bits));
    } else if x == Wrap(base + index / 8) && j == index % 8 {
      assert BitAt(m.mem, base, index) == Bit(ByteAt(m.mem, x), j);
    }
  }

  lemma {:induction false} StoreCpu(m: Machine, address: u64, n: nat, value: nat)
    requires Accessible(m, address, n, Write)
    ensures Store(m, address, n, value).cpu == m.cpu
  {
    hide Accessible, StoreBytes, Bytes;
  }

  lemma {:induction false} ByteFromBits(a: byte, b: byte)
    requires forall j: nat :: j < 8 ==> Bit(a, j) == Bit(b, j)
    ensures a == b
  {
    hide Bit, Pow2;
    forall i: nat ensures Bit(a, i) == Bit(b, i) {
      if i >= 8 {
        WordIsPow2();
        BitAboveWidth(a, 8, i);
        BitAboveWidth(b, 8, i);
      }
    }
    EqualBits(a, b);
  }

  lemma {:induction false} StaysAccessible(m: Machine, op: BitOp, base: u64, index: int, bits: nat)
    requires OperandBits(bits) && op != BitTest && Unaliased(m.mem)
    requires var address := ElementAddress(base, index, bits);
             Accessible(m, address, bits / 8, Read) && Accessible(m, address, bits / 8, Write)
    ensures var after := BitStringOp(m, op, base, index, bits);
            var address := ElementAddress(base, index, bits);
            && Accessible(after, address, bits / 8, Read) && Accessible(after, address, bits / 8, Write)
               && Unaliased(after.mem)
            && forall x: u64 :: Mapped(after.mem, x) == Mapped(m.mem, x)
  {
    hide ElementAddress, BitIndex, Accessible, LoadValue, Store, Bit, Unaliased, Mapped, Apply, WithCarry, Pending,
      Checked;
    var address, i := ElementAddress(base, index, bits), BitIndex(index, bits);
    ReadableChecked(m, address, bits / 8);
    var value := LoadValue(m, address, bits / 8) % WordOf(bits);
    var m2 := m.(cpu := WithCarry(m.cpu, Bit(value, i)));
    CarryKeeps(m, Bit(value, i), address, bits / 8);
    var new_ := Apply(op, value, i) % WordOf(bits);
    StoreKeepsAccess(m2, address, bits / 8, new_, address, bits / 8, Read);
    StoreKeepsAccess(m2, address, bits / 8, new_, address, bits / 8, Write);
    StoreKeepsUnaliased(m2, address, bits / 8, new_);
    forall x: u64 ensures Mapped(Store(m2, address, bits / 8, new_).mem, x) == Mapped(m.mem, x) {
      StoreKeepsFaults(m2, address, bits / 8, new_, x, Write);
    }
  }

  /** BTC twice puts every byte of memory back, and leaves in CF the complement of the bit. */
  lemma {:induction false} FlipTwiceRestores(m: Machine, base: u64, index: int, bits: nat, x: u64)
    requires OperandBits(bits) && -0x8000_0000_0000_0000 <= index < 0x8000_0000_0000_0000
    requires Unaliased(m.mem) && Mapped(m.mem, x)
    requires var address := ElementAddress(base, index, bits);
             Accessible(m, address, bits / 8, Read) && Accessible(m, address, bits / 8, Write)
    ensures var once := BitStringOp(m, BitFlip, base, index, bits);
            var twice := BitStringOp(once, BitFlip, base, index, bits);
            ByteAt(twice.mem, x) == ByteAt(m.mem, x)
            && (Mapped(m.mem, Wrap(base + index / 8)) ==> twice.cpu == WithCarry(once.cpu, !BitAt(m.mem, base, index)))
  {
    hide ElementAddress, BitIndex, Accessible, BitStringOp, Bit, ByteAt, Unaliased, Mapped, WithCarry;
    StaysAccessible(m, BitFlip, base, index, bits);
    var once := BitStringOp(m, BitFlip, base, index, bits);
    var twice := BitStringOp(once, BitFlip, base, index, bits);
    forall j: nat | j < 8 ensures Bit(ByteAt(twice.mem, x), j) == Bit(ByteAt(m.mem, x), j) {
      ActsOnOneBit(m, BitFlip, base, index, bits, x, j);
      ActsOnOneBit(once, BitFlip, base, index, bits, x, j);
    }
    ByteFromBits(ByteAt(twice.mem, x), ByteAt(m.mem, x));
    if Mapped(m.mem, Wrap(base + index / 8)) {
      ActsOnOneBit(m, BitFlip, base, index, bits, Wrap(base + index / 8), index % 8);
      ActsOnOneBit(once, BitFlip, base, index, bits, Wrap(base + index / 8), index % 8);
    }
  }
}
