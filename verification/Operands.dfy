/** Memory operands as an assembler writes them, their encoding, and the address that decoding the encoding gives. */
module Operands {
  import opened Bits
  import opened MemoryManagement
  import opened CpuState
  import opened Flags
  import opened Addressing
  import opened AluDecode

  // The operands.

  /** A memory operand at address size 32 or 64: registers and a displacement of so many bytes, through a SIB byte or
      without, or a displacement against RIP; at address size 16 one of the eight register pairs. */
  datatype Operand =
    | Sum(base: Option<nat>, index: Option<nat>, scale: nat, displacement: int, bytes: nat, sib: bool)
    | Relative(displacement: int)
    | Pair(rm: nat, displacement: int, bytes: nat)

  predicate SignedIn(x: int, bytes: nat) {
    if bytes == 0 then x == 0
    else if bytes == 1 then -0x80 <= x < 0x80
    else if bytes == 2 then -0x8000 <= x < 0x8000
    else -0x8000_0000 <= x < 0x8000_0000
  }

  /** What can be encoded: RSP is no index, RSP and R12 as base need a SIB byte, RBP and R13 a displacement, and no base
      at all needs both. */
  predicate Encodable(o: Operand, addressSize: nat) {
    match o
    case Sum(base, index, scale, displacement, bytes, sib) =>
      && (addressSize == 32 || addressSize == 64) && scale < 4 && bytes in {0, 1, 4}
      && SignedIn(displacement, bytes)
      && (base.Some? ==> base.value < 16 && (bytes == 0 ==> base.value % 8 != 5))
      && (base.None? ==> bytes == 4 && sib)
      && (index.Some? ==> index.value < 16 && index.value != 4)
      && (!sib ==> index == None && base.Some? && base.value % 8 != 4)
    case Relative(displacement) => (addressSize == 32 || addressSize == 64) && SignedIn(displacement, 4)
    case Pair(rm, displacement, bytes) =>
      && addressSize == 16 && rm < 8 && bytes in {0, 1, 2}
      && SignedIn(displacement, if bytes == 0 && rm == 5 then 2 else bytes)
  }

  /** REX.B and REX.X name the upper eight registers, in 64-bit code. */
  predicate RexMatches(o: Operand, p: Prefixes, long: bool) {
    o.Sum? ==>
      && (o.base.Some? ==> (o.base.value >= 8) == (p.rexB && long))
      && (o.index.Some? ==> (o.index.value >= 8) == (p.rexX && long))
      && (o.sib && o.index.None? ==> !(p.rexX && long))
  }

  // The bytes.

  function ModBits(bytes: nat): nat {
    if bytes == 0 then 0 else if bytes == 1 then 1 else 2
  }

  /** The ModRM byte of an operand beside the reg field. */
  function ModrmByte(o: Operand, reg: nat): byte
    requires reg < 8 && exists a :: Encodable(o, a)
  {
    match o
    case Sum(base, _, _, _, bytes, sib) =>
      (if base.None? then 0 else ModBits(bytes)) * 64 + reg * 8 + if sib then 4 else base.value % 8
    case Relative(_) => reg * 8 + 5
    case Pair(rm, _, bytes) => ModBits(bytes) * 64 + reg * 8 + rm
  }

  predicate WithSib(o: Operand) {
    o.Sum? && o.sib
  }

  function SibByte(o: Operand): byte
    requires exists a :: Encodable(o, a)
  {
    if WithSib(o) then
      o.scale * 64 + (if o.index.Some? then o.index.value % 8 else 4) * 8 + if o.base.Some? then o.base.value % 8 else 5
    else 0
  }

  /** The displacement bytes there are; the pair form of DI without displacement has two that are not used. */
  function DisplacementBytes(o: Operand): nat {
    match o
    case Sum(_, _, _, _, bytes, _) => bytes
    case Relative(_) => 4
    case Pair(rm, _, bytes) => if bytes == 0 && rm == 5 then 2 else bytes
  }

  function TwosComplement(x: int, bytes: nat): nat {
    if bytes == 0 then 0 else if bytes == 1 then x % 0x100 else if bytes == 2 then x % 0x1_0000 else x % 0x1_0000_0000
  }

  /** ModRM, SIB and displacement. */
  function Encoded(o: Operand, reg: nat): seq<byte>
    requires reg < 8 && exists a :: Encodable(o, a)
  {
    var n := DisplacementBytes(o);
    [ModrmByte(o, reg)] + (if WithSib(o) then [SibByte(o)] else []) + Bytes(TwosComplement(o.displacement, n), n)
  }

  /** What decoding must find. */
  function Decoded(o: Operand, reg: nat, opcode: byte, addressSize: nat): Inst
    requires reg < 8 && Encodable(o, addressSize)
  {
    Inst(opcode, true, ModrmByte(o, reg), SibByte(o), o.displacement, 0, addressSize, 0)
  }

  // Decoding the bytes.

  lemma {:induction false} FieldsOf(mod: nat, reg: nat, rm: nat)
    requires mod < 4 && reg < 8 && rm < 8
    ensures var b := mod * 64 + reg * 8 + rm;
            b < 0x100 && b / 64 == mod && b / 8 % 8 == reg && b % 8 == rm
  {
  }

  lemma {:induction false} ModrmFields(o: Operand, reg: nat, a: nat)
    requires reg < 8 && Encodable(o, a)
    ensures var b := ModrmByte(o, reg);
            && RegField(b) == reg
            && ModField(b) == (if o.Relative? || (o.Sum? && o.base.None?) then 0 else ModBits(o.bytes))
            && RmField(b) == (if o.Relative? then 5 else if o.Pair? then o.rm
                              else if o.sib then 4 else o.base.value % 8)
  {
    match o
    case Sum(base, _, _, _, bytes, sib) =>
      FieldsOf(if base.None? then 0 else ModBits(bytes), reg, if sib then 4 else base.value % 8);
    case Relative(_) => FieldsOf(0, reg, 5);
    case Pair(rm, _, bytes) => FieldsOf(ModBits(bytes), reg, rm);
  }

  lemma {:induction false} SibFields(o: Operand, a: nat)
    requires Encodable(o, a) && WithSib(o)
    ensures var b := SibByte(o);
            && b / 64 == o.scale
            && b / 8 % 8 == (if o.index.Some? then o.index.value % 8 else 4)
            && b % 8 == (if o.base.Some? then o.base.value % 8 else 5)
  {
    FieldsOf(o.scale, if o.index.Some? then o.index.value % 8 else 4, if o.base.Some? then o.base.value % 8 else 5);
  }

  /** A signed number survives its bytes. */
  lemma {:induction false} SignedRoundTrip(x: int, n: nat)
    requires n in {1, 2, 4} && SignedIn(x, n)
    ensures SignedDisplacement(LittleEndian(Bytes(TwosComplement(x, n), n)), n) == x
  {
    hide Bytes, LittleEndian, TwosComplement, SignedDisplacement, SignedIn, Pow2;
    ComplementFits(x, n);
    ValueOfBytes(TwosComplement(x, n), n);
    ComplementBack(x, n);
  }

  lemma {:induction false} ComplementFits(x: int, n: nat)
    requires n in {1, 2, 4}
    ensures TwosComplement(x, n) < Pow2(8 * n)
  {
    WordIsPow2();
  }

  lemma {:induction false} ComplementBack(x: int, n: nat)
    requires n in {1, 2, 4} && SignedIn(x, n)
    ensures SignedDisplacement(TwosComplement(x, n), n) == x
  {
  }

  lemma {:induction false} SizesAgree(o: Operand, reg: nat, opcode: byte, a: nat)
    requires reg < 8 && Encodable(o, a)
    ensures var inst := Decoded(o, reg, opcode, a);
            && MemoryForm(inst) && HasSib(inst) == WithSib(o)
            && DisplacementSize(inst) == DisplacementBytes(o)
    ensures var inst := Decoded(o, reg, opcode, a).(displacement := 0);
            DisplacementSize(inst) == DisplacementBytes(o)
    ensures DisplacementBytes(o) == 0 ==> o.displacement == 0
  {
    hide ModrmByte, SibByte;
    ModrmFields(o, reg, a);
    if WithSib(o) {
      SibFields(o, a);
    }
  }

  /** Decoding the encoding gives the operand back, behind as many bytes as the encoding has. */
  lemma {:induction false} OperandRoundTrip(o: Operand, reg: nat, opcode: byte, a: nat, code: seq<byte>, offset: nat)
    requires reg < 8 && Encodable(o, a)
    requires offset + |Encoded(o, reg)| <= |code| && code[offset..offset + |Encoded(o, reg)|] == Encoded(o, reg)
    ensures ParseModrm(EmptyInst(opcode, a), code, offset)
            == ModrmParse(true, Decoded(o, reg, opcode, a), offset + |Encoded(o, reg)|)
  {
    hide ModrmByte, SibByte, Encodable, TwosComplement, Bytes, LittleEndian, SignedDisplacement, DisplacementSize,
      HasSib, WithSib, DisplacementBytes;
    var bytes, n := Encoded(o, reg), DisplacementBytes(o);
    SlicedBytes(code, offset, bytes);
    SizesAgree(o, reg, opcode, a);
    SibOnlyThen(o, reg, opcode, a);
    assert code[offset] == ModrmByte(o, reg);
    if WithSib(o) {
      assert bytes[1] == SibByte(o);
    }
    SibZero(o, a);
    if n > 0 {
      var head := [ModrmByte(o, reg)] + if WithSib(o) then [SibByte(o)] else [];
      SlicedRest(code, offset, head, Bytes(TwosComplement(o.displacement, n), n));
      DisplacementFits(o, a);
      SignedRoundTrip(o.displacement, n);
    }
  }

  lemma {:induction false} SlicedBytes(code: seq<byte>, offset: nat, bytes: seq<byte>)
    requires offset + |bytes| <= |code| && code[offset..offset + |bytes|] == bytes
    ensures forall i :: 0 <= i < |bytes| ==> code[offset + i] == bytes[i]
  {
    var part := code[offset..offset + |bytes|];
    forall i | 0 <= i < |bytes|
      ensures code[offset + i] == bytes[i]
    {
      assert part[i] == code[offset + i];
    }
  }

  lemma {:induction false} SlicedRest(code: seq<byte>, offset: nat, head: seq<byte>, rest: seq<byte>)
    requires offset + |head| + |rest| <= |code| && code[offset..offset + |head| + |rest|] == head + rest
    ensures code[offset + |head|..offset + |head| + |rest|] == rest
  {
    SlicedBytes(code, offset, head + rest);
    forall i | 0 <= i < |rest|
      ensures code[offset + |head| + i] == rest[i]
    {
      assert (head + rest)[|head| + i] == code[offset + (|head| + i)];
    }
  }

  /** Whether there is a SIB byte shows in ModRM. */
  lemma {:induction false} SibOnlyThen(o: Operand, reg: nat, opcode: byte, a: nat)
    requires reg < 8 && Encodable(o, a)
    ensures HasSib(EmptyInst(opcode, a).(hasModrm := true, modrm := ModrmByte(o, reg))) == WithSib(o)
  {
    hide ModrmByte, SibByte;
    SizesAgree(o, reg, opcode, a);
  }

  lemma {:induction false} SibZero(o: Operand, a: nat)
    requires Encodable(o, a)
    ensures !WithSib(o) ==> SibByte(o) == 0
  {
  }

  lemma {:induction false} DisplacementFits(o: Operand, a: nat)
    requires Encodable(o, a)
    ensures DisplacementBytes(o) in {0, 1, 2, 4} && SignedIn(o.displacement, DisplacementBytes(o))
  {
  }

  // The address.

  /** A register, and zero for none. */
  function RegisterOr0(c: Cpu, r: Option<nat>): int {
    if r.Some? then c.scalar.regs[r.value % 16] else 0
  }

  /** The registers of the eight pairs. */
  function PairSum(c: Cpu, rm: nat): int {
    var bx: int, bp: int, si: int, di: int := c.scalar.regs[3], c.scalar.regs[5], c.scalar.regs[6], c.scalar.regs[7];
    match rm
    case 0 => bx + si
    case 1 => bx + di
    case 2 => bp + si
    case 3 => bp + di
    case 4 => si
    case 5 => di
    case 6 => bp
    case _ => bx
  }

  /** Base plus index shifted by the scale plus displacement, in the address size. Without a base the displacement
      counts unsigned. Against RIP the length k of the instruction counts too; at address size 32 there is no RIP in it.
      A pair without displacement uses none, and the one of BP alone is then not BP but zero. */
  function OffsetOf(c: Cpu, o: Operand, addressSize: nat, k: nat): int {
    match o
    case Sum(base, index, scale, displacement, _, _) =>
      var sum := RegisterOr0(c, base) + RegisterOr0(c, index) * Pow2(scale)
                 + (if base.Some? then displacement else displacement % 0x1_0000_0000);
      if addressSize == 32 then sum % 0x1_0000_0000 else sum % 0x1_0000_0000_0000_0000
    case Relative(displacement) =>
      if addressSize == 64 then (c.scalar.rip + k + displacement) % 0x1_0000_0000_0000_0000
      else displacement % 0x1_0000_0000
    case Pair(rm, displacement, bytes) =>
      if bytes > 0 then (PairSum(c, rm) + displacement) % 0x1_0000
      else if rm == 6 then 0
      else PairSum(c, rm) % 0x1_0000
  }

  /** SS for RSP, RBP and R13 as base, and for the pairs with BP; without a base REX.B alone still counts as R13. */
  function SegmentFor(c: Cpu, o: Operand): SegmentName {
    match c.scalar.segmentOverride
    case Override(name) => name
    case NoOverride =>
      match o
      case Sum(base, _, _, _, _, _) =>
        if base.Some? then if base.value in {4, 5, 13} then SegSS else SegDS
        else if c.scalar.prefixes.rexB && Is64BitCode(c) then SegSS else SegDS
      case Relative(_) => SegDS
      case Pair(rm, _, bytes) => if rm in {2, 3} || (rm == 6 && bytes > 0) then SegSS else SegDS
  }

  /** In 64-bit code only FS and GS have a base. */
  function BaseOf(c: Cpu, name: SegmentName): u64 {
    match name
    case SegFS => c.scalar.segments.fs.base
    case SegGS => c.scalar.segments.gs.base
    case SegES => if Is64BitCode(c) then 0 else c.scalar.segments.es.base
    case SegCS => if Is64BitCode(c) then 0 else c.scalar.segments.cs.base
    case SegSS => if Is64BitCode(c) then 0 else c.scalar.segments.ss.base
    case SegDS => if Is64BitCode(c) then 0 else c.scalar.segments.ds.base
  }

  lemma {:induction false} BasesAgree(c: Cpu, name: SegmentName)
    ensures SegmentBase(c, name) == BaseOf(c, name)
  {
  }

  /** A word that was cut to 64 bits on the way does not show in the sum. */
  lemma {:induction false} CutWord(x: int, y: int)
    ensures (x + Wrap(y)) % 0x1_0000_0000_0000_0000 == (x + y) % 0x1_0000_0000_0000_0000
    ensures (x + Wrap(y)) % 0x1_0000_0000 == (x + y) % 0x1_0000_0000
  {
    var q := y / 0x1_0000_0000_0000_0000;
    assert y == Wrap(y) + 0x1_0000_0000_0000_0000 * q;
    SameRest(x + Wrap(y), 0x1_0000_0000_0000_0000, q);
    SameRest(x + Wrap(y), 0x1_0000_0000, 0x1_0000_0000 * q);
  }

  lemma {:induction false} SameRest(x: int, d: nat, k: int)
    requires d > 0
    ensures (x + d * k) % d == x % d
  {
    Distribute(x, d, k);
    DivUnique(x + d * k, d, x / d + k, x % d);
  }

  lemma {:induction false} Distribute(x: int, d: nat, k: int)
    requires d > 0
    ensures x + d * k == d * (x / d + k) + x % d
  {
  }

  lemma {:induction false} ShlIsTimes(x: nat, k: nat)
    ensures Shl(x, k) == x * Pow2(k)
  {
    if k > 0 {
      ShlIsTimes(x, k - 1);
      assert 2 * (x * Pow2(k - 1)) == x * (2 * Pow2(k - 1));
    }
  }

  lemma {:induction false} ExtendedIs(r: nat, rex: bool)
    requires r < 16 && (r >= 8) == rex
    ensures Extended(r % 8, rex) == r
  {
  }

  /** What a SIB byte starts from and adds, with the wrap of the shifted index made explicit. */
  lemma {:induction false} SibSum(c: Cpu, o: Operand, reg: nat, opcode: byte, a: nat)
    requires reg < 8 && Encodable(o, a) && WithSib(o) && RexMatches(o, c.scalar.prefixes, Is64BitCode(c))
    ensures var inst := Decoded(o, reg, opcode, a);
            var start := if o.base.Some? then RegisterOr0(c, o.base) else o.displacement % 0x1_0000_0000;
            SibOffset(c, inst, ModField(inst.modrm))
            == start + if o.index.Some? then Wrap(RegisterOr0(c, o.index) * Pow2(o.scale)) else 0
  {
    hide ModrmByte, SibByte, Wrap, Pow2, Shl, Is64BitCode, Extended, Reg, RegisterOr0, SignedIn, ModField;
    ModrmFields(o, reg, a);
    SibFields(o, a);
    if o.base.Some? {
      ExtendedIs(o.base.value, c.scalar.prefixes.rexB && Is64BitCode(c));
      RegIs(c, o.base);
    }
    if o.index.Some? {
      ExtendedIs(o.index.value, c.scalar.prefixes.rexX && Is64BitCode(c));
      RegIs(c, o.index);
      ShlIsTimes(RegisterOr0(c, o.index), o.scale);
    }
  }

  lemma {:induction false} RegIs(c: Cpu, r: Option<nat>)
    requires r.Some?
    ensures Reg(c, r.value) == RegisterOr0(c, r) >= 0
  {
  }

  lemma {:induction false} DisplacementOf(o: Operand, reg: nat, opcode: byte, a: nat)
    requires reg < 8 && Encodable(o, a) && !o.Pair?
    ensures var inst := Decoded(o, reg, opcode, a);
            Displacement(inst, ModField(inst.modrm)) == if o.Sum? && o.base.Some? then o.displacement else 0
  {
    hide ModrmByte, SibByte;
    ModrmFields(o, reg, a);
  }

  /** The offset of an encoded operand is the sum it names. */
  lemma {:induction false} EncodedOffset(c: Cpu, o: Operand, reg: nat, opcode: byte, a: nat, k: nat)
    requires reg < 8 && Encodable(o, a) && RexMatches(o, c.scalar.prefixes, Is64BitCode(c))
    requires a == 16 ==> !Is64BitCode(c)
    ensures EffectiveOffset(c, Decoded(o, reg, opcode, a), k) == OffsetOf(c, o, a, k)
  {
    hide ModrmByte, SibByte, Wrap, Pow2, Is64BitCode, SibOffset, Displacement, Offset16, OffsetOf;
    ModrmFields(o, reg, a);
    match o
    case Sum(_, _, _, _, _, _) => SumOffset(c, o, reg, opcode, a, k);
    case Relative(_) => RelativeOffset(c, o, reg, opcode, a, k);
    case Pair(_, _, _) => PairOffset(c, o, reg, opcode, k);
  }

  lemma {:induction false} SumOffset(c: Cpu, o: Operand, reg: nat, opcode: byte, a: nat, k: nat)
    requires reg < 8 && Encodable(o, a) && o.Sum? && RexMatches(o, c.scalar.prefixes, Is64BitCode(c))
    ensures EffectiveOffset(c, Decoded(o, reg, opcode, a), k) == OffsetOf(c, o, a, k)
  {
    hide ModrmByte, SibByte, Pow2, Is64BitCode, SibOffset, Displacement, Shl;
    ModrmFields(o, reg, a);
    DisplacementOf(o, reg, opcode, a);
    var d := if o.base.Some? then o.displacement else o.displacement % 0x1_0000_0000;
    if o.sib {
      SibSum(c, o, reg, opcode, a);
      CutWord(RegisterOr0(c, o.base) + d, RegisterOr0(c, o.index) * Pow2(o.scale));
    } else {
      assert RegisterOr0(c, o.index) * Pow2(o.scale) == 0;
    }
  }

  lemma {:induction false} RelativeOffset(c: Cpu, o: Operand, reg: nat, opcode: byte, a: nat, k: nat)
    requires reg < 8 && Encodable(o, a) && o.Relative?
    ensures EffectiveOffset(c, Decoded(o, reg, opcode, a), k) == OffsetOf(c, o, a, k)
  {
    hide ModrmByte, SibByte, Is64BitCode, SibOffset, Displacement;
    ModrmFields(o, reg, a);
    DisplacementOf(o, reg, opcode, a);
  }

  lemma {:induction false} PairOffset(c: Cpu, o: Operand, reg: nat, opcode: byte, k: nat)
    requires reg < 8 && Encodable(o, 16) && o.Pair? && !Is64BitCode(c)
    ensures EffectiveOffset(c, Decoded(o, reg, opcode, 16), k) == OffsetOf(c, o, 16, k)
  {
    hide ModrmByte, SibByte, Is64BitCode, SibOffset, Displacement, SignExtend8, PairSum, Offset16;
    ModrmFields(o, reg, 16);
    PairBase(c, o, Decoded(o, reg, opcode, 16));
  }

  lemma {:induction false} PairBase(c: Cpu, o: Operand, inst: Inst)
    requires Encodable(o, 16) && o.Pair? && inst.displacement == o.displacement
    ensures Offset16(c, inst, o.rm, ModBits(o.bytes)) == OffsetOf(c, o, 16, 0)
  {
    hide SignExtend8, PairSum, Reg;
    SmallByte(o.displacement);
    CutHalf(PairSum(c, o.rm), o.displacement);
    PairRegisters(c, o.rm);
  }

  lemma {:induction false} PairRegisters(c: Cpu, rm: nat)
    requires rm < 8
    ensures PairSum(c, rm)
            == match rm
               case 0 => Reg(c, RBX) + Reg(c, RSI)
               case 1 => Reg(c, RBX) + Reg(c, RDI)
               case 2 => Reg(c, RBP) + Reg(c, RSI)
               case 3 => Reg(c, RBP) + Reg(c, RDI)
               case 4 => Reg(c, RSI)
               case 5 => Reg(c, RDI)
               case 6 => Reg(c, RBP)
               case _ => Reg(c, RBX)
  {
  }

  lemma {:induction false} SmallByte(x: int)
    ensures -0x80 <= x < 0x80 ==> SignExtend8(x) == x
  {
  }

  lemma {:induction false} CutHalf(x: int, y: int)
    ensures (x + y % 0x1_0000) % 0x1_0000 == (x + y) % 0x1_0000
  {
    var q := y / 0x1_0000;
    assert y == y % 0x1_0000 + 0x1_0000 * q;
    SameRest(x + y % 0x1_0000, 0x1_0000, q);
  }

  lemma {:induction false} EncodedSegment(c: Cpu, o: Operand, reg: nat, opcode: byte, a: nat)
    requires reg < 8 && Encodable(o, a) && RexMatches(o, c.scalar.prefixes, Is64BitCode(c))
    ensures EffectiveSegment(c, Decoded(o, reg, opcode, a)) == SegmentFor(c, o)
  {
    hide ModrmByte, SibByte, Is64BitCode;
    ModrmFields(o, reg, a);
    if WithSib(o) {
      SibFields(o, a);
    }
  }

  /** The linear address of an encoded operand is the sum it names, in the address size, on top of the base of its
      segment; what the decoder keeps beside the operand does not matter. */
  lemma {:induction false} OperandAddress(c: Cpu, o: Operand, reg: nat, opcode: byte, a: nat, inst: Inst, k: nat)
    requires reg < 8 && Encodable(o, a) && RexMatches(o, c.scalar.prefixes, Is64BitCode(c))
    requires a == 16 ==> !Is64BitCode(c)
    requires inst == Decoded(o, reg, opcode, a).(memAddress := inst.memAddress, immediate := inst.immediate)
    ensures EffectiveSegment(c, inst) == SegmentFor(c, o)
    ensures LinearAddress(c, inst, k)
            == (OffsetOf(c, o, a, k) + BaseOf(c, SegmentFor(c, o))) % 0x1_0000_0000_0000_0000
  {
    hide Decoded, EffectiveOffset, EffectiveSegment, SegmentBase, BaseOf, SegmentFor, OffsetOf, Is64BitCode;
    SameOperandAddress(c, inst, Decoded(o, reg, opcode, a), k);
    EncodedOffset(c, o, reg, opcode, a, k);
    EncodedSegment(c, o, reg, opcode, a);
    BasesAgree(c, SegmentFor(c, o));
  }
}
