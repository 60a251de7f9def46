/** What ADD, SUB, AND and CMP do, from their bytes to the machine they leave: every encoding, with the result, the
    flags and RIP in numbers. */
module Meanings {
  import opened Bits
  import opened MemoryManagement
  import opened CpuState
  import opened LinearMemory
  import opened Stack
  import opened Flags
  import opened Addressing
  import opened RegisterParts
  import opened AluDecode
  import opened AluExecute
  import opened Decoder
  import opened Executor
  import opened Replay
  import opened OpenedEntries
  import opened Operands
  import opened Encodings
  import opened StepLengths

  // The operation.

  /** Byte forms have even opcodes; else REX.W makes the operands qwords, and 66 words. */
  function WidthOf(f: Shape, p: Prefixes): Width {
    if (f.WithRegister? && !f.wide) || (f.Accumulator? && !f.wide) || (f.Group? && f.opcode == 0x80) then 8
    else if p.rexW then 64
    else if p.operandSize then 16
    else 32
  }

  function TargetOf(f: Shape): Location {
    match f
    case WithRegister(_, toRegister, register, location) => if toRegister then Direct(register) else location
    case Accumulator(_, _) => Direct(0)
    case Group(_, location, _) => location
  }

  /** The immediate as wide as the operands: the byte of 83 and the dword of a qword form are sign-extended. */
  function ImmediateOf(f: Shape, w: Width): int
    requires !f.WithRegister?
  {
    if f.Group? && f.opcode == 0x83 then
      (if f.immediate >= 0x80 then f.immediate - 0x100 else f.immediate) % Modulus(w)
    else if w == 64 then
      (if f.immediate >= 0x8000_0000 then f.immediate - 0x1_0000_0000 else f.immediate) % 0x1_0000_0000_0000_0000
    else f.immediate
  }

  /** What stands in a register part or at an address. */
  function ValueAt(m: Machine, location: Location, w: Width, address: u64): nat {
    match location
    case Direct(r) => GetReg(m.cpu, r, w)
    case Memory(_) => LittleEndian(BytesAt(m.mem, address, w as int / 8))
  }

  function SourceValue(m: Machine, f: Shape, w: Width, address: u64): int {
    match f
    case WithRegister(_, toRegister, register, location) =>
      ValueAt(m, if toRegister then location else Direct(register), w, address)
    case Accumulator(_, _) => ImmediateOf(f, w)
    case Group(_, _, _) => ImmediateOf(f, w)
  }

  predicate Fits(w: Width, x: int) {
    -(Modulus(w) / 2) <= x < Modulus(w) / 2
  }

  /** The sum, the difference or the common bits, as wide as the operands. */
  function Answer(op: AluOp, w: Width, a: nat, b: nat): (r: nat)
    requires a < Modulus(w) && b < Modulus(w)
    ensures r < Modulus(w)
  {
    AndWidth(a, b);
    match op
    case Add => (a + b) % Modulus(w)
    case AndOp => And(a, b)
    case _ => (a - b) % Modulus(w)
  }

  /** The flags that the operation leaves on a and b. */
  ghost predicate FlagsOf(op: AluOp, w: Width, before: u64, after: u64, a: nat, b: nat)
    requires a < Modulus(w) && b < Modulus(w)
  {
    match op
    case Add =>
      FlagsRead(w, before, after, Answer(op, w, a, b), a + b >= Modulus(w), a % 16 + b % 16 >= 16,
                !Fits(w, Signed(w, a) + Signed(w, b)))
    case AndOp => FlagsRead(w, before, after, Answer(op, w, a, b), false, Bit(before, 4), false)
    case _ =>
      FlagsRead(w, before, after, Answer(op, w, a, b), a < b, a % 16 < b % 16,
                !Fits(w, Signed(w, a) - Signed(w, b)))
  }

  lemma {:induction false} OperationMeans(op: AluOp, w: Width, flags: u64, a: nat, b: nat)
    requires a < Modulus(w) && b < Modulus(w)
    ensures Result(op, w, a, b) == Answer(op, w, a, b)
    ensures FlagsOf(op, w, flags, FlagsAfter(op, flags, w, a, b), a, b)
  {
    hide FlagsRead, AddFlags, SubFlags, LogicFlags, Signed, Modulus, Bit;
    match op
    case Add => AddFlagsMean(flags, w, a, b);
    case AndOp =>
      AndWidth(a, b);
      SmallLow(w, And(a, b));
      LogicFlagsMean(flags, w, And(a, b));
    case _ => SubFlagsMean(flags, w, a, b);
  }

  // The body on a decoded instruction.

  /** The decoded instruction, with the address of its memory operand if it has one. */
  predicate Decodes(op: AluOp, f: Shape, longCode: bool, p: Prefixes, inst: Inst) {
    ShapeFits(f, longCode, p) && inst == InstOf(op, f, longCode, p).(memAddress := inst.memAddress)
  }

  /** Where the body looks for its operands. */
  lemma {:induction false} OperandsOf(op: AluOp, f: Shape, longCode: bool, c: Cpu, inst: Inst)
    requires Decodes(op, f, longCode, c.scalar.prefixes, inst)
    ensures var w := WidthOf(f, c.scalar.prefixes);
            && AluExecute.Handled(op, inst) && OperandWidth(c, op, inst) == w
            && (f.WithRegister? ==>
                  Destination(c, op, inst) == (if f.toRegister then InRegister(f.register) else InRm)
                  && Source(c, op, inst, w) == if f.toRegister then InRm else InRegister(f.register))
            && (f.Accumulator? ==> Destination(c, op, inst) == InRegister(0))
            && (f.Group? ==> Destination(c, op, inst) == InRm)
            && (!f.WithRegister? ==> Source(c, op, inst, w).Constant?
                                     && Source(c, op, inst, w).value == ImmediateOperand(inst, w)
                                     && inst.immediate == f.immediate && inst.opcode == OpcodeByte(op, f))
            && (!f.Accumulator? ==>
                  && (f.location.Direct? <==> ModField(inst.modrm) == 3)
                  && (f.location.Direct? ==> RmIndex(c, inst) == f.location.register))
  {
    hide OpcodeByte, Encodable, Decoded, AddressBits, ImmediateOperand, LocationInst, Extended, BaseOpcode;
    OpcodeShapes(op, f, longCode, c.scalar.prefixes);
    match f
    case WithRegister(_, _, register, location) =>
      LocationParts(location, register % 8, OpcodeByte(op, f), longCode, c.scalar.prefixes);
      ExtendedIs(register, c.scalar.prefixes.rexR);
      ExtendedTwice(register, c.scalar.prefixes.rexR);
    case Accumulator(_, _) =>
    case Group(_, location, _) =>
      LocationParts(location, Row(op), OpcodeByte(op, f), longCode, c.scalar.prefixes);
  }

  lemma {:induction false} ExtendedTwice(r: nat, rex: bool)
    ensures Extended(r % 8, rex) == Extended(r, rex)
  {
  }

  lemma {:induction false} LocationParts(location: Location, reg: nat, opcode: byte, longCode: bool, p: Prefixes)
    requires reg < 8 && LocationFits(location, longCode, p)
    ensures var inst := LocationInst(location, reg, opcode, longCode, p);
            && inst.opcode == opcode && RegField(inst.modrm) == reg
            && (location.Direct? <==> ModField(inst.modrm) == 3) && MemoryForm(inst) == location.Memory?
            && (location.Direct? ==> Extended(RmField(inst.modrm), p.rexB) == location.register)
  {
    hide Encodable, ModrmByte, SibByte, AddressBits;
    match location
    case Direct(register) =>
      DirectFields(reg, register % 8);
    case Memory(o) =>
      ModrmFields(o, reg, AddressBits(longCode, p));
      SizesAgree(o, reg, opcode, AddressBits(longCode, p));
  }

  lemma {:induction false} ByteImmediate(w: Width, immediate: nat)
    requires immediate < 0x100
    ensures Low(w, SignExtend8(immediate))
            == (if immediate >= 0x80 then immediate - 0x100 else immediate) % Modulus(w)
  {
    hide Modulus;
    assert immediate % 0x100 == immediate;
  }

  lemma {:induction false} DwordImmediate(immediate: nat)
    requires immediate < 0x1_0000_0000
    ensures Low(64, Signed(32, immediate % 0x1_0000_0000))
            == (if immediate >= 0x8000_0000 then immediate - 0x1_0000_0000 else immediate) % 0x1_0000_0000_0000_0000
  {
    assert immediate % 0x1_0000_0000 == immediate;
  }

  lemma {:induction false} ImmediateRange(f: Shape, longCode: bool, p: Prefixes)
    requires ShapeFits(f, longCode, p) && !f.WithRegister?
    ensures f.Group? && f.opcode == 0x83 ==> f.immediate < 0x100
    ensures !(f.Group? && f.opcode == 0x83) ==>
              f.immediate < if WidthOf(f, p) == 64 then 0x1_0000_0000 else Modulus(WidthOf(f, p))
  {
    hide LocationFits, Pow2;
    WordIsPow2();
  }

  lemma {:induction false} ImmediateMeans(op: AluOp, f: Shape, longCode: bool, p: Prefixes, inst: Inst)
    requires ShapeFits(f, longCode, p) && !f.WithRegister?
    requires inst.immediate == f.immediate && inst.opcode == OpcodeByte(op, f)
    ensures var w := WidthOf(f, p);
            0 <= ImmediateOf(f, w) < Modulus(w) && ImmediateOperand(inst, w) == ImmediateOf(f, w)
  {
    hide ShapeFits, OpcodeByte, Low, SignExtend8, Signed, Modulus, WidthOf;
    var w := WidthOf(f, p);
    OpcodeShapes(op, f, longCode, p);
    ImmediateRange(f, longCode, p);
    if f.Group? && f.opcode == 0x83 {
      ByteImmediate(w, f.immediate);
    } else if w == 64 {
      DwordImmediate(f.immediate);
      WordModulus();
    } else {
      SmallLow(w, f.immediate);
    }
  }

  lemma {:induction false} WordModulus()
    ensures Modulus(64) == 0x1_0000_0000_0000_0000
  {
  }

  lemma {:induction false} ValueFits(m: Machine, location: Location, w: Width, address: u64)
    ensures ValueAt(m, location, w, address) < Modulus(w)
  {
    hide GetReg, LittleEndian, BytesAt, Modulus, Pow2;
    LittleEndianWidth(BytesAt(m.mem, address, w as int / 8));
    PowWidth(w);
  }

  /** The location is a register, or memory that may be accessed so. */
  predicate Reachable(m: Machine, location: Location, w: Width, address: u64, access: Access) {
    location.Memory? ==> Accessible(m, address, w as int / 8, access)
  }

  /** Reading an operand through ModRM. */
  lemma {:induction false} ReadsLocation(m: Machine, inst: Inst, w: Width, location: Location)
    requires location.Direct? <==> ModField(inst.modrm) == 3
    requires location.Direct? ==> RmIndex(m.cpu, inst) == location.register
    requires !Pending(m.cpu) && Reachable(m, location, w, inst.memAddress, Read)
    ensures ReadOperand(m, inst, w, InRm) == (m, ValueAt(m, location, w, inst.memAddress))
  {
    hide GetReg, LittleEndian, BytesAt, ModField, RmIndex, Accessible, Checked;
    if location.Memory? {
      CheckedPends(m, inst.memAddress, w as int / 8, Read);
    }
  }

  /** Writing one. */
  lemma {:induction false} WritesLocation(m: Machine, inst: Inst, w: Width, location: Location, value: nat)
    requires value < Modulus(w)
    requires location.Direct? <==> ModField(inst.modrm) == 3
    requires location.Direct? ==> RmIndex(m.cpu, inst) == location.register
    requires Reachable(m, location, w, inst.memAddress, Write)
    ensures WriteOperand(m, inst, w, InRm, value) == Placed(m, location, w, inst.memAddress, value)
  {
    hide SetReg, Accessible, ModField, RmIndex, Modulus;
  }

  /** The machine with a value put into a register part or memory. */
  function Placed(m: Machine, location: Location, w: Width, address: u64, value: nat): Machine
    requires value < Modulus(w)
  {
    match location
    case Direct(r) => m.(cpu := SetReg(m.cpu, r, w, value))
    case Memory(_) => m.(mem := StoreBytes(m.mem, address, Bytes(value, w as int / 8)))
  }

  predicate UsesMemory(f: Shape) {
    !f.Accumulator? && f.location.Memory?
  }

  /** Every byte the instruction touches may be touched. */
  predicate MayRun(op: AluOp, m: Machine, f: Shape, w: Width, address: u64) {
    && (UsesMemory(f) ==> Accessible(m, address, w as int / 8, Read))
    && (op != Cmp ==> Reachable(m, TargetOf(f), w, address, Write))
  }

  /** The two operands and the machine behind the operation: the answer in the first operand unless it only compares,
      the flags of the operation, and nothing else changed. */
  ghost predicate Performs(op: AluOp, f: Shape, w: Width, address: u64, before: Machine, after: Machine) {
    var a, b := ValueAt(before, TargetOf(f), w, address), SourceValue(before, f, w, address);
    && a < Modulus(w) && 0 <= b < Modulus(w)
    && FlagsOf(op, w, before.cpu.scalar.rflags, after.cpu.scalar.rflags, a, b)
    && var flagged := before.(cpu := before.cpu.(scalar := before.cpu.scalar.(rflags := after.cpu.scalar.rflags)));
       after == if op == Cmp then flagged else Placed(flagged, TargetOf(f), w, address, Answer(op, w, a, b))
  }

  lemma {:induction false} ReadsOperands(op: AluOp, f: Shape, longCode: bool, m: Machine, inst: Inst)
    requires Decodes(op, f, longCode, m.cpu.scalar.prefixes, inst) && !Pending(m.cpu)
    requires MayRun(op, m, f, WidthOf(f, m.cpu.scalar.prefixes), inst.memAddress)
    ensures var w := WidthOf(f, m.cpu.scalar.prefixes);
            && ReadOperand(m, inst, w, Destination(m.cpu, op, inst))
               == (m, ValueAt(m, TargetOf(f), w, inst.memAddress))
            && ReadOperand(m, inst, w, Source(m.cpu, op, inst, w)) == (m, SourceValue(m, f, w, inst.memAddress))
            && ValueAt(m, TargetOf(f), w, inst.memAddress) < Modulus(w)
            && 0 <= SourceValue(m, f, w, inst.memAddress) < Modulus(w)
  {
    hide InstOf, ShapeFits, WidthOf, GetReg, LittleEndian, BytesAt, ModField, RmIndex, Accessible, Checked, Modulus,
      Destination, Source, OpcodeByte, ImmediateOperand, ImmediateOf;
    var w := WidthOf(f, m.cpu.scalar.prefixes);
    OperandsOf(op, f, longCode, m.cpu, inst);
    ValueFits(m, TargetOf(f), w, inst.memAddress);
    match f
    case WithRegister(_, toRegister, register, location) =>
      ReadsLocation(m, inst, w, location);
      ValueFits(m, location, w, inst.memAddress);
      ValueFits(m, Direct(register), w, inst.memAddress);
    case Accumulator(_, _) =>
      ImmediateMeans(op, f, longCode, m.cpu.scalar.prefixes, inst);
    case Group(_, location, _) =>
      ReadsLocation(m, inst, w, location);
      ImmediateMeans(op, f, longCode, m.cpu.scalar.prefixes, inst);
  }

  lemma {:induction false} WritesResult(op: AluOp, f: Shape, longCode: bool, m: Machine, inst: Inst, flags: u64,
      value: nat)
    requires Decodes(op, f, longCode, m.cpu.scalar.prefixes, inst) && !Pending(m.cpu) && op != Cmp
    requires MayRun(op, m, f, WidthOf(f, m.cpu.scalar.prefixes), inst.memAddress)
    requires value < Modulus(WidthOf(f, m.cpu.scalar.prefixes))
    ensures var w := WidthOf(f, m.cpu.scalar.prefixes);
            var flagged := m.(cpu := WithFlags(m.cpu, flags));
            WriteOperand(flagged, inst, w, Destination(m.cpu, op, inst), value)
            == Placed(flagged, TargetOf(f), w, inst.memAddress, value)
  {
    hide InstOf, ShapeFits, WidthOf, SetReg, ModField, RmIndex, Accessible, Modulus, Destination, Source, OpcodeByte,
      ImmediateOperand, Placed;
    var w := WidthOf(f, m.cpu.scalar.prefixes);
    var flagged := m.(cpu := WithFlags(m.cpu, flags));
    OperandsOf(op, f, longCode, m.cpu, inst);
    FlagsKeepAccess(m, flags, inst, w);
    UnfoldPlaced(flagged, TargetOf(f), w, inst.memAddress, value);
    if !f.Accumulator? {
      if TargetOf(f) == f.location {
        if Destination(m.cpu, op, inst) == InRm {
          WritesLocation(flagged, inst, w, f.location, value);
        }
      }
    }
  }

  lemma {:induction false} UnfoldPlaced(m: Machine, location: Location, w: Width, address: u64, value: nat)
    requires value < Modulus(w)
    ensures location.Direct? ==>
              Placed(m, location, w, address, value) == m.(cpu := SetReg(m.cpu, location.register, w, value))
  {
    hide SetReg, Modulus;
  }

  lemma {:induction false} FlagsKeepAccess(m: Machine, flags: u64, inst: Inst, w: Width)
    ensures var flagged := m.(cpu := WithFlags(m.cpu, flags));
            && Accessible(flagged, inst.memAddress, w as int / 8, Write)
               == Accessible(m, inst.memAddress, w as int / 8, Write)
            && RmIndex(flagged.cpu, inst) == RmIndex(m.cpu, inst) && Pending(flagged.cpu) == Pending(m.cpu)
  {
    hide FirstFault, FaultAt;
    var flagged := m.(cpu := WithFlags(m.cpu, flags));
    SameFaults(m, flagged, inst.memAddress, w as int / 8, Write);
  }

  /** The body of the instruction performs the operation it is named after. */
  lemma {:induction false} BodyMeans(op: AluOp, f: Shape, longCode: bool, m: Machine, inst: Inst)
    requires Decodes(op, f, longCode, m.cpu.scalar.prefixes, inst) && !Pending(m.cpu)
    requires MayRun(op, m, f, WidthOf(f, m.cpu.scalar.prefixes), inst.memAddress)
    ensures Performs(op, f, WidthOf(f, m.cpu.scalar.prefixes), inst.memAddress, m, Execute(op, m, inst))
  {
    hide *;
    var w := WidthOf(f, m.cpu.scalar.prefixes);
    OperandsOf(op, f, longCode, m.cpu, inst);
    UnfoldExecute(op, m, inst);
    ReadsOperands(op, f, longCode, m, inst);
    var a, b := ValueAt(m, TargetOf(f), w, inst.memAddress), SourceValue(m, f, w, inst.memAddress);
    var flags := FlagsAfter(op, m.cpu.scalar.rflags, w, a, b);
    OperationMeans(op, w, m.cpu.scalar.rflags, a, b);
    if op != Cmp {
      WritesResult(op, f, longCode, m, inst, flags, Answer(op, w, a, b));
    }
    Performed(op, f, w, inst.memAddress, m, flags);
  }

  lemma {:induction false} Performed(op: AluOp, f: Shape, w: Width, address: u64, m: Machine, flags: u64)
    requires !Pending(m.cpu)
    requires var a, b := ValueAt(m, TargetOf(f), w, address), SourceValue(m, f, w, address);
             a < Modulus(w) && 0 <= b < Modulus(w) && FlagsOf(op, w, m.cpu.scalar.rflags, flags, a, b)
    ensures var a, b := ValueAt(m, TargetOf(f), w, address), SourceValue(m, f, w, address);
            var flagged := m.(cpu := WithFlags(m.cpu, flags));
            Performs(op, f, w, address, m,
                     if op == Cmp then flagged else Placed(flagged, TargetOf(f), w, address, Answer(op, w, a, b)))
  {
    hide FlagsOf, Modulus, ValueAt, SourceValue, Answer, TargetOf, SetReg;
    var a, b := ValueAt(m, TargetOf(f), w, address), SourceValue(m, f, w, address);
    PlacedKeepsFlags(m.(cpu := WithFlags(m.cpu, flags)), TargetOf(f), w, address, Answer(op, w, a, b));
  }

  lemma {:induction false} PlacedKeepsFlags(m: Machine, location: Location, w: Width, address: u64, value: nat)
    requires value < Modulus(w)
    ensures Placed(m, location, w, address, value).cpu.scalar.rflags == m.cpu.scalar.rflags
  {
    hide SetReg, Modulus;
    if location.Direct? {
      SetRegFrame(m.cpu, location.register, w, value);
    }
  }

  // The entry.

  /** The last segment prefix. */
  function SegmentIn(pre: seq<byte>): Override {
    if pre == [] then NoOverride
    else
      match pre[|pre| - 1]
      case 0x26 => Override(SegES)
      case 0x2E => Override(SegCS)
      case 0x36 => Override(SegSS)
      case 0x3E => Override(SegDS)
      case 0x64 => Override(SegFS)
      case 0x65 => Override(SegGS)
      case _ => SegmentIn(pre[..|pre| - 1])
  }

  lemma {:induction false} SegmentPeeked(pre: seq<byte>, rest: seq<byte>)
    ensures PeekSegment(pre + rest, |pre|) == SegmentIn(pre)
    decreases |pre|
  {
    if pre != [] {
      var last := |pre| - 1;
      assert pre + rest == pre[..last] + ([pre[last]] + rest);
      assert (pre + rest)[last] == pre[last];
      SegmentPeeked(pre[..last], [pre[last]] + rest);
    }
  }

  /** REX bytes are prefixes in 64-bit code only. */
  predicate PrefixRunFor(pre: seq<byte>, long: bool) {
    forall b :: b in pre ==> PrefixByte(b) && (0x40 <= b <= 0x4F ==> long)
  }

  lemma {:induction false} PeekStops(mode: nat, pre: seq<byte>, rest: seq<byte>)
    requires PrefixRunFor(pre, RexAllowed(mode)) && rest != [] && !PrefixByte(rest[0])
    ensures PrefixLength(mode, pre + rest, 0) == |pre|
  {
    hide PrefixLength, RexAllowed;
    var code, n := pre + rest, PrefixLength(mode, pre + rest, 0);
    forall i | 0 <= i < |pre|
      ensures SkippedByPeek(mode, code[i])
    {
      assert code[i] == pre[i] && pre[i] in pre;
    }
    assert code[|pre|] == rest[0];
  }

  lemma {:induction false} GroupReg(op: AluOp, f: Shape, longCode: bool, p: Prefixes, code: seq<byte>, at: nat)
    requires ShapeFits(f, longCode, p) && f.Group?
    requires at + |Tail(op, f, longCode, p)| <= |code|
    requires code[at..at + |Tail(op, f, longCode, p)|] == Tail(op, f, longCode, p)
    ensures PeekReg(code, at) == Row(op)
  {
    hide OpcodeByte, Bytes, Pow2, Encodable, Encoded, ModrmByte, SibByte;
    var head, rest := LocationBytes(f.location, Row(op)), Bytes(f.immediate, ImmediateBytes(f, p));
    SlicedBytes(code, at, head + rest);
    LocationBegins(f.location, Row(op), longCode, p);
    assert code[at] == head[0];
  }

  lemma {:induction false} LocationBegins(location: Location, reg: nat, longCode: bool, p: Prefixes)
    requires reg < 8 && LocationFits(location, longCode, p)
    ensures LocationBytes(location, reg) != [] && RegField(LocationBytes(location, reg)[0]) == reg
  {
    hide Bytes, Encodable, ModrmByte, SibByte, AddressBits;
    match location
    case Direct(register) => DirectFields(reg, register % 8);
    case Memory(o) => ModrmFields(o, reg, AddressBits(longCode, p));
  }

  lemma {:induction false} RoutesToOp(op: AluOp, f: Shape, longCode: bool, p: Prefixes, reg: nat)
    requires ShapeFits(f, longCode, p) && (f.Group? ==> reg == Row(op)) && (!f.Group? ==> reg == 0xFF)
    ensures AluRoute(OpcodeByte(op, f), reg) == Some(op)
    ensures OpcodeByte(op, f) < 0x84 && OpcodeByte(op, f) != 0x0F
  {
    hide LocationFits, Pow2;
  }

  lemma {:induction false} PlainOpcode(code: seq<byte>, n: nat, reg: nat)
    requires n < |code| && code[n] != 0x0F && code[n] < 0x84 && AluRoute(code[n], reg).Some?
    ensures var opc := OpcodeAt(code, n);
            && opc == code[n] && opc !in {0xF4, 0xCC, 0xF1, 0x0F0B, 0xC3, 0xC2} && !EscapeOwnedUd(opc)
            && !(0x70 <= opc <= 0x7F) && !(0x0F80 <= opc <= 0x0F8F) && opc % 0x100 == opc
  {
  }

  lemma {:induction false} ClassifiesPlain(isa: Isa, mode: nat, code: seq<byte>, n: nat, opc: nat)
    requires n < |code| && opc !in {0xF4, 0xCC, 0xF1, 0x0F0B, 0xC3, 0xC2} && !EscapeOwnedUd(opc)
    requires !(0x70 <= opc <= 0x7F) && !(0x0F80 <= opc <= 0x0F8F)
    ensures Classify(isa, mode, code, n, opc)
            == Install(StartEntry(isa, mode, code, n, opc).(branch := Branches(code, n, opc)),
                       Ladder(isa, mode, code, n, opc), ClassifyNoFault(code, n, opc))
  {
    hide ClassifyNoFault, EscapeOwnedUd, RetOperandSize, LittleEndian, Branches, SignedByte, SignedDword, LongCodeBit,
      Ladder, Install, StartEntry;
  }

  lemma {:induction false} LadderTo(isa: Isa, mode: nat, code: seq<byte>, n: nat, op: AluOp)
    requires n < |code| && isa.other(code, mode) == None && OpcodeAt(code, n) % 0x100 == code[n]
    requires AluRoute(code[n], if code[n] in {0x80, 0x81, 0x83} then PeekReg(code, n + 1) else 0xFF) == Some(op)
    ensures Ladder(isa, mode, code, n, OpcodeAt(code, n)) == Verdict.Handled(Alu(op), false)
  {
    hide AluRoute, PeekReg, OpcodeAt;
  }

  lemma {:induction false} ClassifiedTo(isa: Isa, mode: nat, code: seq<byte>, n: nat, op: AluOp)
    requires n < |code| && code[n] != 0x0F && isa.other(code, mode) == None && code[n] < 0x84
    requires AluRoute(code[n], if code[n] in {0x80, 0x81, 0x83} then PeekReg(code, n + 1) else 0xFF) == Some(op)
    ensures Classify(isa, mode, code, n, OpcodeAt(code, n)).handler == Alu(op)
  {
    hide Classify, ClassifyNoFault, AluRoute, PeekReg, OpcodeAt, EscapeOwnedUd, Branches, StartEntry, Ladder;
    PlainOpcode(code, n, if code[n] in {0x80, 0x81, 0x83} then PeekReg(code, n + 1) else 0xFF);
    ClassifiesPlain(isa, mode, code, n, OpcodeAt(code, n));
    LadderTo(isa, mode, code, n, op);
  }

  /** The bytes behind prefixes, laid out. */
  lemma {:induction false} Layout(op: AluOp, f: Shape, longCode: bool, pre: seq<byte>, rest: seq<byte>)
    requires ShapeFits(f, longCode, PrefixesIn(pre))
    ensures var p := PrefixesIn(pre);
            var tail, code := Tail(op, f, longCode, p), pre + Encode(op, f, longCode, p) + rest;
            && code == pre + ([OpcodeByte(op, f)] + tail + rest) && |pre| + 1 + |tail| <= |code|
            && code[|pre|] == OpcodeByte(op, f) && code[|pre| + 1..|pre| + 1 + |tail|] == tail
            && |pre + Encode(op, f, longCode, p)| == |pre| + 1 + |tail|
  {
    hide PrefixesIn, OpcodeByte, Tail, Encode, ShapeFits;
    EncodeTail(op, f, longCode, PrefixesIn(pre));
  }

  /** The ladder finds the handler of the operation, and the override. */
  lemma {:induction false} EncodedEntry(isa: Isa, mode: nat, op: AluOp, f: Shape, longCode: bool, pre: seq<byte>,
      rest: seq<byte>)
    requires PrefixRunFor(pre, RexAllowed(mode)) && ShapeFits(f, longCode, PrefixesIn(pre))
    requires var code := pre + Encode(op, f, longCode, PrefixesIn(pre)) + rest;
             isa.special(code) == None && isa.other(code, mode) == None
    ensures var e := StaticEntry(isa, mode, pre + Encode(op, f, longCode, PrefixesIn(pre)) + rest);
            e.handler == Alu(op) && e.segmentOverride == SegmentIn(pre)
  {
    hide *;
    var p := PrefixesIn(pre);
    var tail, code := Tail(op, f, longCode, p), pre + Encode(op, f, longCode, p) + rest;
    Layout(op, f, longCode, pre, rest);
    OpcodeShapes(op, f, longCode, p);
    PeekStops(mode, pre, [OpcodeByte(op, f)] + tail + rest);
    SegmentPeeked(pre, [OpcodeByte(op, f)] + tail + rest);
    UnfoldShape(f, longCode, p);
    if f.Group? {
      GroupReg(op, f, longCode, p, code, |pre| + 1);
    }
    RoutesToOp(op, f, longCode, p, if f.Group? then PeekReg(code, |pre| + 1) else 0xFF);
    ClassifiedTo(isa, mode, code, |pre|, op);
    StaticIs(isa, mode, code);
    EntryFields(isa, mode, code);
  }

  lemma {:induction false} UnfoldShape(f: Shape, longCode: bool, p: Prefixes)
    requires ShapeFits(f, longCode, p)
    ensures f.Group? ==> f.opcode in {0x80, 0x81, 0x83}
    ensures forall op :: f.Group? ==> OpcodeByte(op, f) == f.opcode
  {
    hide LocationFits, Pow2;
  }

  lemma {:induction false} StaticIs(isa: Isa, mode: nat, code: seq<byte>)
    requires isa.special(code) == None && PrefixLength(mode, code, 0) < |code|
    ensures var n := PrefixLength(mode, code, 0);
            StaticEntry(isa, mode, code) == Classify(isa, mode, code, n, OpcodeAt(code, n))
  {
    hide Classify, PrefixLength, OpcodeAt;
  }

  // The handlers.

  /** The state in which the body runs: prefixes and size stamped. */
  function Ready(c: Cpu, p: Prefixes, length: nat): Cpu {
    StampSize(Stamp(c, p), length)
  }

  function Live(c: Cpu, inst: Inst, length: nat): Inst {
    if MemoryForm(inst) then inst.(memAddress := LinearAddress(c, inst, length)) else inst
  }

  /** Both address checks of a decoder would pass. */
  predicate Addressable(c: Cpu, inst: Inst, length: nat) {
    MemoryForm(inst) && Is64BitCode(c) ==>
      Canonical(LinearAddress(c, inst, length)) && (RipRelative(inst) ==> Canonical(LinearAddress(c, inst, 0)))
  }

  lemma {:induction false} PassesChecks(c: Cpu, inst: Inst, length: nat)
    requires Addressable(c, inst, length) && MemoryForm(inst) && !Pending(c)
    ensures ValidateOperand(c, inst, length) == c && ValidateOperand(c, inst, 0) == c
  {
    hide LinearAddress, EffectiveSegment, Canonical, Is64BitCode, MemoryForm, RipRelative, Pending;
    ValidateKinds(c, inst, length);
    ValidateKinds(c, inst, 0);
    LengthMatters(c, inst, length);
  }

  lemma {:induction false} UnfoldReadyState(c: Cpu, p: Prefixes, length: nat)
    ensures var t := Ready(c, p, length);
            && t.scalar.prefixes == p && t.scalar.lastInstSize == length && Pending(t) == Pending(c)
            && Is64BitCode(t) == Is64BitCode(c) && t.scalar.segments == c.scalar.segments
            && t == StampSize(Stamp(c, p), length)
            && t.scalar.rip == c.scalar.rip && t.scalar.segmentOverride == c.scalar.segmentOverride
  {
  }

  lemma {:induction false} FastIs(m: Machine, payload: Payload, code: seq<byte>)
    requires !Pending(m.cpu) && PayloadOf(payload, m.cpu.scalar.segments.cs.longMode, code)
    requires var p := Parse(payload.op, m.cpu.scalar.segments.cs.longMode, code);
             Addressable(Ready(m.cpu, p.prefixes, p.length), p.inst, p.length)
    ensures var p := Parse(payload.op, m.cpu.scalar.segments.cs.longMode, code);
            var t := Ready(m.cpu, p.prefixes, p.length);
            Fast(m, payload) == Execute(payload.op, m.(cpu := t), Live(t, p.inst, p.length))
  {
    hide Execute, ValidateOperand, LinearAddress, MemoryForm, Addressable, Parse, Ready, Fast, PayloadOf, Pending;
    var p := Parse(payload.op, m.cpu.scalar.segments.cs.longMode, code);
    var t := Ready(m.cpu, p.prefixes, p.length);
    UnfoldPayload(payload, m.cpu.scalar.segments.cs.longMode, code);
    UnfoldReadyState(m.cpu, p.prefixes, p.length);
    if MemoryForm(p.inst) {
      MemoryFast(m, payload, p);
      PassesChecks(t, p.inst, p.length);
      StampedValidate(Stamp(m.cpu, p.prefixes), p.inst, p.length, p.length);
    } else {
      PlainFast(m, payload, p);
      SameWhole(payload, m.cpu.scalar.segments.cs.longMode, code);
    }
  }

  lemma {:induction false} PlainFast(m: Machine, payload: Payload, p: Parsed)
    requires payload.inst == p.inst.(memAddress := payload.inst.memAddress) && !MemoryForm(p.inst)
    requires payload.prefixes == p.prefixes && payload.length == p.length
    ensures Fast(m, payload) == Execute(payload.op, m.(cpu := Ready(m.cpu, p.prefixes, p.length)), payload.inst)
  {
    hide Execute, ValidateOperand, LinearAddress, MemoryForm;
    SameForm(payload.inst, p.inst);
  }

  lemma {:induction false} SameWhole(payload: Payload, longCode: bool, code: seq<byte>)
    requires PayloadOf(payload, longCode, code)
    ensures !MemoryForm(Parse(payload.op, longCode, code).inst) ==>
              payload.inst == Parse(payload.op, longCode, code).inst
  {
    hide Parse, MemoryForm;
  }

  lemma {:induction false} LegacyIs(op: AluOp, m: Machine, code: seq<byte>)
    requires var p := Parse(op, m.cpu.scalar.segments.cs.longMode, code);
             && !Pending(m.cpu) && Clean(p) && Addressable(Ready(m.cpu, p.prefixes, p.length), p.inst, p.length)
    ensures var p := Parse(op, m.cpu.scalar.segments.cs.longMode, code);
            var t := Ready(m.cpu, p.prefixes, p.length);
            Legacy(op, m, code) == Execute(op, m.(cpu := t), Live(t, p.inst, p.length))
  {
    hide Execute, ValidateOperand, LinearAddress, MemoryForm, Addressable, Parse, Ready, Legacy, RipRelative, Decode,
      DecodedInst, Pending;
    var p := Parse(op, m.cpu.scalar.segments.cs.longMode, code);
    var s, t := Stamp(m.cpu, p.prefixes), Ready(m.cpu, p.prefixes, p.length);
    UnfoldLegacy(op, m, code);
    UnfoldReadyState(m.cpu, p.prefixes, p.length);
    StampPending(m.cpu, p.prefixes);
    if MemoryForm(p.inst) {
      MemoryDecode(op, m.cpu, code, p);
      StampedValidate(s, p.inst, p.length, p.length);
      StampedValidate(s, p.inst, 0, p.length);
      StampedAddressable(s, p.inst, p.length);
      PassesChecks(s, p.inst, p.length);
    } else {
      PlainDecode(op, m.cpu, code, p);
    }
  }

  lemma {:induction false} StampedAddressable(s: Cpu, inst: Inst, length: nat)
    ensures Addressable(StampSize(s, length), inst, length) == Addressable(s, inst, length)
  {
    hide LinearAddress, MemoryForm, RipRelative, Is64BitCode, Canonical;
    StampedValidate(s, inst, length, length);
    StampedValidate(s, inst, 0, length);
  }

  lemma {:induction false} PlainDecode(op: AluOp, c: Cpu, code: seq<byte>, p: Parsed)
    requires !Pending(c) && p == Parse(op, c.scalar.segments.cs.longMode, code) && Clean(p) && !MemoryForm(p.inst)
    ensures Decode(op, c, code) == StampSize(Stamp(c, p.prefixes), p.length) && DecodedInst(op, c, code) == p.inst
  {
    hide Parse, LinearAddress, ValidateOperand, MemoryForm;
    SameForm(p.inst, p.inst);
  }

  /** With the checks passed, fast and legacy handler both run the body on the decoded instruction. */
  lemma {:induction false} HandlerIs(isa: Isa, m: Machine, c: Cpu, op: AluOp, code: seq<byte>)
    requires ReadyToDecode(c) && SameMode(c, m.cpu) && isa.special(code) == None && !Pending(m.cpu)
    requires code != [] && StaticEntry(isa, ModeBits(c), code).handler == Alu(op)
    requires var p := Parse(op, m.cpu.scalar.segments.cs.longMode, code);
             Clean(p) && Addressable(Ready(m.cpu, p.prefixes, p.length), p.inst, p.length)
    ensures var p := Parse(op, m.cpu.scalar.segments.cs.longMode, code);
            var t := Ready(m.cpu, p.prefixes, p.length);
            RunHandler(isa, m, DecodeAt(isa, c, code)) == Execute(op, m.(cpu := t), Live(t, p.inst, p.length))
    ensures SameStatic(DecodeAt(isa, c, code), StaticEntry(isa, ModeBits(c), code))
  {
    hide *;
    var e, a := StaticEntry(isa, ModeBits(c), code), DecodeAt(isa, c, code);
    UnfoldReady(c);
    UnfoldMode(c, m.cpu);
    AluEntry(isa, ModeBits(c), code);
    CanInstall(e);
    DecodedFrom(isa, c, code);
    AttachAlu(isa, e, c);
    StaticFields(a, e);
    RunsOf(isa, m, a);
    if a.fast.Some? {
      ProbeIsClean(op, c, code);
      FastIs(m, a.fast.value.payload, code);
    } else {
      LegacyIs(op, m, code);
    }
  }

  lemma {:induction false} DecodedFrom(isa: Isa, c: Cpu, code: seq<byte>)
    requires isa.special(code) == None && code != []
    ensures DecodeAt(isa, c, code) == Attach(isa, StaticEntry(isa, ModeBits(c), code), c)
  {
    hide StaticEntry, Attach, ModeBits;
  }

  // The step.

  /** The linear address of the memory operand, if there is one, with an instruction of this length. */
  function AddressOf(c: Cpu, f: Shape, longCode: bool, length: nat): u64 {
    if !UsesMemory(f) then 0
    else
      var o := f.location.operand;
      (OffsetOf(c, o, AddressBits(longCode, c.scalar.prefixes), length) + BaseOf(c, SegmentFor(c, o)))
      % 0x1_0000_0000_0000_0000
  }

  /** The instruction is one that these prefixes allow in the mode of the machine. */
  predicate WellFormed(op: AluOp, f: Shape, pre: seq<byte>, c: Cpu) {
    && PrefixRunFor(pre, Is64BitCode(c)) && ShapeFits(f, c.scalar.segments.cs.longMode, PrefixesIn(pre))
    && (0xF0 in pre ==> LockFits(op, f))
    && (UsesMemory(f) ==> RexMatches(f.location.operand, PrefixesIn(pre), Is64BitCode(c)))
  }

  function CodeOf(op: AluOp, f: Shape, pre: seq<byte>, c: Cpu): (bytes: seq<byte>)
    requires WellFormed(op, f, pre, c)
  {
    pre + Encode(op, f, c.scalar.segments.cs.longMode, PrefixesIn(pre))
  }

  /** The machine in which the body runs: the prefixes, the segment override and the size are known. */
  function Starting(op: AluOp, f: Shape, pre: seq<byte>, m: Machine): Machine
    requires WellFormed(op, f, pre, m.cpu)
  {
    m.(cpu := m.cpu.(scalar := m.cpu.scalar.(prefixes := PrefixesIn(pre), segmentOverride := SegmentIn(pre),
                                             lastInstSize := |CodeOf(op, f, pre, m.cpu)|)))
  }

  /** The operands may be accessed; against RIP, an address that would be canonical for an instruction without a
      length is asked for as well. */
  predicate Permitted(op: AluOp, f: Shape, s: Machine) {
    var longCode, p := s.cpu.scalar.segments.cs.longMode, s.cpu.scalar.prefixes;
    && MayRun(op, s, f, WidthOf(f, p), AddressOf(s.cpu, f, longCode, s.cpu.scalar.lastInstSize))
    && (UsesMemory(f) && f.location.operand.Relative? && Is64BitCode(s.cpu) ==>
          Canonical(AddressOf(s.cpu, f, longCode, 0)))
  }

  lemma {:induction false} InstAddress(op: AluOp, f: Shape, s: Cpu, k: nat)
    requires UsesMemory(f) && ShapeFits(f, s.scalar.segments.cs.longMode, s.scalar.prefixes)
    requires RexMatches(f.location.operand, s.scalar.prefixes, Is64BitCode(s))
    ensures var inst := InstOf(op, f, s.scalar.segments.cs.longMode, s.scalar.prefixes);
            && LinearAddress(s, inst, k) == AddressOf(s, f, s.scalar.segments.cs.longMode, k)
            && (RipRelative(inst) ==> f.location.operand.Relative?)
  {
    hide OpcodeByte, Pow2, LinearAddress, EffectiveSegment, OffsetOf, BaseOf, SegmentFor, Decoded, RexMatches,
      Is64BitCode;
    var longCode, p := s.scalar.segments.cs.longMode, s.scalar.prefixes;
    var o, a := f.location.operand, AddressBits(longCode, p);
    var reg := if f.WithRegister? then f.register % 8 else Row(op);
    var inst := InstOf(op, f, longCode, p);
    SameDecoded(o, reg, OpcodeByte(op, f), a, inst, f);
    ShortIsNot64(s, longCode, p);
    OperandAddress(s, o, reg, OpcodeByte(op, f), a, inst, k);
  }

  lemma {:induction false} ShortIsNot64(s: Cpu, longCode: bool, p: Prefixes)
    requires longCode == s.scalar.segments.cs.longMode
    ensures AddressBits(longCode, p) == 16 ==> !Is64BitCode(s)
  {
  }

  lemma {:induction false} SameDecoded(o: Operand, reg: nat, opcode: byte, a: nat, inst: Inst, f: Shape)
    requires reg < 8 && Encodable(o, a)
    requires inst == Decoded(o, reg, opcode, a).(immediate := inst.immediate)
    ensures RipRelative(inst) ==> o.Relative?
    ensures MemoryForm(inst)
    ensures inst == Decoded(o, reg, opcode, a).(memAddress := inst.memAddress, immediate := inst.immediate)
  {
    hide ModrmByte, SibByte;
    ModrmFields(o, reg, a);
    SizesAgree(o, reg, opcode, a);
  }

  lemma {:induction false} NoMemoryForm(op: AluOp, f: Shape, longCode: bool, p: Prefixes)
    requires ShapeFits(f, longCode, p)
    ensures MemoryForm(InstOf(op, f, longCode, p)) == UsesMemory(f)
    ensures InstOf(op, f, longCode, p).memAddress == 0
  {
    hide OpcodeByte, Pow2, LocationInst, LocationFits;
    match f
    case WithRegister(_, _, register, location) =>
      LocationParts(location, register % 8, OpcodeByte(op, f), longCode, p);
      NoAddressYet(location, register % 8, OpcodeByte(op, f), longCode, p);
    case Accumulator(_, _) =>
    case Group(_, location, _) =>
      LocationParts(location, Row(op), OpcodeByte(op, f), longCode, p);
      NoAddressYet(location, Row(op), OpcodeByte(op, f), longCode, p);
  }

  lemma {:induction false} NoAddressYet(location: Location, reg: nat, opcode: byte, longCode: bool, p: Prefixes)
    requires reg < 8 && LocationFits(location, longCode, p)
    ensures LocationInst(location, reg, opcode, longCode, p).memAddress == 0
  {
    hide Encodable, ModrmByte, SibByte;
  }

  lemma {:induction false} AccessIsCanonical(s: Machine, address: u64, n: nat, access: Access)
    requires Accessible(s, address, n, access) && n > 0
    ensures Is64BitCode(s.cpu) ==> Canonical(address)
  {
    hide Canonical, Lookup;
    assert ByteFault(s, address, 0, access) == NoFault;
  }

  /** Where the operands are permitted the checks pass, and the body gets its address. */
  lemma {:induction false} PermittedRuns(op: AluOp, f: Shape, s: Machine)
    requires var longCode, p := s.cpu.scalar.segments.cs.longMode, s.cpu.scalar.prefixes;
             && ShapeFits(f, longCode, p)
             && (UsesMemory(f) ==> RexMatches(f.location.operand, p, Is64BitCode(s.cpu)))
    requires Permitted(op, f, s) && !Pending(s.cpu)
    ensures var longCode, p := s.cpu.scalar.segments.cs.longMode, s.cpu.scalar.prefixes;
            var inst, length := InstOf(op, f, longCode, p), s.cpu.scalar.lastInstSize;
            var live := Live(s.cpu, inst, length);
            && Addressable(s.cpu, inst, length) && Decodes(op, f, longCode, p, live)
            && live.memAddress == AddressOf(s.cpu, f, longCode, length)
            && MayRun(op, s, f, WidthOf(f, p), live.memAddress)
  {
    hide InstOf, ShapeFits, LinearAddress, MemoryForm, RipRelative, Canonical, Is64BitCode, Accessible, RexMatches,
      AddressOf, WidthOf;
    var longCode, p := s.cpu.scalar.segments.cs.longMode, s.cpu.scalar.prefixes;
    var length := s.cpu.scalar.lastInstSize;
    NoMemoryForm(op, f, longCode, p);
    UnfoldAddress(s.cpu, f, longCode, length);
    if UsesMemory(f) {
      InstAddress(op, f, s.cpu, length);
      InstAddress(op, f, s.cpu, 0);
      AccessIsCanonical(s, AddressOf(s.cpu, f, longCode, length), WidthOf(f, p) as int / 8, Read);
    }
  }

  lemma {:induction false} UnfoldAddress(c: Cpu, f: Shape, longCode: bool, length: nat)
    ensures !UsesMemory(f) ==> AddressOf(c, f, longCode, length) == 0
  {
    hide OffsetOf, BaseOf, SegmentFor;
  }

  /** An operation changes registers, flags and memory, and nothing else. */
  lemma {:induction false} PerformsFrame(op: AluOp, f: Shape, w: Width, address: u64, before: Machine, after: Machine)
    requires Performs(op, f, w, address, before, after)
    ensures after.cpu == before.cpu.(scalar := before.cpu.scalar.(regs := after.cpu.scalar.regs,
                                                                   rflags := after.cpu.scalar.rflags))
  {
    hide FlagsOf, Modulus, ValueAt, SourceValue, Answer, SetReg, StoreBytes, TargetOf;
    var a, b := ValueAt(before, TargetOf(f), w, address), SourceValue(before, f, w, address);
    var flagged := before.(cpu := before.cpu.(scalar := before.cpu.scalar.(rflags := after.cpu.scalar.rflags)));
    if op != Cmp && TargetOf(f).Direct? {
      SetRegFrame(flagged.cpu, TargetOf(f).register, w, Answer(op, w, a, b));
    }
  }

  /** How a step ends whose body left no exception. */
  lemma {:induction false} QuietStep(isa: Isa, m: Machine, e: Entry)
    requires e.inline == NotInline && !e.ud && !e.bp && !e.db && !e.branch
    requires !Pending(RunHandler(isa, m.(cpu := WithOverride(m.cpu, e.segmentOverride)), e).cpu)
    ensures var ran := RunHandler(isa, m.(cpu := WithOverride(m.cpu, e.segmentOverride)), e);
            Dispatch(isa, m, e)
            == (ran.(cpu := ran.cpu.(scalar := ran.cpu.scalar.(
                       rip := Wrap(m.cpu.scalar.rip + ran.cpu.scalar.lastInstSize), segmentOverride := NoOverride))),
                StepOk)
  {
    hide RunHandler, Wrap;
  }

  /** One step of an ADD, SUB, AND or CMP, from its bytes: whatever prefixes it has and whatever follows it, with the
      fast handler or without, decoded here or in another state of the mode. It puts the answer of its operation into
      its first operand unless it only compares, leaves the flags of the operation, moves RIP behind its bytes and
      changes nothing else. */
  lemma {:induction false} StepMeans(isa: Isa, m: Machine, c: Cpu, op: AluOp, f: Shape, pre: seq<byte>, rest: seq<byte>)
    requires ReadyToDecode(c) && ReadyToDecode(m.cpu) && SameMode(c, m.cpu) && WellFormed(op, f, pre, m.cpu)
    requires var code := CodeOf(op, f, pre, m.cpu) + rest;
             isa.special(code) == None && isa.other(code, ModeBits(m.cpu)) == None
    requires Permitted(op, f, Starting(op, f, pre, m))
    ensures var bytes, s := CodeOf(op, f, pre, m.cpu), Starting(op, f, pre, m);
            var (after, code) := Dispatch(isa, m, DecodeAt(isa, c, bytes + rest));
            && code == StepOk
            && after.cpu.scalar.rip == (m.cpu.scalar.rip + |bytes|) % 0x1_0000_0000_0000_0000
            && after.cpu.scalar.segmentOverride == NoOverride
            && Performs(op, f, WidthOf(f, s.cpu.scalar.prefixes),
                        AddressOf(s.cpu, f, m.cpu.scalar.segments.cs.longMode, |bytes|), s,
                        after.(cpu := after.cpu.(scalar := after.cpu.scalar.(
                                 rip := m.cpu.scalar.rip, segmentOverride := SegmentIn(pre)))))
  {
    hide *;
    var longCode, p := m.cpu.scalar.segments.cs.longMode, PrefixesIn(pre);
    var bytes, s := CodeOf(op, f, pre, m.cpu), Starting(op, f, pre, m);
    var code, e := bytes + rest, DecodeAt(isa, c, bytes + rest);
    UnfoldWellFormed(op, f, pre, m);
    UnfoldReady(m.cpu);
    SameModeBits(c, m.cpu);
    EncodedEntry(isa, ModeBits(c), op, f, longCode, pre, rest);
    EncodingRoundTrip(op, f, longCode, pre, rest);
    CleanParsed(p, InstOf(op, f, longCode, p), |bytes|);
    StartingIs(op, f, pre, m);
    PermittedRuns(op, f, s);
    var o := m.(cpu := WithOverride(m.cpu, SegmentIn(pre)));
    NotEmpty(op, f, pre, m.cpu, rest);
    OverrideMode(c, m.cpu, SegmentIn(pre));
    HandlerIs(isa, o, c, op, code);
    AluEntry(isa, ModeBits(c), code);
    StaticFields(e, StaticEntry(isa, ModeBits(c), code));
    AluIsNoBranch(isa, ModeBits(c), longCode, code);
    var live := Live(s.cpu, InstOf(op, f, longCode, p), |bytes|);
    BodyMeans(op, f, longCode, s, live);
    var ran := Execute(op, s, live);
    PerformsFrame(op, f, WidthOf(f, p), live.memAddress, s, ran);
    KeptQuiet(s.cpu, ran.cpu);
    QuietStep(isa, m, e);
    UnfoldWrapSum(m.cpu.scalar.rip + |bytes|);
  }

  lemma {:induction false} UnfoldWrapSum(x: int)
    ensures Wrap(x) == x % 0x1_0000_0000_0000_0000
  {
  }

  lemma {:induction false} KeptQuiet(before: Cpu, after: Cpu)
    requires after == before.(scalar := before.scalar.(regs := after.scalar.regs, rflags := after.scalar.rflags))
    ensures Pending(after) == Pending(before)
  {
  }

  lemma {:induction false} SameModeBits(a: Cpu, b: Cpu)
    requires SameMode(a, b)
    ensures ModeBits(a) == ModeBits(b) && RexAllowed(ModeBits(a)) == Is64BitCode(b)
    ensures a.scalar.segments.cs.longMode == b.scalar.segments.cs.longMode
  {
  }

  lemma {:induction false} OverrideMode(c: Cpu, d: Cpu, segment: Override)
    requires SameMode(c, d)
    ensures SameMode(c, WithOverride(d, segment)) && Pending(WithOverride(d, segment)) == Pending(d)
    ensures WithOverride(d, segment).scalar.segments == d.scalar.segments
  {
  }

  lemma {:induction false} CleanParsed(p: Prefixes, inst: Inst, length: nat)
    ensures Clean(Parsed(p, None, inst, None, true, length))
  {
  }

  lemma {:induction false} UnfoldWellFormed(op: AluOp, f: Shape, pre: seq<byte>, m: Machine)
    requires WellFormed(op, f, pre, m.cpu)
    ensures var longCode, p := m.cpu.scalar.segments.cs.longMode, PrefixesIn(pre);
            && PrefixRunFor(pre, Is64BitCode(m.cpu)) && ShapeFits(f, longCode, p) && (0xF0 in pre ==> LockFits(op, f))
            && (UsesMemory(f) ==> RexMatches(f.location.operand, p, Is64BitCode(m.cpu)))
            && (forall b :: b in pre ==> PrefixByte(b))
            && CodeOf(op, f, pre, m.cpu) == pre + Encode(op, f, longCode, p)
  {
    hide ShapeFits, PrefixesIn, LockFits, RexMatches, Is64BitCode, PrefixByte, Encode, UsesMemory;
  }

  lemma {:induction false} StartingIs(op: AluOp, f: Shape, pre: seq<byte>, m: Machine)
    requires WellFormed(op, f, pre, m.cpu)
    ensures var s, bytes := Starting(op, f, pre, m), CodeOf(op, f, pre, m.cpu);
            && s.cpu == Ready(WithOverride(m.cpu, SegmentIn(pre)), PrefixesIn(pre), |bytes|) && s.mem == m.mem
            && s == m.(cpu := s.cpu)
            && s.cpu.scalar.prefixes == PrefixesIn(pre) && s.cpu.scalar.lastInstSize == |bytes|
            && s.cpu.scalar.segments == m.cpu.scalar.segments && Is64BitCode(s.cpu) == Is64BitCode(m.cpu)
            && Pending(s.cpu) == Pending(m.cpu) && s.cpu.scalar.rip == m.cpu.scalar.rip
            && s.cpu.scalar.segmentOverride == SegmentIn(pre)
  {
    hide CodeOf, SegmentIn, PrefixesIn, WellFormed;
  }

  lemma {:induction false} NotEmpty(op: AluOp, f: Shape, pre: seq<byte>, c: Cpu, rest: seq<byte>)
    requires WellFormed(op, f, pre, c)
    ensures CodeOf(op, f, pre, c) + rest != []
  {
    hide ShapeFits, PrefixesIn, LockFits, RexMatches, PrefixRunFor, OpcodeByte, Bytes, LocationBytes, UsesMemory;
  }

  // And when it faults.

  lemma {:induction false} StaysPending(before: Machine, after: Machine)
    requires PendingFrame(before, after)
    ensures Pending(after.cpu) == Pending(before.cpu)
  {
  }

  /** From the first read that faults on, a body changes nothing that counts. */
  lemma {:induction false} FaultedBody(op: AluOp, m: Machine, inst: Inst, w: Width, read: Machine, dst: nat, src: nat)
    requires Pending(read.cpu)
    ensures var m3 := read.(cpu := WithFlags(read.cpu, FlagsAfter(op, read.cpu.scalar.rflags, w, dst, src)));
            && m3 == read
            && Pending(WriteOperand(m3, inst, w, Destination(m.cpu, op, inst), Result(op, w, dst, src)).cpu)
  {
    hide WriteOperand, Destination, Result, FlagsAfter, Modulus, ReadOperand;
    PendingOperand(read, inst, w, Destination(m.cpu, op, inst), Result(op, w, dst, src));
    StaysPending(read, WriteOperand(read, inst, w, Destination(m.cpu, op, inst), Result(op, w, dst, src)));
  }

  lemma {:induction false} ReadFaults(m: Machine, inst: Inst, w: Width)
    requires !Pending(m.cpu) && ModField(inst.modrm) != 3 && !Accessible(m, inst.memAddress, w as int / 8, Read)
    ensures Pending(ReadOperand(m, inst, w, InRm).0.cpu)
  {
    hide Accessible, Checked, LoadValue, GetReg, ModField;
    CheckedPends(m, inst.memAddress, w as int / 8, Read);
  }

  lemma {:induction false} WriteFaults(m: Machine, inst: Inst, w: Width, value: nat)
    requires !Pending(m.cpu) && value < Modulus(w)
    requires ModField(inst.modrm) != 3 && !Accessible(m, inst.memAddress, w as int / 8, Write)
    ensures Pending(WriteOperand(m, inst, w, InRm, value).cpu)
  {
    hide Accessible, Store, SetReg, ModField, Modulus, Pending;
    StoreFaults(m, inst.memAddress, w as int / 8, value);
  }

  lemma {:induction false} BodyReadFaults(op: AluOp, f: Shape, longCode: bool, m: Machine, inst: Inst)
    requires Decodes(op, f, longCode, m.cpu.scalar.prefixes, inst) && !Pending(m.cpu) && UsesMemory(f)
    requires !Accessible(m, inst.memAddress, WidthOf(f, m.cpu.scalar.prefixes) as int / 8, Read)
    ensures Pending(Execute(op, m, inst).cpu)
  {
    hide Decodes, InstOf, ShapeFits, WidthOf, ModField, RmIndex, Accessible, Modulus, Destination, Source, Execute,
      ReadOperand, WriteOperand, FlagsAfter, Result, ImmediateOperand, AluExecute.Handled, WithFlags, OperandWidth,
      Pending;
    var w := WidthOf(f, m.cpu.scalar.prefixes);
    OperandsOf(op, f, longCode, m.cpu, inst);
    UnfoldExecute(op, m, inst);
    ReadFaults(m, inst, w);
    var destination, source := Destination(m.cpu, op, inst), Source(m.cpu, op, inst, w);
    var (m1, dst) := ReadOperand(m, inst, w, destination);
    var (m2, src) := ReadOperand(m1, inst, w, source);
    if destination == InRm {
      PendingOperand(m1, inst, w, source, 0);
    } else {
      RegisterReadsQuietly(m, inst, w, destination);
    }
    FaultedBody(op, m, inst, w, m2, dst, src);
  }

  lemma {:induction false} RegisterReadsQuietly(m: Machine, inst: Inst, w: Width, place: Place)
    requires place.InRegister?
    ensures ReadOperand(m, inst, w, place).0 == m
  {
    hide GetReg;
  }

  lemma {:induction false} BodyWriteFaults(op: AluOp, f: Shape, longCode: bool, m: Machine, inst: Inst)
    requires Decodes(op, f, longCode, m.cpu.scalar.prefixes, inst) && !Pending(m.cpu) && UsesMemory(f) && op != Cmp
    requires TargetOf(f).Memory?
    requires Accessible(m, inst.memAddress, WidthOf(f, m.cpu.scalar.prefixes) as int / 8, Read)
    requires !Accessible(m, inst.memAddress, WidthOf(f, m.cpu.scalar.prefixes) as int / 8, Write)
    ensures Pending(Execute(op, m, inst).cpu)
  {
    hide Decodes, InstOf, ShapeFits, WidthOf, ModField, RmIndex, Accessible, Modulus, Destination, Source, Execute,
      ReadOperand, WriteOperand, FlagsAfter, Result, ImmediateOperand, AluExecute.Handled, WithFlags, OperandWidth,
      Pending, ValueAt;
    var w := WidthOf(f, m.cpu.scalar.prefixes);
    OperandsOf(op, f, longCode, m.cpu, inst);
    UnfoldExecute(op, m, inst);
    ReadsLocation(m, inst, w, f.location);
    var source := Source(m.cpu, op, inst, w);
    PlainSource(m, inst, w, source);
    var dst, src := ReadOperand(m, inst, w, InRm).1, ReadOperand(m, inst, w, source).1;
    var flags := FlagsAfter(op, m.cpu.scalar.rflags, w, dst, src);
    FlagsKeepAccess(m, flags, inst, w);
    WriteFaults(m.(cpu := WithFlags(m.cpu, flags)), inst, w, Result(op, w, dst, src));
  }

  lemma {:induction false} PlainSource(m: Machine, inst: Inst, w: Width, place: Place)
    requires place != InRm
    ensures ReadOperand(m, inst, w, place).0 == m
  {
    hide GetReg;
  }

  /** The body faults where it may not run. */
  lemma {:induction false} BodyFaults(op: AluOp, f: Shape, longCode: bool, m: Machine, inst: Inst)
    requires Decodes(op, f, longCode, m.cpu.scalar.prefixes, inst) && !Pending(m.cpu)
    requires !MayRun(op, m, f, WidthOf(f, m.cpu.scalar.prefixes), inst.memAddress)
    ensures Pending(Execute(op, m, inst).cpu)
  {
    hide Decodes, WidthOf, Accessible, Execute, Pending;
    if UsesMemory(f) && !Accessible(m, inst.memAddress, WidthOf(f, m.cpu.scalar.prefixes) as int / 8, Read) {
      BodyReadFaults(op, f, longCode, m, inst);
    } else {
      BodyWriteFaults(op, f, longCode, m, inst);
    }
  }

  lemma {:induction false} FastChecks(m: Machine, payload: Payload, code: seq<byte>)
    requires !Pending(m.cpu) && PayloadOf(payload, m.cpu.scalar.segments.cs.longMode, code)
    requires var p := Parse(payload.op, m.cpu.scalar.segments.cs.longMode, code);
             var t := Ready(m.cpu, p.prefixes, p.length);
             && MemoryForm(p.inst) && !RipRelative(p.inst)
             && Is64BitCode(t) && !Canonical(LinearAddress(t, p.inst, p.length))
    ensures Pending(Fast(m, payload).cpu)
  {
    hide Execute, ValidateOperand, LinearAddress, MemoryForm, RipRelative, Parse, Ready, Fast, PayloadOf, Pending,
      Canonical, Is64BitCode, EffectiveSegment;
    var p := Parse(payload.op, m.cpu.scalar.segments.cs.longMode, code);
    var t := Ready(m.cpu, p.prefixes, p.length);
    UnfoldPayload(payload, m.cpu.scalar.segments.cs.longMode, code);
    UnfoldReadyState(m.cpu, p.prefixes, p.length);
    MemoryFast(m, payload, p);
    ValidateKinds(t, p.inst, p.length);
    var live := p.inst.(memAddress := LinearAddress(Stamp(m.cpu, p.prefixes), p.inst, p.length));
    var checked := m.(cpu := ValidateOperand(t, p.inst, p.length));
    ExecutePending(payload.op, checked, live);
    StaysPending(checked, Execute(payload.op, checked, live));
  }

  lemma {:induction false} LegacyChecks(op: AluOp, m: Machine, code: seq<byte>)
    requires var p := Parse(op, m.cpu.scalar.segments.cs.longMode, code);
             var t := Ready(m.cpu, p.prefixes, p.length);
             && !Pending(m.cpu) && Clean(p) && MemoryForm(p.inst) && !RipRelative(p.inst)
             && Is64BitCode(t) && !Canonical(LinearAddress(t, p.inst, p.length))
    ensures Pending(Legacy(op, m, code).cpu)
  {
    hide Execute, ValidateOperand, LinearAddress, MemoryForm, Parse, Ready, Legacy, RipRelative, Decode, DecodedInst,
      Pending, Canonical, Is64BitCode, EffectiveSegment;
    var p := Parse(op, m.cpu.scalar.segments.cs.longMode, code);
    var s := Stamp(m.cpu, p.prefixes);
    UnfoldLegacy(op, m, code);
    UnfoldReadyState(m.cpu, p.prefixes, p.length);
    StampPending(m.cpu, p.prefixes);
    MemoryDecode(op, m.cpu, code, p);
    StampedValidate(s, p.inst, p.length, p.length);
    LengthMatters(s, p.inst, p.length);
    ValidateKinds(s, p.inst, 0);
    QuietSize(ValidateOperand(s, p.inst, 0), p.length);
  }

  /** A handler whose address check fails ends with an exception. */
  lemma {:induction false} HandlerChecks(isa: Isa, m: Machine, c: Cpu, op: AluOp, code: seq<byte>)
    requires ReadyToDecode(c) && SameMode(c, m.cpu) && isa.special(code) == None && !Pending(m.cpu)
    requires code != [] && StaticEntry(isa, ModeBits(c), code).handler == Alu(op)
    requires var p := Parse(op, m.cpu.scalar.segments.cs.longMode, code);
             var t := Ready(m.cpu, p.prefixes, p.length);
             && Clean(p) && MemoryForm(p.inst) && !RipRelative(p.inst)
             && Is64BitCode(t) && !Canonical(LinearAddress(t, p.inst, p.length))
    ensures Pending(RunHandler(isa, m, DecodeAt(isa, c, code)).cpu)
    ensures SameStatic(DecodeAt(isa, c, code), StaticEntry(isa, ModeBits(c), code))
  {
    hide *;
    var e, a := StaticEntry(isa, ModeBits(c), code), DecodeAt(isa, c, code);
    UnfoldReady(c);
    UnfoldMode(c, m.cpu);
    AluEntry(isa, ModeBits(c), code);
    CanInstall(e);
    DecodedFrom(isa, c, code);
    AttachAlu(isa, e, c);
    StaticFields(a, e);
    RunsOf(isa, m, a);
    if a.fast.Some? {
      ProbeIsClean(op, c, code);
      FastChecks(m, a.fast.value.payload, code);
    } else {
      LegacyChecks(op, m, code);
    }
  }

  /** A step whose handler left an exception ends in it. */
  lemma {:induction false} FaultedStep(isa: Isa, m: Machine, e: Entry)
    requires e.inline == NotInline && !e.ud && !e.bp && !e.db
    requires Pending(RunHandler(isa, m.(cpu := WithOverride(m.cpu, e.segmentOverride)), e).cpu)
    ensures Dispatch(isa, m, e).1 == StepException
  {
    hide RunHandler;
  }

  /** How the checks of a form that is not against RIP can fail. */
  lemma {:induction false} NotAddressable(op: AluOp, f: Shape, s: Cpu)
    requires ShapeFits(f, s.scalar.segments.cs.longMode, s.scalar.prefixes)
    requires UsesMemory(f) ==> RexMatches(f.location.operand, s.scalar.prefixes, Is64BitCode(s))
    requires !(UsesMemory(f) && f.location.operand.Relative?)
    ensures var longCode, inst := s.scalar.segments.cs.longMode,
                InstOf(op, f, s.scalar.segments.cs.longMode, s.scalar.prefixes);
            var live := Live(s, inst, s.scalar.lastInstSize);
            && !RipRelative(inst)
            && (!Addressable(s, inst, s.scalar.lastInstSize) ==>
                  MemoryForm(inst) && Is64BitCode(s) && !Canonical(LinearAddress(s, inst, s.scalar.lastInstSize)))
            && Decodes(op, f, longCode, s.scalar.prefixes, live)
            && live.memAddress == AddressOf(s, f, longCode, s.scalar.lastInstSize)
  {
    hide InstOf, ShapeFits, LinearAddress, MemoryForm, RipRelative, Canonical, Is64BitCode, RexMatches, AddressOf;
    var longCode, inst := s.scalar.segments.cs.longMode,
        InstOf(op, f, s.scalar.segments.cs.longMode, s.scalar.prefixes);
    NoMemoryForm(op, f, longCode, s.scalar.prefixes);
    UnfoldAddress(s, f, longCode, s.scalar.lastInstSize);
    SameForm(inst, inst);
    if UsesMemory(f) {
      InstAddress(op, f, s, s.scalar.lastInstSize);
    }
  }

  /** An operand that may not be read, or not be written where the operation writes it, ends the step in an exception;
      for operands against RIP the case without a length decides as well and is left out here. */
  lemma {:induction false} StepFaults(isa: Isa, m: Machine, c: Cpu, op: AluOp, f: Shape, pre: seq<byte>,
      rest: seq<byte>)
    requires ReadyToDecode(c) && ReadyToDecode(m.cpu) && SameMode(c, m.cpu) && WellFormed(op, f, pre, m.cpu)
    requires var code := CodeOf(op, f, pre, m.cpu) + rest;
             isa.special(code) == None && isa.other(code, ModeBits(m.cpu)) == None
    requires !(UsesMemory(f) && f.location.operand.Relative?)
    requires !Permitted(op, f, Starting(op, f, pre, m))
    ensures Dispatch(isa, m, DecodeAt(isa, c, CodeOf(op, f, pre, m.cpu) + rest)).1 == StepException
  {
    hide *;
    var longCode, p := m.cpu.scalar.segments.cs.longMode, PrefixesIn(pre);
    var bytes, s := CodeOf(op, f, pre, m.cpu), Starting(op, f, pre, m);
    var code, e := bytes + rest, DecodeAt(isa, c, bytes + rest);
    UnfoldWellFormed(op, f, pre, m);
    UnfoldReady(m.cpu);
    SameModeBits(c, m.cpu);
    EncodedEntry(isa, ModeBits(c), op, f, longCode, pre, rest);
    EncodingRoundTrip(op, f, longCode, pre, rest);
    CleanParsed(p, InstOf(op, f, longCode, p), |bytes|);
    StartingIs(op, f, pre, m);
    NotAddressable(op, f, s.cpu);
    UnfoldPermitted(op, f, s);
    var o := m.(cpu := WithOverride(m.cpu, SegmentIn(pre)));
    NotEmpty(op, f, pre, m.cpu, rest);
    OverrideMode(c, m.cpu, SegmentIn(pre));
    AluEntry(isa, ModeBits(c), code);
    var live := Live(s.cpu, InstOf(op, f, longCode, p), |bytes|);
    if Addressable(s.cpu, InstOf(op, f, longCode, p), |bytes|) {
      HandlerIs(isa, o, c, op, code);
      BodyFaults(op, f, longCode, s, live);
    } else {
      HandlerChecks(isa, o, c, op, code);
    }
    StaticFields(e, StaticEntry(isa, ModeBits(c), code));
    FaultedStep(isa, m, e);
  }

  lemma {:induction false} UnfoldPermitted(op: AluOp, f: Shape, s: Machine)
    requires !(UsesMemory(f) && f.location.operand.Relative?)
    ensures Permitted(op, f, s)
            == MayRun(op, s, f, WidthOf(f, s.cpu.scalar.prefixes),
                      AddressOf(s.cpu, f, s.cpu.scalar.segments.cs.longMode, s.cpu.scalar.lastInstSize))
  {
    hide MayRun, AddressOf, WidthOf;
  }

  // An instance: 01 D8 is ADD EAX, EBX.

  const ADD_EAX_EBX := WithRegister(true, false, 3, Direct(0))

  lemma {:induction false} InstanceBytes(c: Cpu)
    ensures PrefixesIn([]) == NO_PREFIXES && WellFormed(Add, ADD_EAX_EBX, [], c)
    ensures CodeOf(Add, ADD_EAX_EBX, [], c) == [0x01, 0xD8]
  {
    hide Is64BitCode;
    assert PrefixesIn([]) == NO_PREFIXES;
  }

  /** It leaves the sum of the two dwords in RAX, the flags of that sum, and RIP two bytes on. */
  lemma {:induction false} AddEaxEbx(isa: Isa, m: Machine, rest: seq<byte>)
    requires ReadyToDecode(m.cpu) && isa.special([0x01, 0xD8] + rest) == None
    requires isa.other([0x01, 0xD8] + rest, ModeBits(m.cpu)) == None
    ensures var (after, code) := Dispatch(isa, m, DecodeAt(isa, m.cpu, [0x01, 0xD8] + rest));
            var a, b := m.cpu.scalar.regs[0] % 0x1_0000_0000, m.cpu.scalar.regs[3] % 0x1_0000_0000;
            && code == StepOk && after.mem == m.mem
            && after.cpu.scalar.rip == (m.cpu.scalar.rip + 2) % 0x1_0000_0000_0000_0000
            && after.cpu.scalar.regs == m.cpu.scalar.regs[0 := (a + b) % 0x1_0000_0000]
            && Bit(after.cpu.scalar.rflags, 0) == (a + b >= 0x1_0000_0000)
  {
    hide *;
    InstanceBytes(m.cpu);
    var s := Starting(Add, ADD_EAX_EBX, [], m);
    InstanceRuns(m);
    SameModeOf(m.cpu);
    StepMeans(isa, m, m.cpu, Add, ADD_EAX_EBX, [], rest);
    var after := Dispatch(isa, m, DecodeAt(isa, m.cpu, [0x01, 0xD8] + rest)).0;
    InstanceResult(m, s, after);
  }

  lemma {:induction false} SameModeOf(c: Cpu)
    ensures SameMode(c, c)
  {
  }

  lemma {:induction false} InstanceRuns(m: Machine)
    requires WellFormed(Add, ADD_EAX_EBX, [], m.cpu) && CodeOf(Add, ADD_EAX_EBX, [], m.cpu) == [0x01, 0xD8]
    requires PrefixesIn([]) == NO_PREFIXES
    ensures var s := Starting(Add, ADD_EAX_EBX, [], m);
            && Permitted(Add, ADD_EAX_EBX, s) && WidthOf(ADD_EAX_EBX, s.cpu.scalar.prefixes) == 32
            && s.mem == m.mem && s.cpu.scalar.regs == m.cpu.scalar.regs
            && s.cpu.scalar.prefixes == NO_PREFIXES
            && AddressOf(s.cpu, ADD_EAX_EBX, m.cpu.scalar.segments.cs.longMode, 2) == 0
  {
    hide WellFormed, CodeOf, PrefixesIn;
  }

  lemma {:induction false} InstanceResult(m: Machine, s: Machine, after: Machine)
    requires s.mem == m.mem && s.cpu.scalar.regs == m.cpu.scalar.regs && s.cpu.scalar.prefixes == NO_PREFIXES
    requires Performs(Add, ADD_EAX_EBX, 32, 0, s,
                      after.(cpu := after.cpu.(scalar := after.cpu.scalar.(
                               rip := m.cpu.scalar.rip, segmentOverride := SegmentIn([])))))
    ensures var a, b := m.cpu.scalar.regs[0] % 0x1_0000_0000, m.cpu.scalar.regs[3] % 0x1_0000_0000;
            && after.mem == m.mem && after.cpu.scalar.regs == m.cpu.scalar.regs[0 := (a + b) % 0x1_0000_0000]
            && Bit(after.cpu.scalar.rflags, 0) == (a + b >= 0x1_0000_0000)
  {
    hide GetReg, SetReg, Bit, OnesBelow, Signed;
    ReadsPart(s.cpu, 0, 32);
    ReadsPart(s.cpu, 3, 32);
    var a, b := m.cpu.scalar.regs[0] % 0x1_0000_0000, m.cpu.scalar.regs[3] % 0x1_0000_0000;
    var flagged := s.cpu.(scalar := s.cpu.scalar.(rflags := after.cpu.scalar.rflags));
    WritesPart(flagged, 0, 32, (a + b) % 0x1_0000_0000);
  }
}
