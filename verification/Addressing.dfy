/** Registers and effective addresses of integer instructions. */
module Addressing {
  import opened Bits
  import opened MemoryManagement
  import opened CpuState
  import opened Flags

  /** A decoded instruction: everything but memAddress comes from the bytes and the mode alone. */
  datatype Inst = Inst(
    opcode: byte, hasModrm: bool, modrm: byte, sib: byte, displacement: int,
    immediate: nat, addressSize: nat, memAddress: u64)

  function ModField(modrm: byte): nat {
    modrm / 64
  }

  function RegField(modrm: byte): nat {
    modrm / 8 % 8
  }

  function RmField(modrm: byte): nat {
    modrm % 8
  }

  function Reg(c: Cpu, r: nat): u64 {
    c.scalar.regs[r % 16]
  }

  function WithReg(c: Cpu, r: nat, value: u64): Cpu {
    c.(scalar := c.scalar.(regs := c.scalar.regs[r % 16 := value]))
  }

  /** Without REX, byte registers 4 to 7 are the second bytes of the first four. */
  function GetReg(c: Cpu, r: nat, w: Width): (value: nat)
    ensures value < Modulus(w)
  {
    if w == 8 && !c.scalar.prefixes.rexPresent && r >= 4 then Reg(c, r - 4) / 0x100 % 0x100
    else Low(w, Reg(c, r))
  }

  /** 8- and 16-bit writes keep the rest of the register, 32-bit writes clear the upper half. */
  function SetReg(c: Cpu, r: nat, w: Width, value: nat): Cpu
    requires value < Modulus(w)
  {
    if w == 8 && !c.scalar.prefixes.rexPresent && r >= 4 then
      var whole := Reg(c, r - 4);
      WithReg(c, r - 4, Wrap(whole - whole / 0x100 % 0x100 * 0x100 + value * 0x100))
    else if w == 8 || w == 16 then
      WithReg(c, r, Wrap(Reg(c, r) - Low(w, Reg(c, r)) + value))
    else WithReg(c, r, value)
  }

  function Extended(index: nat, rex: bool): nat {
    if rex then index % 8 + 8 else index % 8
  }

  function SignExtend8(x: int): int {
    if x % 0x100 >= 0x80 then x % 0x100 - 0x100 else x % 0x100
  }

  /** Base, index and displacement, before any segment base; instSize matters to RIP-relative forms only. */
  function EffectiveOffset(c: Cpu, inst: Inst, instSize: nat): u64 {
    var mod, low := ModField(inst.modrm), RmField(inst.modrm);
    var long := Is64BitCode(c);
    var rm := Extended(low, c.scalar.prefixes.rexB && long);
    if mod == 3 then 0
    else if inst.addressSize == 32 || inst.addressSize == 64 then
      var base :=
        if low == 4 then SibOffset(c, inst, mod)
        else if low == 5 && mod == 0 then
          if inst.addressSize == 64 then c.scalar.rip + instSize + inst.displacement
          else inst.displacement % 0x1_0000_0000
        else Reg(c, rm) as int;
      var address := base + Displacement(inst, mod);
      if inst.addressSize == 32 then address % 0x1_0000_0000 else Wrap(address)
    else Offset16(c, inst, rm, mod)
  }

  function Displacement(inst: Inst, mod: nat): int {
    if mod == 1 then SignExtend8(inst.displacement) else if mod == 2 then inst.displacement else 0
  }

  /** Without a base the displacement is taken as unsigned. */
  function SibOffset(c: Cpu, inst: Inst, mod: nat): int {
    var long := Is64BitCode(c);
    var scale, rawIndex, rawBase := inst.sib / 64, inst.sib / 8 % 8, inst.sib % 8;
    var index := Extended(rawIndex, c.scalar.prefixes.rexX && long);
    var base := Extended(rawBase, c.scalar.prefixes.rexB && long);
    var start := if mod == 0 && rawBase == 5 then inst.displacement % 0x1_0000_0000 else Reg(c, base);
    if rawIndex == 4 && !(long && c.scalar.prefixes.rexX) then start else start + Wrap(Shl(Reg(c, index), scale))
  }

  function Offset16(c: Cpu, inst: Inst, rm: nat, mod: nat): u64 {
    var disp := inst.displacement;
    var base :=
      match rm
      case 0 => Reg(c, RBX) + Reg(c, RSI)
      case 1 => Reg(c, RBX) + Reg(c, RDI)
      case 2 => Reg(c, RBP) + Reg(c, RSI)
      case 3 => Reg(c, RBP) + Reg(c, RDI)
      case 4 => Reg(c, RSI)
      case 5 => Reg(c, RDI)
      case 6 => if mod == 0 then disp % 0x1_0000 else Reg(c, RBP)
      case 7 => Reg(c, RBX)
      case _ => 0;
    if mod == 1 then (base + SignExtend8(disp)) % 0x1_0000
    else if mod == 2 then (base + disp % 0x1_0000) % 0x1_0000
    else base % 0x1_0000
  }

  predicate BaseUsesStack(register: nat) {
    register == RSP || register == RBP || register == 13
  }

  /** SS when the base register is RSP, RBP or (as coded) R13, else DS. */
  function DefaultSegment(c: Cpu, inst: Inst): SegmentName {
    var mod, low := ModField(inst.modrm), RmField(inst.modrm);
    var extend := c.scalar.prefixes.rexB && Is64BitCode(c);
    if mod == 3 then SegDS
    else if inst.addressSize != 16 then
      if low == 4 then
        var base := Extended(inst.sib, extend);
        if !(base == 5 && mod == 0) && BaseUsesStack(base) then SegSS else SegDS
      else if !(mod == 0 && low == 5) && BaseUsesStack(Extended(low, extend)) then SegSS else SegDS
    else if low == 2 || low == 3 || (low == 6 && mod != 0) then SegSS
    else SegDS
  }

  function EffectiveSegment(c: Cpu, inst: Inst): SegmentName {
    match c.scalar.segmentOverride
    case NoOverride => DefaultSegment(c, inst)
    case Override(segment) => segment
  }

  function LinearAddress(c: Cpu, inst: Inst, instSize: nat): u64 {
    Wrap(EffectiveOffset(c, inst, instSize) + SegmentBase(c, EffectiveSegment(c, inst)))
  }

  /** get_effective_address also checks the address it returns. */
  function ValidateOperand(c: Cpu, inst: Inst, instSize: nat): Cpu {
    ValidateLinear(c, LinearAddress(c, inst, instSize), EffectiveSegment(c, inst))
  }

  predicate MemoryForm(inst: Inst) {
    inst.hasModrm && ModField(inst.modrm) != 3
  }

  predicate RipRelative(inst: Inst) {
    MemoryForm(inst) && inst.addressSize == 64 && RmField(inst.modrm) == 5 && ModField(inst.modrm) == 0
  }

  /** The length of the instruction moves RIP-relative addresses and no others. */
  lemma {:induction false} LengthMatters(c: Cpu, inst: Inst, k: nat)
    ensures !RipRelative(inst) && MemoryForm(inst) ==> LinearAddress(c, inst, k) == LinearAddress(c, inst, 0)
    ensures RipRelative(inst) ==>
              LinearAddress(c, inst, k) ==
              Wrap(c.scalar.rip + k + inst.displacement + SegmentBase(c, EffectiveSegment(c, inst)))
  {
    hide SibOffset, Offset16, DefaultSegment, SegmentOf, Is64BitCode;
    assert RipRelative(inst) ==> Displacement(inst, 0) == 0;
  }

  lemma {:induction false} SameOperandAddress(c: Cpu, inst: Inst, other: Inst, k: nat)
    requires other == inst.(memAddress := other.memAddress, immediate := other.immediate)
    ensures LinearAddress(c, inst, k) == LinearAddress(c, other, k)
    ensures EffectiveSegment(c, inst) == EffectiveSegment(c, other)
  {
    hide Wrap, Reg, SignExtend8, SegmentBase, Is64BitCode, DefaultSegment, SibOffset, Offset16, EffectiveOffset,
      EffectiveSegment;
    SameParts(c, inst, other, k);
  }

  lemma {:induction false} SameParts(c: Cpu, inst: Inst, other: Inst, k: nat)
    requires other == inst.(memAddress := other.memAddress, immediate := other.immediate)
    ensures EffectiveOffset(c, inst, k) == EffectiveOffset(c, other, k)
    ensures EffectiveSegment(c, inst) == EffectiveSegment(c, other)
  {
    hide Wrap, Reg, SignExtend8, SegmentBase, Is64BitCode, SibOffset, Offset16, Extended, BaseUsesStack;
    SameSib(c, inst, other);
  }

  lemma {:induction false} SameSib(c: Cpu, inst: Inst, other: Inst)
    requires other == inst.(memAddress := other.memAddress, immediate := other.immediate)
    ensures forall mod: nat :: SibOffset(c, inst, mod) == SibOffset(c, other, mod)
    ensures forall rm: nat, mod: nat :: Offset16(c, inst, rm, mod) == Offset16(c, other, rm, mod)
  {
    hide Wrap, Reg, SignExtend8, Is64BitCode, Extended;
  }

  /** Addresses depend on registers, segments, RIP and the REX bits. */
  lemma {:induction false} SameAddress(c: Cpu, other: Cpu, inst: Inst, k: nat)
    requires other == c.(exception := other.exception, scalar := c.scalar.(lastInstSize := other.scalar.lastInstSize))
    ensures LinearAddress(other, inst, k) == LinearAddress(c, inst, k)
    ensures EffectiveSegment(other, inst) == EffectiveSegment(c, inst)
    ensures Is64BitCode(other) == Is64BitCode(c)
  {
    hide Wrap, EffectiveOffset, EffectiveSegment, SegmentBase;
    SameAddressParts(c, other, inst, k);
  }

  lemma {:induction false} SameAddressParts(c: Cpu, other: Cpu, inst: Inst, k: nat)
    requires other == c.(exception := other.exception, scalar := c.scalar.(lastInstSize := other.scalar.lastInstSize))
    ensures EffectiveOffset(other, inst, k) == EffectiveOffset(c, inst, k)
    ensures EffectiveSegment(other, inst) == EffectiveSegment(c, inst)
    ensures forall name :: SegmentBase(other, name) == SegmentBase(c, name)
  {
    hide Wrap, SignExtend8, Extended, BaseUsesStack, SibOffset, Offset16, Displacement, Reg, Is64BitCode;
    SameCpuParts(c, other, inst);
  }

  lemma {:induction false} SameCpuParts(c: Cpu, other: Cpu, inst: Inst)
    requires other == c.(exception := other.exception, scalar := c.scalar.(lastInstSize := other.scalar.lastInstSize))
    ensures forall mod: nat :: SibOffset(other, inst, mod) == SibOffset(c, inst, mod)
    ensures forall rm: nat, mod: nat :: Offset16(other, inst, rm, mod) == Offset16(c, inst, rm, mod)
    ensures forall r: nat :: Reg(other, r) == Reg(c, r)
    ensures Is64BitCode(other) == Is64BitCode(c)
  {
    hide Wrap, SignExtend8, Extended;
  }
}
