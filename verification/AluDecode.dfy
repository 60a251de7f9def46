/** The decoder that ADD, SUB, AND and CMP share, and its side effects on the context. */
module AluDecode {
  import opened Bits
  import opened MemoryManagement
  import opened CpuState
  import opened Flags
  import opened Addressing

  datatype AluOp = Add | Sub | AndOp | Cmp

  function BaseOpcode(op: AluOp): byte {
    match op
    case Add => 0x00
    case Sub => 0x28
    case AndOp => 0x20
    case Cmp => 0x38
  }

  /** The reg field that selects the operation in the immediate group. */
  function GroupNumber(op: AluOp): nat {
    match op
    case Add => 0
    case Sub => 5
    case AndOp => 4
    case Cmp => 7
  }

  // What the bytes alone decide.

  datatype Scan = Scan(prefixes: Prefixes, lock: bool, offset: nat)

  predicate IgnoredPrefix(b: byte) {
    b == 0x26 || b == 0x2E || b == 0x36 || b == 0x3E || b == 0x64 || b == 0x65 || b == 0xF2 || b == 0xF3
  }

  predicate IsPrefix(b: byte) {
    b == 0x66 || b == 0x67 || 0x40 <= b <= 0x4F || b == 0xF0 || IgnoredPrefix(b)
  }

  function WithPrefix(p: Prefixes, b: byte): Prefixes {
    if b == 0x66 then p.(operandSize := true)
    else if b == 0x67 then p.(addressSize := true)
    else if 0x40 <= b <= 0x4F then
      p.(rexPresent := true, rexW := b / 8 % 2 == 1, rexR := b / 4 % 2 == 1, rexX := b / 2 % 2 == 1, rexB := b % 2 == 1)
    else p
  }

  function ScanPrefixes(code: seq<byte>, offset: nat, p: Prefixes, lock: bool): (s: Scan)
    requires offset <= |code|
    ensures offset <= s.offset <= |code|
    decreases |code| - offset
  {
    if offset < |code| && IsPrefix(code[offset]) then
      ScanPrefixes(code, offset + 1, WithPrefix(p, code[offset]), lock || code[offset] == 0xF0)
    else Scan(p, lock, offset)
  }

  datatype ModrmParse = ModrmParse(ok: bool, inst: Inst, offset: nat)

  predicate HasSib(inst: Inst) {
    MemoryForm(inst) && RmField(inst.modrm) == 4 && inst.addressSize != 16
  }

  function DisplacementSize(inst: Inst): (n: nat)
    ensures n == 0 || n == 1 || n == 2 || n == 4
  {
    var mod, rm := ModField(inst.modrm), RmField(inst.modrm);
    var wide := if inst.addressSize == 16 then 2 else 4;
    if mod == 0 && rm == 5 then wide
    else if mod == 0 && HasSib(inst) && inst.sib % 8 == 5 then 4
    else if mod == 1 then 1
    else if mod == 2 then wide
    else 0
  }

  function SignedDisplacement(raw: nat, size: nat): int {
    if size == 1 then SignExtend8(raw)
    else if size == 2 then (if raw >= 0x8000 then raw - 0x1_0000 else raw)
    else if raw >= 0x8000_0000 then raw - 0x1_0000_0000 else raw
  }

  function ParseModrm(inst: Inst, code: seq<byte>, offset: nat): (r: ModrmParse)
    requires offset <= |code| && !inst.hasModrm
    ensures offset <= r.offset <= |code|
  {
    if offset >= |code| then ModrmParse(false, inst, offset)
    else ParseSib(inst.(hasModrm := true, modrm := code[offset]), code, offset + 1)
  }

  function ParseSib(inst: Inst, code: seq<byte>, offset: nat): (r: ModrmParse)
    requires offset <= |code|
    ensures offset <= r.offset <= |code|
  {
    if HasSib(inst) then
      if offset >= |code| then ModrmParse(false, inst, offset)
      else ParseDisplacement(inst.(sib := code[offset]), code, offset + 1)
    else ParseDisplacement(inst, code, offset)
  }

  function ParseDisplacement(inst: Inst, code: seq<byte>, offset: nat): (r: ModrmParse)
    requires offset <= |code|
    ensures offset <= r.offset <= |code|
  {
    var n := DisplacementSize(inst);
    if n == 0 then ModrmParse(true, inst, offset)
    else if offset + n > |code| then ModrmParse(false, inst, offset)
    else
      var raw := LittleEndian(code[offset..offset + n]);
      ModrmParse(true, inst.(displacement := SignedDisplacement(raw, n)), offset + n)
  }

  /** What decoding finds: faults before and after the operand address is checked, and whether the
      decoder gets as far as setting the instruction size. */
  datatype Parsed = Parsed(
    prefixes: Prefixes, early: Option<ExceptionCode>, inst: Inst, late: Option<ExceptionCode>,
    complete: bool, length: nat)

  function First(a: Option<ExceptionCode>, b: Option<ExceptionCode>): Option<ExceptionCode> {
    if a.Some? then a else b
  }

  function When(condition: bool, code: ExceptionCode): Option<ExceptionCode> {
    if condition then Some(code) else None
  }

  function ImmediateSize(p: Prefixes): nat {
    if p.rexW then 4 else if p.operandSize then 2 else 4
  }

  function ParseImmediate(
    p: Prefixes, early: Option<ExceptionCode>, inst: Inst, late: Option<ExceptionCode>,
    code: seq<byte>, offset: nat, n: nat): Parsed
  {
    if offset + n > |code| then Parsed(p, early, inst, First(late, Some(GP)), false, 0)
    else Parsed(p, early, inst.(immediate := LittleEndian(code[offset..offset + n])), late, true, offset + n)
  }

  predicate RegisterLock(inst: Inst, lock: bool) {
    lock && ModField(inst.modrm) == 3
  }

  function ParseGroup(
    op: AluOp, p: Prefixes, lock: bool, early: Option<ExceptionCode>, inst: Inst, code: seq<byte>, offset: nat,
    n: nat): Parsed
    requires offset <= |code| && !inst.hasModrm
  {
    var m := ParseModrm(inst, code, offset);
    ParseImmediate(
      p, First(early, When(!m.ok, GP)), m.inst,
      When(RegisterLock(m.inst, lock) || RegField(m.inst.modrm) != GroupNumber(op), UD), code, m.offset, n)
  }

  function ParseRegisterForm(
    p: Prefixes, lock: bool, early: Option<ExceptionCode>, inst: Inst, code: seq<byte>, offset: nat): Parsed
    requires offset <= |code| && !inst.hasModrm
  {
    var m := ParseModrm(inst, code, offset);
    Parsed(p, First(early, When(!m.ok, GP)), m.inst, When(RegisterLock(m.inst, lock), UD), true, m.offset)
  }

  function ParseOperands(
    op: AluOp, p: Prefixes, lock: bool, early: Option<ExceptionCode>, inst: Inst, code: seq<byte>, offset: nat): Parsed
    requires offset <= |code| && !inst.hasModrm
  {
    var form := inst.opcode - BaseOpcode(op);
    if form == 4 then ParseImmediate(p, First(early, When(lock, UD)), inst, None, code, offset, 1)
    else if form == 5 then ParseImmediate(p, First(early, When(lock, UD)), inst, None, code, offset, ImmediateSize(p))
    else if inst.opcode == 0x80 || inst.opcode == 0x83 then ParseGroup(op, p, lock, early, inst, code, offset, 1)
    else if inst.opcode == 0x81 then ParseGroup(op, p, lock, early, inst, code, offset, ImmediateSize(p))
    else if form == 0 || form == 1 then ParseRegisterForm(p, lock, early, inst, code, offset)
    else if form == 2 || form == 3 then ParseRegisterForm(p, lock, First(early, When(lock, UD)), inst, code, offset)
    else Parsed(p, First(early, Some(UD)), inst, None, true, offset)
  }

  function AddressSize(longCode: bool, p: Prefixes): nat {
    if longCode then (if p.addressSize then 32 else 64) else if p.addressSize then 16 else 32
  }

  function EmptyInst(opcode: byte, addressSize: nat): Inst {
    Inst(opcode, false, 0, 0, 0, 0, addressSize, 0)
  }

  /** CMP refuses LOCK while it scans the prefixes; the others leave it to the operand forms. */
  function Parse(op: AluOp, longCode: bool, code: seq<byte>): Parsed {
    var scan := ScanPrefixes(code, 0, NO_PREFIXES, false);
    var early := When(op == Cmp && scan.lock, UD);
    if scan.offset >= |code| then Parsed(scan.prefixes, First(early, Some(GP)), EmptyInst(0, 0), None, false, 0)
    else
      ParseOperands(op, scan.prefixes, scan.lock && op != Cmp, early,
                    EmptyInst(code[scan.offset], AddressSize(longCode, scan.prefixes)), code, scan.offset + 1)
  }

  // What decoding does to the context.

  function RaiseAny(c: Cpu, fault: Option<ExceptionCode>): Cpu {
    if fault.Some? then Raise(c, fault.value, 0) else c
  }

  function Stamp(c: Cpu, p: Prefixes): Cpu {
    c.(scalar := c.scalar.(prefixes := p))
  }

  function StampSize(c: Cpu, size: nat): Cpu {
    c.(scalar := c.scalar.(lastInstSize := size))
  }

  /** The faults of decoding, first come first kept; a RIP-relative operand is checked twice, first
      as if the instruction had no length. */
  function Effects(c: Cpu, p: Parsed): Cpu {
    var c2 := RaiseAny(c, p.early);
    var c3 := if MemoryForm(p.inst) then ValidateOperand(c2, p.inst, 0) else c2;
    Finish(RaiseAny(c3, p.late), p)
  }

  function Finish(c: Cpu, p: Parsed): Cpu {
    var checked := if p.complete && RipRelative(p.inst) then ValidateOperand(c, p.inst, p.length) else c;
    if p.complete then StampSize(checked, p.length) else checked
  }

  function Decode(op: AluOp, c: Cpu, code: seq<byte>): Cpu {
    var p := Parse(op, c.scalar.segments.cs.longMode, code);
    Effects(Stamp(c, p.prefixes), p)
  }

  /** The decoded instruction with its address, worth using when no exception is pending. */
  function DecodedInst(op: AluOp, c: Cpu, code: seq<byte>): Inst {
    var p := Parse(op, c.scalar.segments.cs.longMode, code);
    WithAddress(Stamp(c, p.prefixes), p.inst, p.length)
  }

  function WithAddress(c: Cpu, inst: Inst, length: nat): Inst {
    if MemoryForm(inst) then inst.(memAddress := LinearAddress(c, inst, length)) else inst
  }

  // The decoder.

  lemma {:induction false} ShlOnce(x: nat, k: nat)
    ensures Shl(x, k + 1) == 2 * Shl(x, k)
  {
  }

  lemma {:induction false} ShlByte(x: nat, k: nat)
    ensures Shl(x, k + 8) == 0x100 * Shl(x, k)
  {
    hide Shl;
    ShlOnce(x, k);
    ShlOnce(x, k + 1);
    ShlOnce(x, k + 2);
    ShlOnce(x, k + 3);
    ShlOnce(x, k + 4);
    ShlOnce(x, k + 5);
    ShlOnce(x, k + 6);
    ShlOnce(x, k + 7);
  }

  lemma {:induction false} LittleEndianAppend(bs: seq<byte>, b: byte)
    ensures LittleEndian(bs + [b]) == LittleEndian(bs) + Shl(b, 8 * |bs|)
    decreases |bs|
  {
    hide Shl;
    if bs == [] {
      assert ([] + [b])[1..] == [];
      ShlZero(b);
    } else {
      assert (bs + [b])[1..] == bs[1..] + [b];
      LittleEndianAppend(bs[1..], b);
      ShlByte(b, 8 * |bs[1..]|);
    }
  }

  lemma {:induction false} ShlZero(x: nat)
    ensures Shl(x, 0) == x
  {
  }

  lemma {:induction false} LittleEndianEmpty()
    ensures LittleEndian([]) == 0
  {
  }

  lemma {:induction false} SliceStep(code: seq<byte>, offset: nat, i: nat)
    requires offset + i < |code|
    ensures code[offset..offset + i] + [code[offset + i]] == code[offset..offset + (i + 1)]
  {
  }

  method ReadLittleEndian(code: seq<byte>, offset: nat, n: nat) returns (value: nat)
    requires offset + n <= |code|
    ensures value == LittleEndian(code[offset..offset + n])
  {
    hide Shl, LittleEndian;
    value := 0;
    var i := 0;
    assert code[offset..offset + 0] == [];
    LittleEndianEmpty();
    while i < n
      invariant 0 <= i <= n
      invariant value == LittleEndian(code[offset..offset + i])
    {
      LittleEndianAppend(code[offset..offset + i], code[offset + i]);
      SliceStep(code, offset, i);
      value := value + Shl(code[offset + i], 8 * i);
      i := i + 1;
    }
  }

  method ScanPrefixBytes(ctx: CpuContext, op: AluOp, code: seq<byte>) returns (lock: bool, offset: nat)
    requires ctx.scalar.prefixes == NO_PREFIXES
    modifies ctx`scalar, ctx`exception
    ensures var scan := ScanPrefixes(code, 0, NO_PREFIXES, false);
            && lock == (scan.lock && op != Cmp) && offset == scan.offset
            && ctx.State() == RaiseAny(Stamp(old(ctx.State()), scan.prefixes), When(op == Cmp && scan.lock, UD))
  {
    hide WithPrefix, Raise;
    ghost var c := ctx.State();
    ghost var sawLock := false;
    lock, offset := false, 0;
    while offset < |code| && IsPrefix(code[offset])
      invariant 0 <= offset <= |code|
      invariant lock == (sawLock && op != Cmp)
      invariant ctx.State() == RaiseAny(Stamp(c, ctx.scalar.prefixes), When(op == Cmp && sawLock, UD))
      invariant ScanPrefixes(code, offset, ctx.scalar.prefixes, sawLock) == ScanPrefixes(code, 0, NO_PREFIXES, false)
    {
      var b := code[offset];
      var prefixes := WithPrefix(ctx.scalar.prefixes, b);
      RaiseThenStamp(c, ctx.scalar.prefixes, prefixes);
      ctx.scalar := ctx.scalar.(prefixes := prefixes);
      if b == 0xF0 {
        if op == Cmp {
          ctx.RaiseException(UD, 0);
        } else {
          lock := true;
        }
        sawLock := true;
      }
      offset := offset + 1;
    }
  }

  lemma {:induction false} RaiseThenStamp(c: Cpu, p: Prefixes, q: Prefixes)
    ensures Stamp(Raise(Stamp(c, p), UD, 0), q) == Raise(Stamp(c, q), UD, 0)
    ensures Raise(Raise(Stamp(c, q), UD, 0), UD, 0) == Raise(Stamp(c, q), UD, 0)
    ensures Raise(c, UD, 0).scalar == c.scalar
    ensures Stamp(Stamp(c, p), q) == Stamp(c, q)
  {
  }

  function ModrmEffects(c: Cpu, m: ModrmParse, lock: bool): Cpu {
    if !m.ok then Raise(c, GP, 0)
    else
      RaiseAny(if MemoryForm(m.inst) then ValidateOperand(c, m.inst, 0) else c,
               When(RegisterLock(m.inst, lock), UD))
  }

  method DecodeModrm(ctx: CpuContext, start: Inst, code: seq<byte>, from: nat, lock: bool)
    returns (ok: bool, inst: Inst, offset: nat)
    requires from <= |code| && !start.hasModrm && start.memAddress == 0
    modifies ctx`exception
    ensures ModrmParse(ok, inst.(memAddress := 0), offset) == ParseModrm(start, code, from)
    ensures inst.memAddress == if ok && MemoryForm(inst) then LinearAddress(old(ctx.State()), inst, 0) else 0
    ensures ctx.State() == ModrmEffects(old(ctx.State()), ParseModrm(start, code, from), lock)
  {
    hide Raise, ValidateOperand, LinearAddress, LittleEndian, SignedDisplacement;
    inst, offset := start, from;
    if offset >= |code| {
      ctx.RaiseException(GP, 0);
      return false, inst, offset;
    }
    inst, offset := inst.(hasModrm := true, modrm := code[offset]), offset + 1;
    if HasSib(inst) {
      if offset >= |code| {
        ctx.RaiseException(GP, 0);
        return false, inst, offset;
      }
      inst, offset := inst.(sib := code[offset]), offset + 1;
    }
    var n := DisplacementSize(inst);
    if n > 0 {
      if offset + n > |code| {
        ctx.RaiseException(GP, 0);
        return false, inst, offset;
      }
      var raw := ReadLittleEndian(code, offset, n);
      inst, offset := inst.(displacement := SignedDisplacement(raw, n)), offset + n;
    }
    ghost var bare := inst;
    if MemoryForm(inst) {
      inst := inst.(memAddress := LinearAddress(ctx.State(), inst, 0));
      SameOperand(ctx.State(), inst, bare, 0);
      Validate(ctx, inst, 0);
    }
    if lock && ModField(inst.modrm) == 3 {
      ctx.RaiseException(UD, 0);
    }
    ok := true;
  }

  method Validate(ctx: CpuContext, inst: Inst, instSize: nat)
    modifies ctx`exception
    ensures ctx.State() == ValidateOperand(old(ctx.State()), inst, instSize)
  {
    hide Canonical, LinearAddress, EffectiveSegment, Is64BitCode;
    var segment := EffectiveSegment(ctx.State(), inst);
    if Is64BitCode(ctx.State()) && !Canonical(LinearAddress(ctx.State(), inst, instSize)) {
      ctx.RaiseException(if segment == SegSS then SS else GP, 0);
    }
  }

  /** The address does not depend on the immediate, nor on the address of an earlier decode. */
  lemma {:induction false} SameOperand(c: Cpu, inst: Inst, other: Inst, k: nat)
    requires other == inst.(memAddress := other.memAddress, immediate := other.immediate)
    ensures LinearAddress(c, inst, k) == LinearAddress(c, other, k)
    ensures ValidateOperand(c, inst, k) == ValidateOperand(c, other, k)
    ensures MemoryForm(inst) == MemoryForm(other) && RipRelative(inst) == RipRelative(other)
  {
    hide LinearAddress, EffectiveSegment, ValidateLinear;
    SameOperandAddress(c, inst, other, k);
  }

  lemma {:induction false} WhenPending(c: Cpu, inst: Inst, k: nat, fault: Option<ExceptionCode>, code: ExceptionCode)
    requires Pending(c)
    ensures ValidateOperand(c, inst, k) == c && RaiseAny(c, fault) == c && Raise(c, code, 0) == c
  {
    hide LinearAddress, EffectiveSegment;
  }

  lemma {:induction false} RaisePends(c: Cpu, code: ExceptionCode)
    requires code != NoException
    ensures Pending(Raise(c, code, 0))
  {
  }

  /** The steps of the group forms amount to Effects of what ParseGroup finds. */
  lemma {:induction false} GroupEffects(
    op: AluOp, c: Cpu, p: Prefixes, lock: bool, early: Option<ExceptionCode>, inst: Inst, code: seq<byte>, offset: nat,
    n: nat)
    requires offset <= |code| && !inst.hasModrm && early in {None, Some(UD)}
    ensures var m := ParseModrm(inst, code, offset);
            var parsed := ParseGroup(op, p, lock, early, inst, code, offset, n);
            var checked := RaiseAny(ModrmEffects(RaiseAny(c, early), m, lock),
                                    When(RegField(m.inst.modrm) != GroupNumber(op), UD));
            && parsed.prefixes == p
            && (m.offset + n > |code| ==> !parsed.complete && Effects(c, parsed) == Raise(checked, GP, 0)
                                          && Pending(Effects(c, parsed)))
            && (m.offset + n <= |code| ==>
                  && parsed.complete && parsed.length == m.offset + n
                  && parsed.inst == m.inst.(immediate := LittleEndian(code[m.offset..m.offset + n]))
                  && Effects(c, parsed) == Finish(checked, parsed))
  {
    hide Raise, ValidateOperand, ParseModrm, LittleEndian, Pending, MemoryForm, RipRelative;
    var m := ParseModrm(inst, code, offset);
    var parsed := ParseGroup(op, p, lock, early, inst, code, offset, n);
    RaisePends(c, UD);
    RaisePends(c, GP);
    var c2 := RaiseAny(c, parsed.early);
    SameOperand(c2, parsed.inst, m.inst, 0);
    if Pending(c2) {
      WhenPending(c2, m.inst, 0, parsed.late, UD);
      WhenPending(c2, m.inst, 0, When(RegisterLock(m.inst, lock), UD), GP);
      WhenPending(c2, m.inst, 0, When(RegField(m.inst.modrm) != GroupNumber(op), UD), GP);
    } 
    var c3 := if MemoryForm(m.inst) then ValidateOperand(c2, m.inst, 0) else c2;
    RaisePends(c3, UD);
    RaisePends(c3, GP);
    if Pending(Raise(c3, UD, 0)) {
      WhenPending(Raise(c3, UD, 0), m.inst, 0, Some(UD), GP);
    }
  }

  lemma {:induction false} RegisterFormEffects(
    c: Cpu, p: Prefixes, lock: bool, early: Option<ExceptionCode>, inst: Inst, code: seq<byte>, offset: nat)
    requires offset <= |code| && !inst.hasModrm && early in {None, Some(UD)}
    ensures var m := ParseModrm(inst, code, offset);
            var parsed := ParseRegisterForm(p, lock, early, inst, code, offset);
            && parsed.complete && parsed.length == m.offset && parsed.inst == m.inst && parsed.prefixes == p
            && Effects(c, parsed) == Finish(ModrmEffects(RaiseAny(c, early), m, lock), parsed)
  {
    hide Raise, ValidateOperand, ParseModrm, LittleEndian, Pending, MemoryForm, RipRelative;
    var m := ParseModrm(inst, code, offset);
    var parsed := ParseRegisterForm(p, lock, early, inst, code, offset);
    RaisePends(c, UD);
    RaisePends(c, GP);
    var c2 := RaiseAny(c, parsed.early);
    if Pending(c2) {
      WhenPending(c2, m.inst, 0, parsed.late, UD);
      WhenPending(c2, m.inst, 0, parsed.late, GP);
    }
  }

  lemma {:induction false} ImmediateEffects(
    c: Cpu, p: Prefixes, early: Option<ExceptionCode>, inst: Inst, code: seq<byte>, offset: nat, n: nat)
    requires offset <= |code| && !inst.hasModrm
    ensures var parsed := ParseImmediate(p, early, inst, None, code, offset, n);
            && parsed.prefixes == p
            && (offset + n > |code| ==>
                Effects(c, parsed) == Raise(RaiseAny(c, early), GP, 0) && Pending(Effects(c, parsed)))
            && (offset + n <= |code| ==>
                  && parsed.complete && parsed.length == offset + n
                  && parsed.inst == inst.(immediate := LittleEndian(code[offset..offset + n]))
                  && Effects(c, parsed) == Finish(RaiseAny(c, early), parsed))
  {
    hide Raise, ValidateOperand, LittleEndian, Pending;
    RaisePends(RaiseAny(c, early), GP);
  }

  lemma {:induction false} UnfoldParse(op: AluOp, longCode: bool, code: seq<byte>)
    ensures var scan := ScanPrefixes(code, 0, NO_PREFIXES, false);
            var early := When(op == Cmp && scan.lock, UD);
            var lock := scan.lock && op != Cmp;
            var parsed := Parse(op, longCode, code);
            && (scan.offset >= |code| ==>
                  parsed == Parsed(scan.prefixes, First(early, Some(GP)), EmptyInst(0, 0), None, false, 0))
            && (scan.offset < |code| ==>
                  parsed == ParseOperands(op, scan.prefixes, lock, early,
                                          EmptyInst(code[scan.offset], AddressSize(longCode, scan.prefixes)),
                                          code, scan.offset + 1))
  {
    hide ScanPrefixes, ParseOperands, First, When;
  }

  lemma {:induction false} RaiseTwice(c: Cpu, early: Option<ExceptionCode>, code: ExceptionCode)
    requires early in {None, Some(UD)}
    ensures Raise(RaiseAny(c, early), code, 0) == RaiseAny(c, First(early, Some(code)))
    ensures RaiseAny(RaiseAny(c, early), None) == RaiseAny(c, early)
  {
  }

  lemma {:induction false} NothingDecoded(c: Cpu, p: Prefixes, early: Option<ExceptionCode>, inst: Inst)
    requires !inst.hasModrm
    ensures Effects(c, Parsed(p, early, inst, None, false, 0)) == RaiseAny(c, early)
    ensures forall length: nat ::
              Effects(c, Parsed(p, early, inst, None, true, length)) == StampSize(RaiseAny(c, early), length)
  {
  }

  lemma {:induction false} StampSizePending(c: Cpu, size: nat)
    ensures Pending(StampSize(c, size)) == Pending(c)
    ensures StampSize(c, size).scalar.segments == c.scalar.segments
  {
  }

  /** The last steps of a decode: the second check of a RIP-relative operand and the size. */
  method FinishDecode(ctx: CpuContext, decoded: Inst, bare: Inst, length: nat, ghost p: Parsed)
    returns (inst: Inst)
    requires p.complete && p.length == length && p.inst == bare
    requires bare == decoded.(memAddress := bare.memAddress)
    modifies ctx`exception, ctx`scalar
    ensures ctx.State() == Finish(old(ctx.State()), p)
    ensures inst == if RipRelative(bare) then bare.(memAddress := LinearAddress(old(ctx.State()), bare, length))
            else decoded
  {
    hide ValidateOperand, LinearAddress, RipRelative;
    inst := decoded;
    SameOperand(ctx.State(), decoded, bare, length);
    if RipRelative(inst) {
      inst := bare.(memAddress := LinearAddress(ctx.State(), inst, length));
      Validate(ctx, bare, length);
    }
    ctx.scalar := ctx.scalar.(lastInstSize := length);
  }

  /** A check or a raise that leaves no exception pending has changed nothing. */
  lemma {:induction false} QuietRaise(c: Cpu, fault: Option<ExceptionCode>)
    requires fault in {None, Some(UD), Some(GP)}
    ensures !Pending(RaiseAny(c, fault)) ==> RaiseAny(c, fault) == c && fault == None
  {
  }

  lemma {:induction false} QuietValidate(c: Cpu, inst: Inst, k: nat)
    ensures !Pending(ValidateOperand(c, inst, k)) ==> ValidateOperand(c, inst, k) == c
  {
    hide LinearAddress, EffectiveSegment, Is64BitCode, Canonical;
  }

  lemma {:induction false} QuietModrm(c: Cpu, m: ModrmParse, lock: bool)
    ensures !Pending(ModrmEffects(c, m, lock)) ==> ModrmEffects(c, m, lock) == c && m.ok
  {
    hide ValidateOperand, Pending, RaiseAny, RegisterLock;
    RaisePends(c, GP);
    QuietValidate(c, m.inst, 0);
    QuietRaise(ValidateOperand(c, m.inst, 0), When(RegisterLock(m.inst, lock), UD));
    QuietRaise(c, When(RegisterLock(m.inst, lock), UD));
  }

  lemma {:induction false} QuietFinish(c: Cpu, p: Parsed)
    ensures !Pending(Finish(c, p)) ==> !Pending(c)
  {
    hide ValidateOperand, Pending;
    if Pending(c) {
      WhenPending(c, p.inst, p.length, None, UD);
      StampSizePending(c, p.length);
    }
  }

  /** A decode has had the effects of its parse, and its result is usable unless it faulted. */
  ghost predicate Outcome(c: Cpu, p: Parsed, after: Cpu, inst: Inst) {
    && after == Effects(c, p)
    && (!Pending(after) ==> inst == WithAddress(c, p.inst, p.length))
  }

  lemma {:induction false} FinishedAddress(c: Cpu, p: Parsed, decoded: Inst, inst: Inst)
    requires decoded.memAddress == if MemoryForm(p.inst) then LinearAddress(c, p.inst, 0) else 0
    requires p.inst == decoded.(memAddress := 0)
    requires inst == if RipRelative(p.inst) then p.inst.(memAddress := LinearAddress(c, p.inst, p.length)) else decoded
    ensures inst == WithAddress(c, p.inst, p.length)
  {
    hide LinearAddress, EffectiveSegment, ModField, RmField;
    LengthMatters(c, p.inst, p.length);
  }

  method DecodeRegisterForm(
    ctx: CpuContext, start: Inst, code: seq<byte>, from: nat, lock: bool,
    ghost c: Cpu, ghost p: Prefixes, ghost early: Option<ExceptionCode>) returns (inst: Inst)
    requires from <= |code| && !start.hasModrm && start.memAddress == 0
    requires early in {None, Some(UD)} && ctx.State() == RaiseAny(c, early)
    modifies ctx`exception, ctx`scalar
    ensures Outcome(c, ParseRegisterForm(p, lock, early, start, code, from), ctx.State(), inst)
  {
    hide *;
    ghost var m := ParseModrm(start, code, from);
    ghost var parsed := ParseRegisterForm(p, lock, early, start, code, from);
    var ok, decoded, offset := DecodeModrm(ctx, start, code, from, lock);
    RegisterFormEffects(c, p, lock, early, start, code, from);
    ghost var before := ctx.State();
    inst := FinishDecode(ctx, decoded, decoded.(memAddress := 0), offset, parsed);
    QuietFinish(before, parsed);
    QuietModrm(RaiseAny(c, early), m, lock);
    QuietRaise(c, early);
    if !Pending(ctx.State()) {
      SameOperand(c, decoded, parsed.inst, 0);
      FinishedAddress(c, parsed, decoded, inst);
    }
    UnfoldOutcome(c, parsed, ctx.State(), inst);
  }

  lemma {:induction false} UnfoldOutcome(c: Cpu, p: Parsed, after: Cpu, inst: Inst)
    ensures Outcome(c, p, after, inst) ==
            (after == Effects(c, p) && (!Pending(after) ==> inst == WithAddress(c, p.inst, p.length)))
  {
    hide Effects, WithAddress, Pending;
  }

  lemma {:induction false} QuietSteps(c: Cpu, early: Option<ExceptionCode>, m: ModrmParse, lock: bool, wrong: bool,
      p: Parsed)
    requires early in {None, Some(UD)}
    ensures var s2 := ModrmEffects(RaiseAny(c, early), m, lock);
            var s3 := RaiseAny(s2, When(wrong, UD));
            !Pending(Finish(s3, p)) ==> m.ok && s2 == c && s3 == c && RaiseAny(c, early) == c
  {
    hide Finish, ModrmEffects, RaiseAny, Pending;
    var s2 := ModrmEffects(RaiseAny(c, early), m, lock);
    QuietFinish(RaiseAny(s2, When(wrong, UD)), p);
    QuietRaise(s2, When(wrong, UD));
    QuietModrm(RaiseAny(c, early), m, lock);
    QuietRaise(c, early);
  }

  lemma {:induction false} UnfoldRaise(c: Cpu, condition: bool)
    ensures RaiseAny(c, When(condition, UD)) == if condition then Raise(c, UD, 0) else c
  {
    hide Raise;
  }

  method DecodeGroup(
    ctx: CpuContext, op: AluOp, start: Inst, code: seq<byte>, from: nat, lock: bool, n: nat,
    ghost c: Cpu, ghost p: Prefixes, ghost early: Option<ExceptionCode>) returns (inst: Inst)
    requires from <= |code| && !start.hasModrm && start.memAddress == 0
    requires early in {None, Some(UD)} && ctx.State() == RaiseAny(c, early)
    modifies ctx`exception, ctx`scalar
    ensures Outcome(c, ParseGroup(op, p, lock, early, start, code, from, n), ctx.State(), inst)
  {
    hide *;
    ghost var m := ParseModrm(start, code, from);
    ghost var parsed := ParseGroup(op, p, lock, early, start, code, from, n);
    var ok, decoded, offset := DecodeModrm(ctx, start, code, from, lock);
    ghost var wrong := RegField(decoded.modrm) != GroupNumber(op);
    UnfoldRaise(ctx.State(), wrong);
    if RegField(decoded.modrm) != GroupNumber(op) {
      ctx.RaiseException(UD, 0);
    }
    GroupEffects(op, c, p, lock, early, start, code, from, n);
    if offset + n > |code| {
      ctx.RaiseException(GP, 0);
      UnfoldOutcome(c, parsed, ctx.State(), decoded);
      return decoded;
    }
    var immediate := ReadLittleEndian(code, offset, n);
    ghost var unread := decoded;
    decoded := decoded.(immediate := immediate);
    QuietSteps(c, early, m, lock, wrong, parsed);
    inst := FinishDecode(ctx, decoded, decoded.(memAddress := 0), offset + n, parsed);
    if !Pending(ctx.State()) {
      SameOperand(c, unread, parsed.inst, 0);
      FinishedAddress(c, parsed, decoded, inst);
    }
    UnfoldOutcome(c, parsed, ctx.State(), inst);
  }

  method DecodeImmediate(
    ctx: CpuContext, start: Inst, code: seq<byte>, from: nat, n: nat,
    ghost c: Cpu, ghost p: Prefixes, ghost early: Option<ExceptionCode>) returns (inst: Inst)
    requires from <= |code| && !start.hasModrm && start.memAddress == 0
    requires early in {None, Some(UD)} && ctx.State() == RaiseAny(c, early)
    modifies ctx`exception, ctx`scalar
    ensures Outcome(c, ParseImmediate(p, early, start, None, code, from, n), ctx.State(), inst)
  {
    hide *;
    ghost var parsed := ParseImmediate(p, early, start, None, code, from, n);
    ImmediateEffects(c, p, early, start, code, from, n);
    if from + n > |code| {
      ctx.RaiseException(GP, 0);
      UnfoldOutcome(c, parsed, ctx.State(), start);
      return start;
    }
    var immediate := ReadLittleEndian(code, from, n);
    inst := start.(immediate := immediate);
    ghost var before := ctx.State();
    inst := FinishDecode(ctx, inst, inst, from + n, parsed);
    NoOperand(inst);
    NoOperand(parsed.inst);
    if !Pending(ctx.State()) {
      QuietFinish(before, parsed);
      QuietRaise(c, early);
      FinishedAddress(c, parsed, inst, inst);
    }
    UnfoldOutcome(c, parsed, ctx.State(), inst);
  }

  lemma {:induction false} NoOperand(inst: Inst)
    requires !inst.hasModrm
    ensures !MemoryForm(inst) && !RipRelative(inst)
  {
  }

  lemma {:induction false} UnfoldOperands(
    op: AluOp, p: Prefixes, lock: bool, early: Option<ExceptionCode>, inst: Inst, code: seq<byte>, offset: nat)
    requires offset <= |code| && !inst.hasModrm
    ensures var parsed := ParseOperands(op, p, lock, early, inst, code, offset);
            var form := inst.opcode - BaseOpcode(op);
            var withLock := First(early, When(lock, UD));
            && (form == 4 ==> parsed == ParseImmediate(p, withLock, inst, None, code, offset, 1))
            && (form == 5 ==> parsed == ParseImmediate(p, withLock, inst, None, code, offset, ImmediateSize(p)))
            && (inst.opcode == 0x80 || inst.opcode == 0x83 ==>
                  parsed == ParseGroup(op, p, lock, early, inst, code, offset, 1))
            && (inst.opcode == 0x81 ==> parsed == ParseGroup(op, p, lock, early, inst, code, offset, ImmediateSize(p)))
            && (form == 0 || form == 1 ==> parsed == ParseRegisterForm(p, lock, early, inst, code, offset))
            && (form == 2 || form == 3 ==> parsed == ParseRegisterForm(p, lock, withLock, inst, code, offset))
            && (inst.opcode !in {0x80, 0x81, 0x83} && !(0 <= form <= 5) ==>
                  parsed == Parsed(p, First(early, Some(UD)), inst, None, true, offset))
  {
    hide First, When, ParseImmediate, ParseGroup, ParseRegisterForm, ImmediateSize;
  }

  lemma {:induction false} RaiseLock(c: Cpu, early: Option<ExceptionCode>, lock: bool)
    requires early in {None, Some(UD)}
    ensures First(early, When(lock, UD)) in {None, Some(UD)}
    ensures RaiseAny(RaiseAny(c, early), When(lock, UD)) == RaiseAny(c, First(early, When(lock, UD)))
  {
  }

  /** decode_add_instruction and its three siblings. */
  method DecodeAlu(ctx: CpuContext, op: AluOp, code: seq<byte>) returns (inst: Inst)
    modifies ctx`exception, ctx`scalar
    ensures ctx.State() == Decode(op, old(ctx.State()), code)
    ensures !Pending(ctx.State()) ==> inst == DecodedInst(op, old(ctx.State()), code)
  {
    hide *;
    ghost var c0 := ctx.State();
    SetPrefixes(ctx, NO_PREFIXES);
    ghost var scan := ScanPrefixes(code, 0, NO_PREFIXES, false);
    ghost var early := When(op == Cmp && scan.lock, UD);
    ghost var c := Stamp(c0, scan.prefixes);
    var lock, offset := ScanPrefixBytes(ctx, op, code);
    PrefixesStamped(ctx, c0, scan.prefixes, early);
    UnfoldParse(op, c0.scalar.segments.cs.longMode, code);
    UnfoldDecode(op, c0, code);
    ghost var parsed := Parse(op, c0.scalar.segments.cs.longMode, code);
    EarlyCodes(op == Cmp && scan.lock);
    if offset >= |code| {
      RaiseTwice(c, early, GP);
      inst := EmptyInst(0, 0);
      NoOperandYet(0, 0);
      NothingDecoded(c, scan.prefixes, First(early, Some(GP)), inst);
      ctx.RaiseException(GP, 0);
      RaisePends(RaiseAny(c, early), GP);
      return;
    }
    var opcode := code[offset];
    inst := EmptyInst(opcode, AddressSize(ctx.scalar.segments.cs.longMode, ctx.scalar.prefixes));
    NoOperandYet(opcode, AddressSize(c0.scalar.segments.cs.longMode, scan.prefixes));
    UnfoldOperands(op, scan.prefixes, lock, early, inst, code, offset + 1);
    inst := DecodeOperands(ctx, op, inst, code, offset + 1, lock, c, scan.prefixes, early);
    UnfoldOutcome(c, parsed, ctx.State(), inst);
  }

  /** The switch over the opcode. */
  method DecodeOperands(
    ctx: CpuContext, op: AluOp, start: Inst, code: seq<byte>, offset: nat, lock: bool,
    ghost c: Cpu, ghost p: Prefixes, ghost early: Option<ExceptionCode>) returns (inst: Inst)
    requires offset <= |code| && !start.hasModrm && start.memAddress == 0
    requires early in {None, Some(UD)} && ctx.State() == RaiseAny(c, early) && ctx.scalar.prefixes == p
    modifies ctx`exception, ctx`scalar
    ensures Outcome(c, ParseOperands(op, p, lock, early, start, code, offset), ctx.State(), inst)
  {
    hide *;
    UnfoldOperands(op, p, lock, early, start, code, offset);
    RaiseLock(c, early, lock);
    UnfoldRaise(ctx.State(), lock);
    ghost var withLock := First(early, When(lock, UD));
    var form := start.opcode - BaseOpcode(op);
    if form == 4 || form == 5 {
      if lock {
        ctx.RaiseException(UD, 0);
      }
      inst := DecodeImmediate(ctx, start, code, offset, if form == 4 then 1 else ImmediateSize(ctx.scalar.prefixes), c,
                              p, withLock);
    } else if start.opcode == 0x80 || start.opcode == 0x83 {
      inst := DecodeGroup(ctx, op, start, code, offset, lock, 1, c, p, early);
    } else if start.opcode == 0x81 {
      inst := DecodeGroup(ctx, op, start, code, offset, lock, ImmediateSize(ctx.scalar.prefixes), c, p, early);
    } else if form == 0 || form == 1 {
      inst := DecodeRegisterForm(ctx, start, code, offset, lock, c, p, early);
    } else if form == 2 || form == 3 {
      if lock {
        ctx.RaiseException(UD, 0);
      }
      inst := DecodeRegisterForm(ctx, start, code, offset, lock, c, p, withLock);
    } else {
      RaiseTwice(c, early, UD);
      RaisePends(RaiseAny(c, early), UD);
      ctx.RaiseException(UD, 0);
      NothingDecoded(c, p, First(early, Some(UD)), start);
      StampSizePending(ctx.State(), offset);
      SetSize(ctx, offset);
      UnfoldOutcome(c, ParseOperands(op, p, lock, early, start, code, offset), ctx.State(), start);
      inst := start;
    }
  }

  method SetPrefixes(ctx: CpuContext, p: Prefixes)
    modifies ctx`scalar
    ensures ctx.State() == Stamp(old(ctx.State()), p) && ctx.scalar.prefixes == p
  {
    ctx.scalar := ctx.scalar.(prefixes := p);
  }

  method SetSize(ctx: CpuContext, size: nat)
    modifies ctx`scalar
    ensures ctx.State() == StampSize(old(ctx.State()), size)
  {
    ctx.scalar := ctx.scalar.(lastInstSize := size);
  }

  lemma {:induction false} NoOperandYet(opcode: byte, size: nat)
    ensures !EmptyInst(opcode, size).hasModrm && EmptyInst(opcode, size).memAddress == 0
  {
  }

  lemma {:induction false} EarlyCodes(b: bool)
    ensures When(b, UD) in {None, Some(UD)}
  {
  }

  lemma {:induction false} UnfoldDecode(op: AluOp, c: Cpu, code: seq<byte>)
    ensures var p := Parse(op, c.scalar.segments.cs.longMode, code);
            && Decode(op, c, code) == Effects(Stamp(c, p.prefixes), p)
            && DecodedInst(op, c, code) == WithAddress(Stamp(c, p.prefixes), p.inst, p.length)
            && p.prefixes == ScanPrefixes(code, 0, NO_PREFIXES, false).prefixes
  {
    hide ScanPrefixes, Effects, WithAddress, LittleEndian, ParseModrm;
  }

  lemma {:induction false} PrefixesStamped(ctx: CpuContext, c0: Cpu, p: Prefixes, early: Option<ExceptionCode>)
    requires ctx.State() == RaiseAny(Stamp(Stamp(c0, NO_PREFIXES), p), early)
    ensures ctx.State() == RaiseAny(Stamp(c0, p), early)
    ensures ctx.scalar.prefixes == p && ctx.scalar.segments == c0.scalar.segments
  {
  }
}
