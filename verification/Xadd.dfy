/** XADD: an instruction flagged NO_FAULT that can fault, and what it then leaves behind. */
module Xadd {
  import opened Bits
  import opened MemoryManagement
  import opened CpuState
  import opened LinearMemory
  import opened Stack
  import opened Flags
  import opened Addressing
  import opened AluDecode
  import opened AluExecute
  import opened Decoder
  import opened Executor
  import opened Replay
  import opened PreciseSteps
  import opened OpenedEntries

  // Decoding.

  function ParseXadd(longCode: bool, code: seq<byte>): Parsed {
    var scan := ScanPrefixes(code, 0, NO_PREFIXES, false);
    if scan.offset + 2 > |code| then Parsed(scan.prefixes, Some(GP), EmptyInst(0, 0), None, false, 0)
    else
      ParseXaddForm(scan.prefixes, scan.lock, When(code[scan.offset] != 0x0F, UD),
                    EmptyInst(code[scan.offset + 1], AddressSize(longCode, scan.prefixes)), code, scan.offset + 2)
  }

  function ParseXaddForm(p: Prefixes, lock: bool, early: Option<ExceptionCode>, inst: Inst, code: seq<byte>,
                         offset: nat): Parsed
    requires offset <= |code| && !inst.hasModrm
  {
    if inst.opcode == 0xC0 || inst.opcode == 0xC1 then ParseRegisterForm(p, lock, early, inst, code, offset)
    else Parsed(p, First(early, Some(UD)), inst, None, true, offset)
  }

  function DecodeXadd(c: Cpu, code: seq<byte>): Cpu {
    var p := ParseXadd(c.scalar.segments.cs.longMode, code);
    Effects(Stamp(c, p.prefixes), p)
  }

  function XaddInst(c: Cpu, code: seq<byte>): Inst {
    var p := ParseXadd(c.scalar.segments.cs.longMode, code);
    WithAddress(Stamp(c, p.prefixes), p.inst, p.length)
  }

  /** decode_xadd_instruction. */
  method DecodeXaddInstruction(ctx: CpuContext, code: seq<byte>) returns (inst: Inst)
    modifies ctx`exception, ctx`scalar
    ensures ctx.State() == DecodeXadd(old(ctx.State()), code)
    ensures !Pending(ctx.State()) ==> inst == XaddInst(old(ctx.State()), code)
  {
    hide *;
    ghost var c0 := ctx.State();
    SetPrefixes(ctx, NO_PREFIXES);
    ghost var scan := ScanPrefixes(code, 0, NO_PREFIXES, false);
    ghost var c := Stamp(c0, scan.prefixes);
    var lock, offset := ScanPrefixBytes(ctx, Add, code);
    PrefixesStamped(ctx, c0, scan.prefixes, When(Add == Cmp && scan.lock, UD));
    UnfoldRaise(c, Add == Cmp && scan.lock);
    UnfoldParseXadd(c0.scalar.segments.cs.longMode, code);
    UnfoldDecodeXadd(c0, code);
    ghost var parsed := ParseXadd(c0.scalar.segments.cs.longMode, code);
    if offset + 2 > |code| {
      inst := EmptyInst(0, 0);
      NoOperandYet(0, 0);
      NothingDecoded(c, scan.prefixes, Some(GP), inst);
      ctx.RaiseException(GP, 0);
      RaiseSome(c, GP);
      RaisePends(c, GP);
      return;
    }
    ghost var early := When(code[offset] != 0x0F, UD);
    EarlyCodes(code[offset] != 0x0F);
    UnfoldRaise(c, code[offset] != 0x0F);
    if code[offset] != 0x0F {
      ctx.RaiseException(UD, 0);
    }
    inst := EmptyInst(code[offset + 1], AddressSize(ctx.scalar.segments.cs.longMode, ctx.scalar.prefixes));
    NoOperandYet(code[offset + 1], AddressSize(c0.scalar.segments.cs.longMode, scan.prefixes));
    UnfoldXaddForm(scan.prefixes, scan.lock, early, inst, code, offset + 2);
    if inst.opcode == 0xC0 || inst.opcode == 0xC1 {
      inst := DecodeRegisterForm(ctx, inst, code, offset + 2, lock, c, scan.prefixes, early);
    } else {
      RaiseTwice(c, early, UD);
      RaisePends(RaiseAny(c, early), UD);
      ctx.RaiseException(UD, 0);
      NothingDecoded(c, scan.prefixes, First(early, Some(UD)), inst);
      StampSizePending(ctx.State(), offset + 2);
      SetSize(ctx, offset + 2);
      AluDecode.UnfoldOutcome(c, parsed, ctx.State(), inst);
    }
    AluDecode.UnfoldOutcome(c, parsed, ctx.State(), inst);
  }

  lemma {:induction false} RaiseSome(c: Cpu, code: ExceptionCode)
    ensures RaiseAny(c, Some(code)) == Raise(c, code, 0)
  {
    hide Raise;
  }

  lemma {:induction false} UnfoldParseXadd(longCode: bool, code: seq<byte>)
    ensures var scan := ScanPrefixes(code, 0, NO_PREFIXES, false);
            && (scan.offset + 2 > |code| ==>
                  ParseXadd(longCode, code) == Parsed(scan.prefixes, Some(GP), EmptyInst(0, 0), None, false, 0))
            && (scan.offset + 2 <= |code| ==>
                  var inst := EmptyInst(code[scan.offset + 1], AddressSize(longCode, scan.prefixes));
                  !inst.hasModrm && ParseXadd(longCode, code)
                  == ParseXaddForm(scan.prefixes, scan.lock, When(code[scan.offset] != 0x0F, UD), inst, code,
                                   scan.offset + 2))
            && ParseXadd(longCode, code).prefixes == scan.prefixes
  {
    hide ScanPrefixes, ParseModrm, First, When, AddressSize;
  }

  lemma {:induction false} UnfoldXaddForm(p: Prefixes, lock: bool, early: Option<ExceptionCode>, inst: Inst,
                                          code: seq<byte>, offset: nat)
    requires offset <= |code| && !inst.hasModrm
    ensures ParseXaddForm(p, lock, early, inst, code, offset)
            == if inst.opcode == 0xC0 || inst.opcode == 0xC1 then ParseRegisterForm(p, lock, early, inst, code, offset)
               else Parsed(p, First(early, Some(UD)), inst, None, true, offset)
  {
    hide ParseRegisterForm, First;
  }

  lemma {:induction false} UnfoldDecodeXadd(c: Cpu, code: seq<byte>)
    ensures var p := ParseXadd(c.scalar.segments.cs.longMode, code);
            DecodeXadd(c, code) == Effects(Stamp(c, p.prefixes), p)
            && XaddInst(c, code) == WithAddress(Stamp(c, p.prefixes), p.inst, p.length)
  {
    hide ParseXadd, Effects, WithAddress;
  }

  // Executing, without LOCK.

  function XaddWidth(c: Cpu, inst: Inst): Width {
    if inst.opcode == 0xC0 then 8
    else if c.scalar.prefixes.rexW then 64
    else if c.scalar.prefixes.operandSize then 16
    else 32
  }

  function XaddIndex(c: Cpu, inst: Inst): nat {
    Extended(RegField(inst.modrm), c.scalar.prefixes.rexR)
  }

  /** xadd_rm_reg: the flags and the register change before the sum is stored. */
  function Exchange(m: Machine, inst: Inst): Machine {
    var w := XaddWidth(m.cpu, inst);
    var (m1, dst) := ReadOperand(m, inst, w, InRm);
    if Pending(m1.cpu) then m1
    else WriteOperand(m1.(cpu := Marked(m1.cpu, inst, dst)), inst, w, InRm,
                      AddResult(w, Low(w, dst), GetReg(m.cpu, XaddIndex(m.cpu, inst), w), 0))
  }

  /** The context once the destination has been read: the flags of the sum, and the old value in the register. */
  function Marked(c: Cpu, inst: Inst, dst: nat): Cpu {
    var w, index := XaddWidth(c, inst), XaddIndex(c, inst);
    SetReg(WithFlags(c, AddFlags(c.scalar.rflags, w, Low(w, dst), GetReg(c, index, w))), index, w, Low(w, dst))
  }

  method ExecuteXadd(ctx: CpuContext, inst: Inst)
    modifies ctx`scalar, ctx`exception, ctx.memMgr`host
    ensures ctx.Whole() == Exchange(old(ctx.Whole()), inst)
  {
    hide ReadOperand, WriteOperand, GetReg, SetReg, AddFlags, AddResult, WithFlags, Pending, Low, Modulus, XaddWidth,
      XaddIndex;
    var w, index := XaddWidth(ctx.State(), inst), XaddIndex(ctx.State(), inst);
    var src := GetReg(ctx.State(), index, w);
    var dst := FetchOperand(ctx, inst, w, InRm);
    if Pending(ctx.State()) {
      return;
    }
    ReadQuietly(old(ctx.Whole()), inst, w);
    SetFlags(ctx, AddFlags(ctx.scalar.rflags, w, Low(w, dst), src));
    PutRegister(ctx, index, w, Low(w, dst));
    SumFits(w, Low(w, dst), src);
    PutResult(ctx, inst, w, InRm, AddResult(w, Low(w, dst), src, 0));
  }

  method PutRegister(ctx: CpuContext, index: nat, w: Width, value: nat)
    requires value < Modulus(w)
    modifies ctx`scalar
    ensures ctx.State() == SetReg(old(ctx.State()), index, w, value)
  {
    hide SetReg, Modulus;
    SetRegFrame(ctx.State(), index, w, value);
    LoadScalar(ctx, SetReg(ctx.State(), index, w, value));
  }

  lemma {:induction false} SumFits(w: Width, dst: nat, src: nat)
    ensures AddResult(w, dst, src, 0) < Modulus(w)
  {
  }

  /** A read that raises nothing changes nothing. */
  lemma {:induction false} ReadQuietly(m: Machine, inst: Inst, w: Width)
    ensures var after := ReadOperand(m, inst, w, InRm).0; !Pending(after.cpu) ==> after == m
  {
    hide Checked, LoadValue, GetReg, Pending, ModField, RmIndex;
    CheckedFrame(m, inst.memAddress, w as int / 8, Read);
  }

  /** Legacy: decode, and run the body unless that faulted. */
  function LegacyXadd(m: Machine, code: seq<byte>): Machine {
    var decoded := DecodeXadd(m.cpu, code);
    if Pending(decoded) then m.(cpu := decoded) else Exchange(m.(cpu := decoded), XaddInst(m.cpu, code))
  }

  /** execute_xadd_fast: the address is computed again, and the body runs even if its check faulted. */
  function FastXadd(m: Machine, inst: Inst, p: Prefixes, length: nat): Machine {
    var c := StampSize(Stamp(m.cpu, p), length);
    if !MemoryForm(inst) then Exchange(m.(cpu := c), inst)
    else Exchange(m.(cpu := ValidateOperand(c, inst, length)), inst.(memAddress := LinearAddress(c, inst, length)))
  }

  // What the body does.

  lemma {:induction false} MarkedFrame(c: Cpu, inst: Inst, dst: nat)
    ensures var after := Marked(c, inst, dst);
            && after == c.(scalar := c.scalar.(regs := after.scalar.regs, rflags := after.scalar.rflags))
            && (!Pending(c) ==> var w := XaddWidth(c, inst);
                                after.scalar.rflags == AddFlags(c.scalar.rflags, w, Low(w, dst),
                                                                GetReg(c, XaddIndex(c, inst), w)))
  {
    hide SetReg, AddFlags, GetReg, Low, Modulus, XaddWidth, XaddIndex;
    var w, index := XaddWidth(c, inst), XaddIndex(c, inst);
    SetRegFrame(WithFlags(c, AddFlags(c.scalar.rflags, w, Low(w, dst), GetReg(c, index, w))), index, w, Low(w, dst));
  }

  /** Registers and flags have no say in what can be accessed. */
  lemma {:induction false} MarkedAccess(m: Machine, inst: Inst, dst: nat, address: u64, n: nat)
    ensures var after := m.(cpu := Marked(m.cpu, inst, dst));
            && Pending(after.cpu) == Pending(m.cpu)
            && (forall access: Access :: Accessible(after, address, n, access) == Accessible(m, address, n, access))
  {
    hide Marked, FirstFault, Is64BitCode;
    var after := m.(cpu := Marked(m.cpu, inst, dst));
    MarkedFrame(m.cpu, inst, dst);
    MarkedMode(m.cpu, after.cpu);
    forall access: Access ensures Accessible(after, address, n, access) == Accessible(m, address, n, access) {
      SameFaults(m, after, address, n, access);
    }
  }

  lemma {:induction false} MarkedMode(c: Cpu, after: Cpu)
    requires after == c.(scalar := c.scalar.(regs := after.scalar.regs, rflags := after.scalar.rflags))
    ensures Is64BitCode(after) == Is64BitCode(c) && Pending(after) == Pending(c) && after.scalar.cpl == c.scalar.cpl
  {
  }

  function Sum(m: Machine, inst: Inst, dst: nat): (r: u64)
    ensures r < Modulus(XaddWidth(m.cpu, inst))
  {
    var w := XaddWidth(m.cpu, inst);
    SumFits(w, Low(w, dst), GetReg(m.cpu, XaddIndex(m.cpu, inst), w));
    AddResult(w, Low(w, dst), GetReg(m.cpu, XaddIndex(m.cpu, inst), w), 0)
  }

  lemma {:induction false} UnfoldExchange(m: Machine, inst: Inst)
    requires MemoryForm(inst) && !Pending(m.cpu)
    ensures var n, dst := XaddWidth(m.cpu, inst) as int / 8,
            LoadValue(m, inst.memAddress, XaddWidth(m.cpu, inst) as int / 8);
            && (!Accessible(m, inst.memAddress, n, Read) ==> Exchange(m, inst) == Checked(m, inst.memAddress, n, Read))
            && (Accessible(m, inst.memAddress, n, Read) ==>
                  Exchange(m, inst) == Store(m.(cpu := Marked(m.cpu, inst, dst)), inst.memAddress, n,
                                             Sum(m, inst, dst)))
  {
    hide Accessible, LoadValue, Checked, Store, Marked, GetReg, AddResult, Low, Modulus, XaddWidth, XaddIndex, Pending;
    CheckedPends(m, inst.memAddress, XaddWidth(m.cpu, inst) as int / 8, Read);
  }

  /** XADD on memory faults exactly when the operand cannot be read or cannot be written. When it cannot be read,
      nothing has changed but CR2 and the exception; when it can be read but not written, the flags and the
      register have their new values already. */
  lemma {:induction false} ExchangeFaults(m: Machine, inst: Inst)
    requires MemoryForm(inst) && !Pending(m.cpu)
    ensures var n, after := XaddWidth(m.cpu, inst) as int / 8, Exchange(m, inst);
            var left := if Accessible(m, inst.memAddress, n, Read)
                        then Marked(m.cpu, inst, LoadValue(m, inst.memAddress, n)) else m.cpu;
            && (Pending(after.cpu) <==> !(Accessible(m, inst.memAddress, n, Read)
                                          && Accessible(m, inst.memAddress, n, Write)))
            && (Pending(after.cpu) ==> after.mem == m.mem && FaultOnly(left, after.cpu))
  {
    hide Accessible, LoadValue, Store, Marked, Low, Modulus, XaddWidth, Pending, MemoryForm, Exchange, Checked, Sum;
    var n := XaddWidth(m.cpu, inst) as int / 8;
    var dst := LoadValue(m, inst.memAddress, n);
    UnfoldExchange(m, inst);
    CheckedPends(m, inst.memAddress, n, Read);
    CheckedOnly(m, inst.memAddress, n, Read);
    MarkedAccess(m, inst, dst, inst.memAddress, n);
    var marked := m.(cpu := Marked(m.cpu, inst, dst));
    StoreOutcome(marked, inst.memAddress, n, Sum(m, inst, dst));
    CheckedOnly(marked, inst.memAddress, n, Write);
  }

  lemma {:induction false} StoreOutcome(m: Machine, address: u64, n: nat, value: nat)
    requires !Pending(m.cpu)
    ensures Accessible(m, address, n, Write) ==> !Pending(Store(m, address, n, value).cpu)
    ensures !Accessible(m, address, n, Write) ==>
              Store(m, address, n, value) == Checked(m, address, n, Write) && Pending(Store(m, address, n, value).cpu)
  {
    hide Accessible, StoreBytes, Bytes, Checked, Pending;
    CheckedPends(m, address, n, Write);
  }

  /** The operand size and the register operand, from the opcode, the prefixes and ModRM. */
  lemma {:induction false} XaddOperands(c: Cpu, inst: Inst)
    ensures XaddWidth(c, inst) == if inst.opcode == 0xC0 then 8 else if c.scalar.prefixes.rexW then 64
                                  else if c.scalar.prefixes.operandSize then 16 else 32
    ensures XaddIndex(c, inst) == inst.modrm / 8 % 8 + if c.scalar.prefixes.rexR then 8 else 0
  {
  }

  /** When the operand can be read and written, memory holds the sum, the register the old value, and the flags are
      those of the addition: CF for a carry out of the operand, OF for signed overflow, AF for a carry out of the low
      digit, the others for the sum; nothing else has changed. */
  lemma {:induction false} ExchangesAndAdds(m: Machine, inst: Inst)
    requires MemoryForm(inst) && Unaliased(m.mem)
    requires var n := XaddWidth(m.cpu, inst) as int / 8;
             Accessible(m, inst.memAddress, n, Read) && Accessible(m, inst.memAddress, n, Write)
    ensures var w, after := XaddWidth(m.cpu, inst), Exchange(m, inst);
            var n, index := w as int / 8, XaddIndex(m.cpu, inst);
            var dst, src := LoadValue(m, inst.memAddress, n), GetReg(m.cpu, index, w);
            && !Pending(after.cpu) && GetReg(after.cpu, index, w) == dst < Modulus(w)
            && LoadValue(after, inst.memAddress, n) == (dst + src) % Modulus(w)
            && FlagsRead(w, m.cpu.scalar.rflags, after.cpu.scalar.rflags, (dst + src) % Modulus(w),
                         dst + src >= Modulus(w), dst % 16 + src % 16 >= 16,
                         !(-(Modulus(w) / 2) <= Signed(w, dst) + Signed(w, src) < Modulus(w) / 2))
            && after.cpu.scalar.regs == SetReg(m.cpu, index, w, dst).scalar.regs
            && after.cpu == m.cpu.(scalar := m.cpu.scalar.(regs := after.cpu.scalar.regs,
                                                           rflags := after.cpu.scalar.rflags))
  {
    hide Accessible, LoadValue, Store, Marked, Low, Modulus, XaddWidth, XaddIndex, Pending, MemoryForm, Exchange,
      Checked, SetReg, Sum, GetReg, AddFlags, Unaliased, FlagsRead, Signed;
    var w := XaddWidth(m.cpu, inst);
    var n, dst := w as int / 8, LoadValue(m, inst.memAddress, w as int / 8);
    ReadableChecked(m, inst.memAddress, n);
    UnfoldExchange(m, inst);
    LoadIsLow(m, inst.memAddress, w);
    var marked := m.(cpu := Marked(m.cpu, inst, dst));
    MarkedFrame(m.cpu, inst, dst);
    MarkedAccess(m, inst, dst, inst.memAddress, n);
    MarkedRegister(m.cpu, inst, dst);
    MarkedRegisters(m.cpu, inst, dst);
    SumIs(m, inst, dst);
    SumWidth(w, Sum(m, inst, dst));
    LoadAfterStore(marked, inst.memAddress, n, Sum(m, inst, dst));
    StoredCpu(marked, inst.memAddress, n, Sum(m, inst, dst));
    AddFlagsMean(m.cpu.scalar.rflags, w, dst, GetReg(m.cpu, XaddIndex(m.cpu, inst), w));
  }

  /** On two registers XADD writes the register operand first and the sum last, so that a register exchanged with
      itself holds the sum; it never faults. */
  lemma {:induction false} ExchangesRegisters(m: Machine, inst: Inst)
    requires ModField(inst.modrm) == 3 && !Pending(m.cpu)
    ensures var w, after, index := XaddWidth(m.cpu, inst), Exchange(m, inst), XaddIndex(m.cpu, inst);
            var rm := inst.modrm % 8 + if m.cpu.scalar.prefixes.rexB then 8 else 0;
            var dst, src := GetReg(m.cpu, rm, w), GetReg(m.cpu, index, w);
            var sum := (dst + src) % Modulus(w);
            && FlagsRead(w, m.cpu.scalar.rflags, after.cpu.scalar.rflags, sum,
                         dst + src >= Modulus(w), dst % 16 + src % 16 >= 16,
                         !(-(Modulus(w) / 2) <= Signed(w, dst) + Signed(w, src) < Modulus(w) / 2))
            && after.cpu.scalar.regs == SetReg(SetReg(m.cpu, index, w, dst), rm, w, sum).scalar.regs
            && after == m.(cpu := m.cpu.(scalar := m.cpu.scalar.(regs := after.cpu.scalar.regs,
                                                                 rflags := after.cpu.scalar.rflags)))
  {
    hide Low, Modulus, XaddWidth, XaddIndex, Pending, SetReg, GetReg, AddFlags, FlagsRead, Signed, Marked, ModField,
      Exchange, AddResult;
    var w, index := XaddWidth(m.cpu, inst), XaddIndex(m.cpu, inst);
    var rm := inst.modrm % 8 + if m.cpu.scalar.prefixes.rexB then 8 else 0;
    var dst, src := GetReg(m.cpu, rm, w), GetReg(m.cpu, index, w);
    ExchangeForm(m, inst, rm);
    AddFlagsMean(m.cpu.scalar.rflags, w, dst, src);
    var marked, sum := Marked(m.cpu, inst, dst), (dst + src) % Modulus(w);
    SetRegFrame(m.cpu, index, w, dst);
    SetRegFrame(marked, rm, w, sum);
    LaterWrite(SetReg(m.cpu, index, w, dst), marked, rm, w, sum);
  }

  lemma {:induction false} ExchangeForm(m: Machine, inst: Inst, rm: nat)
    requires ModField(inst.modrm) == 3 && !Pending(m.cpu)
    requires rm == inst.modrm % 8 + if m.cpu.scalar.prefixes.rexB then 8 else 0
    ensures var w, index := XaddWidth(m.cpu, inst), XaddIndex(m.cpu, inst);
            var dst, src := GetReg(m.cpu, rm, w), GetReg(m.cpu, index, w);
            var marked := Marked(m.cpu, inst, dst);
            && Exchange(m, inst) == m.(cpu := SetReg(marked, rm, w, (dst + src) % Modulus(w)))
            && marked == m.cpu.(scalar := m.cpu.scalar.(regs := marked.scalar.regs, rflags := marked.scalar.rflags))
            && marked.scalar.regs == SetReg(m.cpu, index, w, dst).scalar.regs
            && marked.scalar.rflags == AddFlags(m.cpu.scalar.rflags, w, dst, src)
  {
    hide Low, Modulus, XaddWidth, XaddIndex, Pending, SetReg, GetReg, AddFlags, Marked, ModField, AddResult;
    var w := XaddWidth(m.cpu, inst);
    var dst, src := GetReg(m.cpu, rm, w), GetReg(m.cpu, XaddIndex(m.cpu, inst), w);
    SmallLow(w, dst);
    PlainSum(w, dst, src);
    MarkedFrame(m.cpu, inst, dst);
    MarkedRegisters(m.cpu, inst, dst);
  }

  lemma {:induction false} PlainSum(w: Width, x: nat, y: nat)
    ensures AddResult(w, x, y, 0) == (x + y) % Modulus(w)
  {
    hide Modulus;
  }

  lemma {:induction false} LaterWrite(a: Cpu, b: Cpu, r: nat, w: Width, value: nat)
    requires value < Modulus(w) && a.scalar.regs == b.scalar.regs && a.scalar.prefixes == b.scalar.prefixes
    ensures SetReg(a, r, w, value).scalar.regs == SetReg(b, r, w, value).scalar.regs
  {
    hide Wrap, Low, Modulus;
  }

  /** The flags do not matter to the write. */
  lemma {:induction false} MarkedRegisters(c: Cpu, inst: Inst, dst: nat)
    ensures var w := XaddWidth(c, inst);
            Marked(c, inst, dst).scalar.regs == SetReg(c, XaddIndex(c, inst), w, Low(w, dst)).scalar.regs
  {
    hide AddFlags, GetReg, Low, Modulus, XaddWidth, XaddIndex, Wrap;
  }

  lemma {:induction false} StoredCpu(m: Machine, address: u64, n: nat, value: nat)
    requires Accessible(m, address, n, Write)
    ensures Store(m, address, n, value).cpu == m.cpu
  {
    hide Accessible, StoreBytes, Bytes;
  }

  lemma {:induction false} MarkedRegister(c: Cpu, inst: Inst, dst: nat)
    ensures GetReg(Marked(c, inst, dst), XaddIndex(c, inst), XaddWidth(c, inst)) == Low(XaddWidth(c, inst), dst)
  {
    hide SetReg, AddFlags, GetReg, Low, Modulus, XaddWidth, XaddIndex, WithFlags;
    var w, index := XaddWidth(c, inst), XaddIndex(c, inst);
    RegisterReadsBack(WithFlags(c, AddFlags(c.scalar.rflags, w, Low(w, dst), GetReg(c, index, w))), index, w,
                      Low(w, dst));
  }

  lemma {:induction false} SumIs(m: Machine, inst: Inst, dst: nat)
    ensures var w := XaddWidth(m.cpu, inst);
            Sum(m, inst, dst) == (Low(w, dst) + GetReg(m.cpu, XaddIndex(m.cpu, inst), w)) % Modulus(w)
  {
    hide GetReg, Modulus, XaddWidth, XaddIndex;
  }

  lemma {:induction false} SumWidth(w: Width, value: nat)
    requires value < Modulus(w)
    ensures value < Pow2(8 * (w as int / 8))
  {
    hide Modulus, Pow2;
    PowWidth(w);
  }

  lemma {:induction false} LoadIsLow(m: Machine, address: u64, w: Width)
    requires Accessible(m, address, w as int / 8, Read)
    ensures Low(w, LoadValue(m, address, w as int / 8)) == LoadValue(m, address, w as int / 8)
  {
    hide Accessible, LittleEndian, BytesAt, Pow2, Low, Modulus;
    LittleEndianWidth(BytesAt(m.mem, address, w as int / 8));
    PowWidth(w);
    SmallLow(w, LoadValue(m, address, w as int / 8));
  }

  // The entry.

  predicate XaddCode(mode: nat, code: seq<byte>) {
    var n := PrefixLength(mode, code, 0);
    n + 1 < |code| <= 15 && code[n] == 0x0F && (code[n + 1] == 0xC0 || code[n + 1] == 0xC1)
  }

  predicate Unlocked(mode: nat, code: seq<byte>) {
    forall i :: 0 <= i < PrefixLength(mode, code, 0) ==> code[i] != 0xF0
  }

  /** The classifier takes the second opcode byte for a ModRM byte with mod 3: whatever the operand, XADD without
      LOCK is flagged NO_FAULT. */
  lemma {:induction false} ClassifiedSafe(mode: nat, code: seq<byte>)
    requires XaddCode(mode, code)
    ensures var n := PrefixLength(mode, code, 0); ClassifyNoFault(code, n, OpcodeAt(code, n)) <==> Unlocked(mode, code)
  {
    hide PrefixLength;
    var n := PrefixLength(mode, code, 0);
    assert ModField(code[n + 1]) == 3;
  }

  // Payloads, as the numbers a capture holds.

  function Packed(inst: Inst, p: Prefixes): seq<int> {
    [inst.opcode, inst.modrm, inst.sib, inst.displacement, inst.addressSize, Flag(p.rexPresent), Flag(p.rexW),
     Flag(p.rexR), Flag(p.rexX), Flag(p.rexB), Flag(p.operandSize), Flag(p.addressSize)]
  }

  function UnpackedInst(fields: seq<int>): Inst
    requires |fields| == 12
  {
    Inst(fields[0] % 0x100, true, fields[1] % 0x100, fields[2] % 0x100, fields[3], 0,
         if fields[4] < 0 then 0 else fields[4], 0)
  }

  function UnpackedPrefixes(fields: seq<int>): Prefixes
    requires |fields| == 12
  {
    Prefixes(fields[5] == 1, fields[6] == 1, fields[7] == 1, fields[8] == 1, fields[9] == 1, fields[10] == 1,
             fields[11] == 1)
  }

  lemma {:induction false} PackedRoundTrip(inst: Inst, p: Prefixes)
    requires inst.hasModrm && inst.immediate == 0 && inst.memAddress == 0
    ensures UnpackedInst(Packed(inst, p)) == inst && UnpackedPrefixes(Packed(inst, p)) == p
  {
  }

  /** The probe with decode_xadd_instruction. */
  function ProbeXadd(c: Cpu, code: seq<byte>): Option<Captured> {
    var p := ParseXadd(c.scalar.segments.cs.longMode, code);
    var decoded := DecodeXadd(c, code);
    if Pending(decoded) || !(0 < decoded.scalar.lastInstSize <= 15) then None
    else Some(Captured(Packed(p.inst, p.prefixes), decoded.scalar.lastInstSize))
  }

  function ReplayXadd(m: Machine, captured: Captured): Machine {
    if |captured.fields| != 12 then m
    else FastXadd(m, UnpackedInst(captured.fields), UnpackedPrefixes(captured.fields), captured.length)
  }

  /** The ladder of this instruction set routes 0F C0 and 0F C1 to XADD under the given number. */
  ghost predicate RoutesXadd(isa: Isa, id: nat) {
    && (forall mode: nat, code: seq<byte> :: XaddCode(mode, code) ==>
          isa.special(code) == None && isa.other(code, mode) == Some(Run(id, false)) && !isa.touchesVector(code, mode))
    && (forall mode: nat, code: seq<byte>, m: Machine :: XaddCode(mode, code) && Unlocked(mode, code) ==>
          isa.run(id, code, m) == LegacyXadd(m, code))
    && (forall mode: nat, code: seq<byte>, c: Cpu :: XaddCode(mode, code) && Unlocked(mode, code) ==>
          isa.attach(id, code, c) == ProbeXadd(c, code))
    && (forall captured: Captured, m: Machine :: isa.fast(id, captured, m) == ReplayXadd(m, captured))
  }

  lemma {:induction false} Routed(isa: Isa, id: nat, mode: nat, code: seq<byte>)
    requires RoutesXadd(isa, id) && XaddCode(mode, code)
    ensures isa.special(code) == None && isa.other(code, mode) == Some(Run(id, false)) && !isa.touchesVector(code, mode)
  {
    hide XaddCode, Unlocked, LegacyXadd, ProbeXadd, ReplayXadd;
  }

  lemma {:induction false} RoutedHandlers(isa: Isa, id: nat, mode: nat, code: seq<byte>, m: Machine, c: Cpu,
                                          captured: Captured)
    requires RoutesXadd(isa, id) && XaddCode(mode, code) && Unlocked(mode, code)
    ensures isa.run(id, code, m) == LegacyXadd(m, code) && isa.attach(id, code, c) == ProbeXadd(c, code)
    ensures isa.fast(id, captured, m) == ReplayXadd(m, captured)
  {
    hide XaddCode, Unlocked, LegacyXadd, ProbeXadd, ReplayXadd;
  }

  lemma {:induction false} ClassifiedXadd(isa: Isa, id: nat, mode: nat, code: seq<byte>)
    requires XaddCode(mode, code) && isa.other(code, mode) == Some(Run(id, false)) && !isa.touchesVector(code, mode)
    ensures var n := PrefixLength(mode, code, 0);
            var e := Classify(isa, mode, code, n, OpcodeAt(code, n));
            e == StartEntry(isa, mode, code, n, OpcodeAt(code, n)).(
                   branch := false, handler := Opaque(id), noFault := ClassifyNoFault(code, n, OpcodeAt(code, n)))
  {
    hide PrefixLength, ClassifyNoFault, PeekSegment, EscapeCandidate, RetOperandSize, LittleEndian;
  }

  /** Its entry: no vector state, no quick exit, and the flag that spares the snapshot, unless LOCK is there. */
  lemma {:induction false} XaddEntry(isa: Isa, id: nat, mode: nat, code: seq<byte>)
    requires RoutesXadd(isa, id) && XaddCode(mode, code)
    ensures var e := StaticEntry(isa, mode, code);
            && e.handler == Opaque(id) && e.inline == NotInline && !e.ud && !e.bp && !e.db && !e.partial && !e.vector
            && e.bytes == code && e.fast == None && Installable(e) && (e.noFault <==> Unlocked(mode, code))
  {
    hide PrefixLength, ClassifyNoFault, OpcodeAt, Classify, StartEntry, RoutesXadd, Unlocked;
    var n := PrefixLength(mode, code, 0);
    Routed(isa, id, mode, code);
    ClassifiedXadd(isa, id, mode, code);
    StartFields(isa, mode, code, n, OpcodeAt(code, n));
    ClassifiedSafe(mode, code);
  }

  // The step.

  lemma {:induction false} XaddParsed(longCode: bool, code: seq<byte>)
    ensures var p := ParseXadd(longCode, code);
            && (!p.complete ==> p.early.Some? || p.late.Some?)
            && p.early in {None, Some(UD), Some(GP)} && p.late in {None, Some(UD), Some(GP)}
            && (Clean(p) ==> p.inst.hasModrm && p.inst.immediate == 0 && p.inst.memAddress == 0)
  {
    hide ScanPrefixes, LittleEndian, RegisterLock, SignedDisplacement, RmField, ModField, DisplacementSize, HasSib,
      AddressSize;
  }

  /** The context in which the body starts. */
  function Entered(c: Cpu, p: Parsed): Cpu {
    StampSize(Stamp(c, p.prefixes), p.length)
  }

  lemma {:induction false} EnteredIdle(c: Cpu, p: Parsed)
    ensures Pending(Entered(c, p)) == Pending(c) && Entered(c, p).vector == c.vector
    ensures UpToScratch(c.scalar, Entered(c, p).scalar)
    ensures Pending(Stamp(c, p.prefixes)) == Pending(c)
  {
  }

  lemma {:induction false} QuietDecode(c: Cpu, code: seq<byte>)
    requires !Pending(c) && !Pending(DecodeXadd(c, code))
    ensures var p := ParseXadd(c.scalar.segments.cs.longMode, code);
            && Clean(p) && DecodeXadd(c, code) == Entered(c, p) && DecodeXadd(c, code).scalar.lastInstSize == p.length
  {
    hide ParseXadd, Effects, Pending;
    var p := ParseXadd(c.scalar.segments.cs.longMode, code);
    XaddParsed(c.scalar.segments.cs.longMode, code);
    EnteredIdle(c, p);
    QuietEffects(Stamp(c, p.prefixes), p);
  }

  /** The operand address is good where the handler checks it. */
  predicate BodyReached(c: Cpu, code: seq<byte>, fast: bool) {
    var p := ParseXadd(c.scalar.segments.cs.longMode, code);
    && Clean(p) && MemoryForm(p.inst)
    && !Pending(if fast then ValidateOperand(Entered(c, p), p.inst, p.length) else DecodeXadd(c, code))
  }

  function Operand(c: Cpu, p: Parsed): Inst {
    p.inst.(memAddress := LinearAddress(Entered(c, p), p.inst, p.length))
  }

  /** The operand can be read, and XADD of it would change the register or the flags. */
  predicate LeavesMark(s: Machine, code: seq<byte>, fast: bool) {
    var p := ParseXadd(s.cpu.scalar.segments.cs.longMode, code);
    var start, inst := s.(cpu := Entered(s.cpu, p)), Operand(s.cpu, p);
    var n := XaddWidth(start.cpu, inst) as int / 8;
    && BodyReached(s.cpu, code, fast) && Accessible(start, inst.memAddress, n, Read)
    && Marked(start.cpu, inst, LoadValue(start, inst.memAddress, n)) != start.cpu
  }

  lemma {:induction false} RegisterExchange(m: Machine, inst: Inst)
    requires inst.hasModrm && !MemoryForm(inst) && !Pending(m.cpu)
    ensures !Pending(Exchange(m, inst).cpu)
  {
    hide SetReg, GetReg, AddFlags, Low, Modulus, XaddWidth, XaddIndex, RmIndex, Marked, LoadValue, AddResult;
    var w := XaddWidth(m.cpu, inst);
    var dst := ReadOperand(m, inst, w, InRm).1;
    MarkedFrame(m.cpu, inst, dst);
    SetRegFrame(Marked(m.cpu, inst, dst), RmIndex(Marked(m.cpu, inst, dst), inst), w, Sum(m, inst, dst));
    SumExchange(m, inst, dst);
  }

  lemma {:induction false} SumExchange(m: Machine, inst: Inst, dst: nat)
    ensures Sum(m, inst, dst)
            == AddResult(XaddWidth(m.cpu, inst), Low(XaddWidth(m.cpu, inst), dst),
                         GetReg(m.cpu, XaddIndex(m.cpu, inst), XaddWidth(m.cpu, inst)), 0)
  {
    hide AddResult, GetReg, Low;
  }

  lemma {:induction false} PendingExchange(m: Machine, inst: Inst)
    requires MemoryForm(inst) && Pending(m.cpu)
    ensures Exchange(m, inst) == m
  {
    hide FirstFault, Accessible;
  }

  /** What a fault of the handler leaves: the marks if there are any, the scratch otherwise. */
  ghost predicate XaddFault(s: Machine, code: seq<byte>, fast: bool, ran: Machine) {
    var p := ParseXadd(s.cpu.scalar.segments.cs.longMode, code);
    Pending(ran.cpu) ==>
      && ran.mem == s.mem && ran.cpu.vector == s.cpu.vector
      && (if LeavesMark(s, code, fast) then
            var start, inst := s.(cpu := Entered(s.cpu, p)), Operand(s.cpu, p);
            FaultOnly(Marked(start.cpu, inst,
                             LoadValue(start, inst.memAddress, XaddWidth(start.cpu, inst) as int / 8)), ran.cpu)
          else UpToScratch(s.cpu.scalar.(controlRegs := s.cpu.scalar.controlRegs[2 := ran.cpu.scalar.controlRegs[2]]),
                           ran.cpu.scalar))
  }

  lemma {:induction false} ScratchFault(s: Machine, code: seq<byte>, fast: bool, after: Cpu)
    requires !BodyReached(s.cpu, code, fast)
    requires after == s.cpu.(exception := after.exception,
                             scalar := s.cpu.scalar.(prefixes := after.scalar.prefixes,
                                                     lastInstSize := after.scalar.lastInstSize))
    ensures XaddFault(s, code, fast, s.(cpu := after))
  {
    hide BodyReached, ParseXadd, Marked, Accessible, LoadValue, XaddWidth, Operand;
    assert s.cpu.scalar.controlRegs[2 := s.cpu.scalar.controlRegs[2]] == s.cpu.scalar.controlRegs;
  }

  lemma {:induction false} BodyFault(s: Machine, code: seq<byte>, fast: bool)
    requires !Pending(s.cpu) && BodyReached(s.cpu, code, fast)
    ensures var p := ParseXadd(s.cpu.scalar.segments.cs.longMode, code);
            XaddFault(s, code, fast, Exchange(s.(cpu := Entered(s.cpu, p)), Operand(s.cpu, p)))
  {
    hide BodyReached, ParseXadd, Marked, Accessible, LoadValue, XaddWidth, Pending, Exchange, LinearAddress, Entered;
    var p := ParseXadd(s.cpu.scalar.segments.cs.longMode, code);
    var start, inst := s.(cpu := Entered(s.cpu, p)), Operand(s.cpu, p);
    ReachedForm(s.cpu, code, fast);
    SameOperand(s.cpu, inst, p.inst, 0);
    EnteredIdle(s.cpu, p);
    ExchangeFaults(start, inst);
    MarkedFrame(start.cpu, inst, LoadValue(start, inst.memAddress, XaddWidth(start.cpu, inst) as int / 8));
  }

  lemma {:induction false} ReachedForm(c: Cpu, code: seq<byte>, fast: bool)
    requires BodyReached(c, code, fast)
    ensures MemoryForm(ParseXadd(c.scalar.segments.cs.longMode, code).inst)
  {
    hide ParseXadd;
  }

  lemma {:induction false} UnfoldReached(c: Cpu, code: seq<byte>, fast: bool)
    ensures var p := ParseXadd(c.scalar.segments.cs.longMode, code);
            BodyReached(c, code, fast) ==
            (Clean(p) && MemoryForm(p.inst)
             && !Pending(if fast then ValidateOperand(Entered(c, p), p.inst, p.length) else DecodeXadd(c, code)))
  {
    hide ParseXadd, MemoryForm, Pending, ValidateOperand, Entered, DecodeXadd;
  }

  lemma {:induction false} QuietFault(s: Machine, code: seq<byte>, fast: bool, ran: Machine)
    requires !Pending(ran.cpu)
    ensures XaddFault(s, code, fast, ran)
  {
    hide LeavesMark, ParseXadd;
  }

  lemma {:induction false} ScratchOf(c: Cpu, p: Parsed)
    ensures var after := Effects(Stamp(c, p.prefixes), p);
            after == c.(exception := after.exception,
                        scalar := c.scalar.(prefixes := after.scalar.prefixes,
                                            lastInstSize := after.scalar.lastInstSize))
    ensures forall e :: Entered(c, p).(exception := e)
                        == c.(exception := e, scalar := c.scalar.(prefixes := p.prefixes, lastInstSize := p.length))
  {
    hide Effects;
    EffectsFrame(Stamp(c, p.prefixes), p);
  }

  lemma {:induction false} AddressAtStart(c: Cpu, p: Parsed)
    requires MemoryForm(p.inst)
    ensures WithAddress(Stamp(c, p.prefixes), p.inst, p.length) == Operand(c, p)
  {
    hide LinearAddress, EffectiveSegment, Is64BitCode;
    SameAddress(Stamp(c, p.prefixes), Entered(c, p), p.inst, p.length);
  }

  lemma {:induction false} LegacyFault(s: Machine, code: seq<byte>)
    requires !Pending(s.cpu)
    ensures XaddFault(s, code, false, LegacyXadd(s, code))
  {
    hide *;
    var p := ParseXadd(s.cpu.scalar.segments.cs.longMode, code);
    UnfoldReached(s.cpu, code, false);
    UnfoldLegacyXadd(s, code);
    UnfoldDecodeXadd(s.cpu, code);
    ScratchOf(s.cpu, p);
    if Pending(DecodeXadd(s.cpu, code)) {
      ScratchFault(s, code, false, DecodeXadd(s.cpu, code));
    } else {
      QuietDecode(s.cpu, code);
      XaddParsed(s.cpu.scalar.segments.cs.longMode, code);
      EnteredIdle(s.cpu, p);
      if MemoryForm(p.inst) {
        AddressAtStart(s.cpu, p);
        BodyFault(s, code, false);
      } else {
        NoAddress(Stamp(s.cpu, p.prefixes), p.inst, p.length);
        RegisterExchange(s.(cpu := Entered(s.cpu, p)), p.inst);
        QuietFault(s, code, false, LegacyXadd(s, code));
      }
    }
  }

  lemma {:induction false} NoAddress(c: Cpu, inst: Inst, k: nat)
    requires !MemoryForm(inst)
    ensures WithAddress(c, inst, k) == inst
  {
    hide MemoryForm;
  }

  lemma {:induction false} UnfoldLegacyXadd(m: Machine, code: seq<byte>)
    ensures var decoded := DecodeXadd(m.cpu, code);
            LegacyXadd(m, code) == if Pending(decoded) then m.(cpu := decoded)
                                   else Exchange(m.(cpu := decoded), XaddInst(m.cpu, code))
  {
    hide DecodeXadd, Exchange, XaddInst, Pending;
  }

  lemma {:induction false} FastFault(s: Machine, code: seq<byte>)
    requires !Pending(s.cpu) && Clean(ParseXadd(s.cpu.scalar.segments.cs.longMode, code))
    ensures var p := ParseXadd(s.cpu.scalar.segments.cs.longMode, code);
            XaddFault(s, code, true, FastXadd(s, p.inst, p.prefixes, p.length))
  {
    hide *;
    var p := ParseXadd(s.cpu.scalar.segments.cs.longMode, code);
    UnfoldReached(s.cpu, code, true);
    UnfoldFastXadd(s, p);
    XaddParsed(s.cpu.scalar.segments.cs.longMode, code);
    EnteredIdle(s.cpu, p);
    var start := Entered(s.cpu, p);
    if !MemoryForm(p.inst) {
      RegisterExchange(s.(cpu := start), p.inst);
      QuietFault(s, code, true, FastXadd(s, p.inst, p.prefixes, p.length));
    } else {
      var checked := ValidateOperand(start, p.inst, p.length);
      ValidateFrame(start, p.inst, p.length);
      OperandForm(s.cpu, p);
      if Pending(checked) {
        PendingExchange(s.(cpu := checked), Operand(s.cpu, p));
        ScratchOf(s.cpu, p);
        ScratchFault(s, code, true, checked);
      } else {
        QuietValidate(start, p.inst, p.length);
        BodyFault(s, code, true);
      }
    }
  }

  lemma {:induction false} OperandForm(c: Cpu, p: Parsed)
    ensures MemoryForm(Operand(c, p)) == MemoryForm(p.inst)
  {
    hide LinearAddress;
  }

  lemma {:induction false} UnfoldFastXadd(m: Machine, p: Parsed)
    ensures FastXadd(m, p.inst, p.prefixes, p.length)
            == if !MemoryForm(p.inst) then Exchange(m.(cpu := Entered(m.cpu, p)), p.inst)
               else Exchange(m.(cpu := ValidateOperand(Entered(m.cpu, p), p.inst, p.length)), Operand(m.cpu, p))
  {
    hide Exchange, ValidateOperand, LinearAddress, MemoryForm;
  }

  lemma {:induction false} CapturedXadd(c: Cpu, code: seq<byte>, s: Machine)
    requires !Pending(c) && ProbeXadd(c, code).Some? && SameMode(c, s.cpu)
    ensures var p := ParseXadd(s.cpu.scalar.segments.cs.longMode, code);
            Clean(p) && ReplayXadd(s, ProbeXadd(c, code).value) == FastXadd(s, p.inst, p.prefixes, p.length)
  {
    hide DecodeXadd, ParseXadd, FastXadd, Packed, UnpackedInst, UnpackedPrefixes, Pending;
    var p := ParseXadd(c.scalar.segments.cs.longMode, code);
    QuietDecode(c, code);
    XaddParsed(c.scalar.segments.cs.longMode, code);
    PackedRoundTrip(p.inst, p.prefixes);
    PackedLength(p.inst, p.prefixes);
  }

  lemma {:induction false} PackedLength(inst: Inst, p: Prefixes)
    ensures |Packed(inst, p)| == 12
  {
  }

  lemma {:induction false} HandlerFault(isa: Isa, id: nat, s: Machine, c: Cpu, code: seq<byte>)
    requires RoutesXadd(isa, id) && XaddCode(ModeBits(c), code) && Unlocked(ModeBits(c), code)
    requires !Pending(s.cpu) && !Pending(c) && SameMode(c, s.cpu)
    ensures var e := Attach(isa, StaticEntry(isa, ModeBits(c), code), c);
            XaddFault(s, code, e.fast.Some?, RunHandler(isa, s, e))
  {
    hide *;
    var e0 := StaticEntry(isa, ModeBits(c), code);
    var e := Attach(isa, e0, c);
    XaddEntry(isa, id, ModeBits(c), code);
    AttachedOther(isa, e0, id, c);
    RunsOther(isa, s, e, id);
    RoutedHandlers(isa, id, ModeBits(c), code, s, c, if e.fast.Some? then e.fast.value.captured else Captured([], 0));
    if e.fast.Some? {
      CapturedXadd(c, code, s);
      FastFault(s, code);
    } else {
      LegacyFault(s, code);
    }
  }

  /** Where its address is good, the body is all the handler comes to. */
  lemma {:induction false} HandlerReached(isa: Isa, id: nat, s: Machine, c: Cpu, code: seq<byte>)
    requires RoutesXadd(isa, id) && XaddCode(ModeBits(c), code) && Unlocked(ModeBits(c), code)
    requires !Pending(s.cpu) && !Pending(c) && SameMode(c, s.cpu)
    requires BodyReached(s.cpu, code, Attach(isa, StaticEntry(isa, ModeBits(c), code), c).fast.Some?)
    ensures var p := ParseXadd(s.cpu.scalar.segments.cs.longMode, code);
            RunHandler(isa, s, Attach(isa, StaticEntry(isa, ModeBits(c), code), c))
            == Exchange(s.(cpu := Entered(s.cpu, p)), Operand(s.cpu, p))
  {
    hide *;
    var e0 := StaticEntry(isa, ModeBits(c), code);
    var e := Attach(isa, e0, c);
    var p := ParseXadd(s.cpu.scalar.segments.cs.longMode, code);
    XaddEntry(isa, id, ModeBits(c), code);
    AttachedOther(isa, e0, id, c);
    RunsOther(isa, s, e, id);
    RoutedHandlers(isa, id, ModeBits(c), code, s, c, if e.fast.Some? then e.fast.value.captured else Captured([], 0));
    UnfoldReached(s.cpu, code, e.fast.Some?);
    if e.fast.Some? {
      CapturedXadd(c, code, s);
      UnfoldFastXadd(s, p);
      QuietValidate(Entered(s.cpu, p), p.inst, p.length);
    } else {
      UnfoldLegacyXadd(s, code);
      UnfoldDecodeXadd(s.cpu, code);
      QuietDecode(s.cpu, code);
      AddressAtStart(s.cpu, p);
    }
  }

  lemma {:induction false} MarkedDiffers(c: Cpu, before: Scalar, inst: Inst, dst: nat, after: Cpu)
    requires FaultOnly(Marked(c, inst, dst), after) && UpToScratch(before, c.scalar) && Marked(c, inst, dst) != c
    ensures after.scalar.regs != before.regs || after.scalar.rflags != before.rflags
  {
    hide Marked;
    MarkedFrame(c, inst, dst);
  }

  lemma {:induction false} Unguarded(m: Machine, e: Entry, ran: Machine)
    requires m.cpu.scalar.segmentOverride == NoOverride && e.noFault && Pending(ran.cpu)
    ensures var s := m.(cpu := WithOverride(m.cpu, e.segmentOverride));
            var after := Conclude(s.cpu, ran, e, !e.noFault, StepOk).0;
            && after.mem == ran.mem && after.cpu.scalar.regs == ran.cpu.scalar.regs
               && after.cpu.scalar.rflags == ran.cpu.scalar.rflags
            && (Precise(s, ran) ==> Precise(m, after))
            && (Precise(m, after) ==> ran.cpu.scalar.regs == m.cpu.scalar.regs
                                      && ran.cpu.scalar.rflags == m.cpu.scalar.rflags)
  {
    assert ran.cpu.scalar.controlRegs[2 := ran.cpu.scalar.controlRegs[2]] == ran.cpu.scalar.controlRegs;
  }

  lemma {:induction false} FaultSplit(s: Machine, code: seq<byte>, fast: bool, ran: Machine)
    requires XaddFault(s, code, fast, ran) && Pending(ran.cpu)
    ensures ran.mem == s.mem
    ensures !LeavesMark(s, code, fast) ==> Precise(s, ran)
    ensures LeavesMark(s, code, fast) ==>
            ran.cpu.scalar.regs != s.cpu.scalar.regs || ran.cpu.scalar.rflags != s.cpu.scalar.rflags
  {
    hide LeavesMark, Marked, ParseXadd, LoadValue, XaddWidth, Operand, Pending, Entered;
    if LeavesMark(s, code, fast) {
      var p := ParseXadd(s.cpu.scalar.segments.cs.longMode, code);
      var start, inst := s.(cpu := Entered(s.cpu, p)), Operand(s.cpu, p);
      var dst := LoadValue(start, inst.memAddress, XaddWidth(start.cpu, inst) as int / 8);
      MarkIsThere(s, code, fast);
      EnteredIdle(s.cpu, p);
      MarkedDiffers(start.cpu, s.cpu.scalar, inst, dst, ran.cpu);
    }
  }

  lemma {:induction false} ConcludeUnguarded(m: Machine, e: Entry, ran: Machine, code: seq<byte>, fast: bool)
    requires m.cpu.scalar.segmentOverride == NoOverride && e.noFault && Pending(ran.cpu)
    requires XaddFault(m.(cpu := WithOverride(m.cpu, e.segmentOverride)), code, fast, ran)
    ensures var s := m.(cpu := WithOverride(m.cpu, e.segmentOverride));
            var after := Conclude(s.cpu, ran, e, !e.noFault, StepOk).0;
            after.mem == m.mem && (Precise(m, after) <==> !LeavesMark(s, code, fast))
  {
    hide LeavesMark, XaddFault, Pending, Conclude, Precise;
    var s := m.(cpu := WithOverride(m.cpu, e.segmentOverride));
    FaultSplit(s, code, fast, ran);
    Unguarded(m, e, ran);
  }

  lemma {:induction false} MarkIsThere(s: Machine, code: seq<byte>, fast: bool)
    requires LeavesMark(s, code, fast)
    ensures var p := ParseXadd(s.cpu.scalar.segments.cs.longMode, code);
            var start, inst := s.(cpu := Entered(s.cpu, p)), Operand(s.cpu, p);
            Marked(start.cpu, inst, LoadValue(start, inst.memAddress,
                                              XaddWidth(start.cpu, inst) as int / 8)) != start.cpu
  {
    hide Marked, ParseXadd, Accessible, LoadValue, XaddWidth, LinearAddress, Operand, BodyReached, Entered;
  }

  /** A faulting XADD without LOCK is precise exactly when it got no further than reading its operand, or its result
      would have been no change: there is no snapshot to roll back to, and the flags and the register are set
      before the store can fault. */
  lemma {:induction false} XaddPreciseIff(isa: Isa, id: nat, m: Machine, c: Cpu, code: seq<byte>)
    requires RoutesXadd(isa, id) && XaddCode(ModeBits(c), code) && Unlocked(ModeBits(c), code)
    requires ReadyToDecode(m.cpu) && !Pending(c) && SameMode(c, m.cpu)
    requires Dispatch(isa, m, DecodeAt(isa, c, code)).1 != StepOk
    ensures var e, after := DecodeAt(isa, c, code), Dispatch(isa, m, DecodeAt(isa, c, code)).0;
            var s := m.(cpu := WithOverride(m.cpu, e.segmentOverride));
            && e.noFault && after.mem == m.mem
            && (Precise(m, after) <==> !LeavesMark(s, code, e.fast.Some?))
  {
    hide *;
    XaddNotEmpty(ModeBits(c), code);
    UnfoldDecodeAt(isa, c, code);
    Routed(isa, id, ModeBits(c), code);
    var e0 := StaticEntry(isa, ModeBits(c), code);
    var e := Attach(isa, e0, c);
    XaddEntry(isa, id, ModeBits(c), code);
    AttachedOther(isa, e0, id, c);
    StaticFields(e, e0);
    UnfoldReady(m.cpu);
    ReadyIsFlat(m.cpu);
    var s := m.(cpu := WithOverride(m.cpu, e.segmentOverride));
    OverrideKeeps(m.cpu, e.segmentOverride);
    OverrideMode(c, m.cpu, e.segmentOverride);
    HandlerFault(isa, id, s, c, code);
    DispatchBody(isa, m, e);
    ConcludeUnguarded(m, e, RunHandler(isa, s, e), code, e.fast.Some?);
  }

  /** Its step faults there exactly when the operand cannot be read or cannot be written. */
  lemma {:induction false} XaddFaultsIff(isa: Isa, id: nat, m: Machine, c: Cpu, code: seq<byte>)
    requires RoutesXadd(isa, id) && XaddCode(ModeBits(c), code) && Unlocked(ModeBits(c), code)
    requires ReadyToDecode(m.cpu) && !Pending(c) && SameMode(c, m.cpu)
    requires var e := DecodeAt(isa, c, code);
             BodyReached(WithOverride(m.cpu, e.segmentOverride), code, e.fast.Some?)
    ensures var e := DecodeAt(isa, c, code);
            var s := m.(cpu := WithOverride(m.cpu, e.segmentOverride));
            var p := ParseXadd(s.cpu.scalar.segments.cs.longMode, code);
            var start, inst := s.(cpu := Entered(s.cpu, p)), Operand(s.cpu, p);
            var n := XaddWidth(start.cpu, inst) as int / 8;
            Dispatch(isa, m, e).1 == StepOk
            <==> Accessible(start, inst.memAddress, n, Read) && Accessible(start, inst.memAddress, n, Write)
  {
    hide *;
    XaddNotEmpty(ModeBits(c), code);
    UnfoldDecodeAt(isa, c, code);
    Routed(isa, id, ModeBits(c), code);
    var e0 := StaticEntry(isa, ModeBits(c), code);
    var e := Attach(isa, e0, c);
    XaddEntry(isa, id, ModeBits(c), code);
    AttachedOther(isa, e0, id, c);
    StaticFields(e, e0);
    UnfoldReady(m.cpu);
    var s := m.(cpu := WithOverride(m.cpu, e.segmentOverride));
    OverrideKeeps(m.cpu, e.segmentOverride);
    OverrideMode(c, m.cpu, e.segmentOverride);
    HandlerReached(isa, id, s, c, code);
    DispatchBody(isa, m, e);
    var p := ParseXadd(s.cpu.scalar.segments.cs.longMode, code);
    ReachedForm(s.cpu, code, e.fast.Some?);
    OperandForm(s.cpu, p);
    EnteredIdle(s.cpu, p);
    ExchangeFaults(s.(cpu := Entered(s.cpu, p)), Operand(s.cpu, p));
  }

  lemma {:induction false} XaddNotEmpty(mode: nat, code: seq<byte>)
    requires XaddCode(mode, code)
    ensures code != []
  {
    hide PrefixLength;
  }

  /** With LOCK the entry is not flagged, so that the rollback applies. */
  lemma {:induction false} LockedXaddIsGuarded(isa: Isa, id: nat, m: Machine, c: Cpu, code: seq<byte>)
    requires RoutesXadd(isa, id) && XaddCode(ModeBits(c), code) && !Unlocked(ModeBits(c), code)
    requires ReadyToDecode(m.cpu) && Dispatch(isa, m, DecodeAt(isa, c, code)).1 != StepOk
    ensures var after := Dispatch(isa, m, DecodeAt(isa, c, code)).0;
            after.cpu.scalar
            == m.cpu.scalar.(controlRegs := m.cpu.scalar.controlRegs[2 := after.cpu.scalar.controlRegs[2]])
  {
    hide *;
    XaddNotEmpty(ModeBits(c), code);
    UnfoldDecodeAt(isa, c, code);
    Routed(isa, id, ModeBits(c), code);
    var e0 := StaticEntry(isa, ModeBits(c), code);
    XaddEntry(isa, id, ModeBits(c), code);
    AttachedOther(isa, e0, id, c);
    StaticFields(Attach(isa, e0, c), e0);
    UnfoldReady(m.cpu);
    ReadyIsFlat(m.cpu);
    PreciseFaults(isa, m, Attach(isa, e0, c));
  }

  // XADD meets the contract of the handlers the step machine leaves open.

  lemma {:induction false} CleanEffects(c: Cpu, p: Parsed)
    requires Clean(p)
    ensures var stamped := Stamp(c, p.prefixes);
            Effects(stamped, p)
            == if RipRelative(p.inst)
               then StampSize(ValidateOperand(ValidateOperand(stamped, p.inst, 0), p.inst, p.length), p.length)
               else if MemoryForm(p.inst) then StampSize(ValidateOperand(stamped, p.inst, 0), p.length)
               else Entered(c, p)
  {
    hide ValidateOperand;
  }

  /** The one check of an operand that is not RIP-relative, with or without the length, before or after it is set. */
  lemma {:induction false} OneCheck(c: Cpu, p: Parsed)
    requires MemoryForm(p.inst) && !RipRelative(p.inst)
    ensures StampSize(ValidateOperand(Stamp(c, p.prefixes), p.inst, 0), p.length)
            == ValidateOperand(Entered(c, p), p.inst, p.length)
  {
    hide LinearAddress, EffectiveSegment, Canonical, Is64BitCode, MemoryForm, RipRelative;
    LengthMatters(Entered(c, p), p.inst, p.length);
    SameAddress(Stamp(c, p.prefixes), Entered(c, p), p.inst, 0);
  }

  /** Clean bytes without a RIP-relative operand: fast and legacy handler do the same, fault or not. */
  lemma {:induction false} FastIsLegacyXadd(s: Machine, code: seq<byte>)
    requires !Pending(s.cpu)
    requires var p := ParseXadd(s.cpu.scalar.segments.cs.longMode, code); Clean(p) && !RipRelative(p.inst)
    ensures var p := ParseXadd(s.cpu.scalar.segments.cs.longMode, code);
            FastXadd(s, p.inst, p.prefixes, p.length) == LegacyXadd(s, code)
  {
    hide *;
    var p := ParseXadd(s.cpu.scalar.segments.cs.longMode, code);
    UnfoldFastXadd(s, p);
    UnfoldLegacyXadd(s, code);
    UnfoldDecodeXadd(s.cpu, code);
    CleanEffects(s.cpu, p);
    EnteredIdle(s.cpu, p);
    if MemoryForm(p.inst) {
      OneCheck(s.cpu, p);
      OperandForm(s.cpu, p);
      AddressAtStart(s.cpu, p);
      var checked := ValidateOperand(Entered(s.cpu, p), p.inst, p.length);
      if Pending(checked) {
        PendingExchange(s.(cpu := checked), Operand(s.cpu, p));
      } else {
        QuietValidate(Entered(s.cpu, p), p.inst, p.length);
      }
    } else {
      NoAddress(Stamp(s.cpu, p.prefixes), p.inst, p.length);
    }
  }

  /** With a RIP-relative operand or none in memory, two probes at one RIP and mode succeed or fail together. */
  lemma {:induction false} RipProbesAgree(a: Cpu, b: Cpu, code: seq<byte>)
    requires ReadyToDecode(a) && ReadyToDecode(b) && SameMode(a, b) && a.scalar.rip == b.scalar.rip
    requires ProbeXadd(a, code).Some? && RipRelative(ParseXadd(a.scalar.segments.cs.longMode, code).inst)
    ensures ProbeXadd(b, code).Some?
  {
    hide *;
    UnfoldReady(a);
    UnfoldReady(b);
    UnfoldMode(a, b);
    var p := ParseXadd(a.scalar.segments.cs.longMode, code);
    UnfoldProbeXadd(a, code);
    UnfoldProbeXadd(b, code);
    QuietDecode(a, code);
    UnfoldDecodeXadd(a, code);
    UnfoldDecodeXadd(b, code);
    CleanEffects(a, p);
    CleanEffects(b, p);
    SameChecks(a, b, p);
  }

  lemma {:induction false} UnfoldProbeXadd(c: Cpu, code: seq<byte>)
    ensures var decoded := DecodeXadd(c, code);
            ProbeXadd(c, code).Some? <==> !Pending(decoded) && 0 < decoded.scalar.lastInstSize <= 15
  {
    hide DecodeXadd, ParseXadd, Pending, Packed;
  }

  /** The two checks of a RIP-relative operand see the same address in both states. */
  lemma {:induction false} SameChecks(a: Cpu, b: Cpu, p: Parsed)
    requires ReadyToDecode(a) && ReadyToDecode(b) && SameMode(a, b) && a.scalar.rip == b.scalar.rip
    requires RipRelative(p.inst)
    ensures var x, y := Stamp(a, p.prefixes), Stamp(b, p.prefixes);
            var u := StampSize(ValidateOperand(ValidateOperand(x, p.inst, 0), p.inst, p.length), p.length);
            var v := StampSize(ValidateOperand(ValidateOperand(y, p.inst, 0), p.inst, p.length), p.length);
            Pending(u) == Pending(v) && u.scalar.lastInstSize == v.scalar.lastInstSize == p.length
  {
    hide LinearAddress, Canonical, RipRelative, Wrap, Is64BitCode, EffectiveSegment, MemoryForm, ValidateOperand;
    var x, y := Stamp(a, p.prefixes), Stamp(b, p.prefixes);
    SameModeIs64(x, y);
    ChecksOf(x, p);
    ChecksOf(y, p);
    if Is64BitCode(x) {
      RipAddress(x, p.inst, 0);
      RipAddress(y, p.inst, 0);
      RipAddress(x, p.inst, p.length);
      RipAddress(y, p.inst, p.length);
    }
  }

  lemma {:induction false} ChecksOf(x: Cpu, p: Parsed)
    requires !Pending(x)
    ensures var u := StampSize(ValidateOperand(ValidateOperand(x, p.inst, 0), p.inst, p.length), p.length);
            && u.scalar.lastInstSize == p.length
            && (Pending(u) <==> Is64BitCode(x) && !(Canonical(LinearAddress(x, p.inst, 0))
                                                    && Canonical(LinearAddress(x, p.inst, p.length))))
  {
    hide LinearAddress, Canonical, Is64BitCode, EffectiveSegment, ValidateOperand;
    ValidateKinds(x, p.inst, 0);
    ValidateKinds(x, p.inst, p.length);
    var first := ValidateOperand(x, p.inst, 0);
    ValidateFrame(x, p.inst, 0);
    ValidateFrame(first, p.inst, p.length);
    if Pending(first) {
      WhenPending(first, p.inst, p.length, None, GP);
    }
  }

  lemma {:induction false} MixedXadd(s: Machine, a: Cpu, b: Cpu, code: seq<byte>)
    requires ReadyToDecode(a) && ReadyToDecode(b) && SameMode(a, b) && a.scalar.rip == b.scalar.rip
    requires SameMode(a, s.cpu) && !Pending(s.cpu) && ProbeXadd(a, code).Some? && ProbeXadd(b, code).None?
    ensures ReplayXadd(s, ProbeXadd(a, code).value) == LegacyXadd(s, code)
  {
    hide *;
    UnfoldReady(a);
    UnfoldMode(a, s.cpu);
    CapturedXadd(a, code, s);
    if RipRelative(ParseXadd(a.scalar.segments.cs.longMode, code).inst) {
      RipProbesAgree(a, b, code);
    } else {
      FastIsLegacyXadd(s, code);
    }
  }

  lemma {:induction false} XaddReplay(isa: Isa, id: nat, mode: nat, code: seq<byte>, a: Cpu, b: Cpu, m: Machine)
    requires RoutesXadd(isa, id) && XaddCode(mode, code) && Unlocked(mode, code) && ReplaySite(a, b, m, mode)
    ensures var e := StaticEntry(isa, mode, code);
            var s := m.(cpu := WithOverride(m.cpu, e.segmentOverride));
            RunHandler(isa, s, Attach(isa, e, a)) == RunHandler(isa, s, Attach(isa, e, b))
  {
    hide *;
    UnfoldSite(a, b, m, mode);
    XaddEntry(isa, id, mode, code);
    var e := StaticEntry(isa, mode, code);
    var x, y := Attach(isa, e, a), Attach(isa, e, b);
    AttachedOther(isa, e, id, a);
    AttachedOther(isa, e, id, b);
    StaticFields(x, e);
    StaticFields(y, e);
    UnfoldReady(a);
    UnfoldReady(b);
    UnfoldReady(m.cpu);
    var s := m.(cpu := WithOverride(m.cpu, e.segmentOverride));
    OverrideKeeps(m.cpu, e.segmentOverride);
    OverrideMode(a, m.cpu, e.segmentOverride);
    OverrideMode(b, m.cpu, e.segmentOverride);
    RunsOther(isa, s, x, id);
    RunsOther(isa, s, y, id);
    AttachesProbe(isa, id, mode, code, a);
    AttachesProbe(isa, id, mode, code, b);
    RoutedHandlers(isa, id, mode, code, s, a, if x.fast.Some? then x.fast.value.captured else Captured([], 0));
    RoutedHandlers(isa, id, mode, code, s, b, if y.fast.Some? then y.fast.value.captured else Captured([], 0));
    if x.fast.Some? && y.fast.Some? {
      CapturedXadd(a, code, s);
      CapturedXadd(b, code, s);
    } else if x.fast.Some? {
      MixedXadd(s, a, b, code);
    } else if y.fast.Some? {
      MixedXadd(s, b, a, code);
    }
  }

  /** There is a fast handler exactly when the probe succeeded. */
  lemma {:induction false} AttachesProbe(isa: Isa, id: nat, mode: nat, code: seq<byte>, c: Cpu)
    requires RoutesXadd(isa, id) && XaddCode(mode, code) && Unlocked(mode, code)
    ensures var e := StaticEntry(isa, mode, code);
            Attach(isa, e, c).fast.Some? <==> ProbeXadd(c, code).Some?
  {
    hide *;
    XaddEntry(isa, id, mode, code);
    var e := StaticEntry(isa, mode, code);
    AttachIsOther(isa, e, id, c);
    RoutedHandlers(isa, id, mode, code, Machine(c, Mem(map[], [], false, map[], 0)), c, Captured([], 0));
    ProbedLength(c, code);
    OtherAttaches(isa, e, id, c);
  }

  lemma {:induction false} ProbedLength(c: Cpu, code: seq<byte>)
    ensures ProbeXadd(c, code).Some? ==> 0 < ProbeXadd(c, code).value.length <= 15
  {
    hide DecodeXadd, ParseXadd, Pending, Packed;
  }

  /** XADD, flagged as it is, replays: entries decoded in different states do exactly the same. */
  lemma {:induction false} XaddReplays(isa: Isa, id: nat, mode: nat, code: seq<byte>)
    requires RoutesXadd(isa, id) && XaddCode(mode, code) && Unlocked(mode, code)
    ensures Replays(isa, mode, code)
  {
    hide SameOutcome, RunHandler, Attach, WithOverride, ReplaySite, StaticEntry, RoutesXadd, XaddCode, Unlocked;
    forall a: Cpu, b: Cpu, m: Machine | ReplaySite(a, b, m, mode)
      ensures var e := StaticEntry(isa, mode, code);
              var s := m.(cpu := WithOverride(m.cpu, e.segmentOverride));
              SameOutcome(e, RunHandler(isa, s, Attach(isa, e, a)), RunHandler(isa, s, Attach(isa, e, b)))
    {
      XaddReplay(isa, id, mode, code, a, b, m);
      var e := StaticEntry(isa, mode, code);
      var s := m.(cpu := WithOverride(m.cpu, e.segmentOverride));
      Replay.UnfoldOutcome(e, RunHandler(isa, s, Attach(isa, e, a)), RunHandler(isa, s, Attach(isa, e, b)));
    }
  }
}
