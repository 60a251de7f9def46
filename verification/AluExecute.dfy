/** The bodies of ADD, SUB, AND and CMP, and their two ways in: decode again, or reuse the cached payload. */
module AluExecute {
  import opened Bits
  import opened MemoryManagement
  import opened CpuState
  import opened LinearMemory
  import opened Flags
  import opened Addressing
  import opened AluDecode

  datatype Place = InRegister(index: nat) | InRm | Constant(value: nat)

  /** The opcode relative to the first of the family: 0 to 3 register forms, 4 and 5 accumulator forms. */
  function Form(op: AluOp, inst: Inst): int {
    inst.opcode - BaseOpcode(op)
  }

  predicate GroupForm(inst: Inst) {
    inst.opcode == 0x80 || inst.opcode == 0x81 || inst.opcode == 0x83
  }

  predicate Handled(op: AluOp, inst: Inst) {
    0 <= Form(op, inst) <= 5 || GroupForm(inst)
  }

  function OperandWidth(c: Cpu, op: AluOp, inst: Inst): Width {
    if inst.opcode == 0x80 || Form(op, inst) in {0, 2, 4} then 8
    else if c.scalar.prefixes.rexW then 64
    else if c.scalar.prefixes.operandSize then 16
    else 32
  }

  /** Byte immediates of 0x83 and 32-bit immediates of 64-bit forms are sign-extended. */
  function ImmediateOperand(inst: Inst, w: Width): nat {
    if inst.opcode == 0x83 then Low(w, SignExtend8(inst.immediate))
    else if w == 64 then Low(w, Signed(32, inst.immediate % 0x1_0000_0000))
    else Low(w, inst.immediate)
  }

  function Destination(c: Cpu, op: AluOp, inst: Inst): Place {
    if Form(op, inst) in {4, 5} then InRegister(RAX)
    else if Form(op, inst) in {2, 3} then InRegister(Extended(RegField(inst.modrm), c.scalar.prefixes.rexR))
    else InRm
  }

  function Source(c: Cpu, op: AluOp, inst: Inst, w: Width): Place {
    if Form(op, inst) in {4, 5} || GroupForm(inst) then Constant(ImmediateOperand(inst, w))
    else if Form(op, inst) in {2, 3} then InRm
    else InRegister(Extended(RegField(inst.modrm), c.scalar.prefixes.rexR))
  }

  function RmIndex(c: Cpu, inst: Inst): nat {
    Extended(RmField(inst.modrm), c.scalar.prefixes.rexB)
  }

  function ReadOperand(m: Machine, inst: Inst, w: Width, place: Place): (Machine, nat) {
    match place
    case InRegister(index) => (m, GetReg(m.cpu, index, w))
    case Constant(value) => (m, value)
    case InRm =>
      if ModField(inst.modrm) == 3 then (m, GetReg(m.cpu, RmIndex(m.cpu, inst), w))
      else (Checked(m, inst.memAddress, w / 8, Read), LoadValue(m, inst.memAddress, w / 8))
  }

  function WriteOperand(m: Machine, inst: Inst, w: Width, place: Place, value: nat): Machine
    requires value < Modulus(w)
  {
    match place
    case InRegister(index) => m.(cpu := SetReg(m.cpu, index, w, value))
    case Constant(_) => m
    case InRm =>
      if ModField(inst.modrm) == 3 then m.(cpu := SetReg(m.cpu, RmIndex(m.cpu, inst), w, value))
      else Store(m, inst.memAddress, w / 8, value)
  }

  function Result(op: AluOp, w: Width, dst: nat, src: nat): (r: u64)
    ensures r < Modulus(w)
  {
    match op
    case Add => AddResult(w, dst, src, 0)
    case AndOp => Low(w, And(dst, src))
    case _ => Low(w, dst - src)
  }

  function FlagsAfter(op: AluOp, flags: u64, w: Width, dst: nat, src: nat): u64 {
    match op
    case Add => AddFlags(flags, w, dst, src)
    case AndOp => LogicFlags(flags, w, And(dst, src))
    case _ => SubFlags(flags, w, dst, src)
  }

  /** set_flag does nothing while an exception is pending. */
  function WithFlags(c: Cpu, flags: u64): Cpu {
    if Pending(c) then c else c.(scalar := c.scalar.(rflags := flags))
  }

  /** Read both operands, set the flags, write the result; CMP writes nothing. */
  function Execute(op: AluOp, m: Machine, inst: Inst): Machine {
    if !Handled(op, inst) then m
    else
      var w := OperandWidth(m.cpu, op, inst);
      var destination := Destination(m.cpu, op, inst);
      var (m1, dst) := ReadOperand(m, inst, w, destination);
      var (m2, src) := ReadOperand(m1, inst, w, Source(m.cpu, op, inst, w));
      var m3 := m2.(cpu := WithFlags(m2.cpu, FlagsAfter(op, m2.cpu.scalar.rflags, w, dst, src)));
      if op == Cmp then m3 else WriteOperand(m3, inst, w, destination, Result(op, w, dst, src))
  }

  // The bodies as methods.

  method FetchOperand(ctx: CpuContext, inst: Inst, w: Width, place: Place) returns (value: nat)
    modifies ctx`scalar, ctx`exception
    ensures (ctx.Whole(), value) == ReadOperand(old(ctx.Whole()), inst, w, place)
  {
    hide Checked, LoadValue, GetReg, Extended, ModField, RmField;
    match place
    case InRegister(index) => value := GetReg(ctx.State(), index, w);
    case Constant(v) => value := v;
    case InRm =>
      if ModField(inst.modrm) == 3 {
        value := GetReg(ctx.State(), RmIndex(ctx.State(), inst), w);
      } else if w == 8 {
        value := ReadMemoryByte(ctx, inst.memAddress);
      } else {
        value := ReadMemory(ctx, inst.memAddress, w / 8);
      }
  }

  method PutResult(ctx: CpuContext, inst: Inst, w: Width, place: Place, value: nat)
    requires value < Modulus(w)
    modifies ctx`scalar, ctx`exception, ctx.memMgr`host
    ensures ctx.Whole() == WriteOperand(old(ctx.Whole()), inst, w, place, value)
  {
    hide Store, SetReg, Extended, ModField, RmField;
    match place
    case InRegister(index) =>
      SetRegFrame(ctx.State(), index, w, value);
      LoadScalar(ctx, SetReg(ctx.State(), index, w, value));
    case Constant(_) =>
    case InRm =>
      if ModField(inst.modrm) == 3 {
        SetRegFrame(ctx.State(), RmIndex(ctx.State(), inst), w, value);
        LoadScalar(ctx, SetReg(ctx.State(), RmIndex(ctx.State(), inst), w, value));
      } else if w == 8 {
        WriteMemoryByte(ctx, inst.memAddress, value);
      } else {
        WriteMemory(ctx, inst.memAddress, w / 8, value);
      }
  }

  method LoadScalar(ctx: CpuContext, c: Cpu)
    requires c == ctx.State().(scalar := c.scalar)
    modifies ctx`scalar
    ensures ctx.State() == c
  {
    ctx.scalar := c.scalar;
  }

  /** Writing a register touches the register file only. */
  lemma {:induction false} SetRegFrame(c: Cpu, r: nat, w: Width, value: nat)
    requires value < Modulus(w)
    ensures SetReg(c, r, w, value) == c.(scalar := c.scalar.(regs := SetReg(c, r, w, value).scalar.regs))
  {
    hide Wrap, Low, Modulus, Reg;
  }

  /** execute_add_with_decoded and its three siblings. */
  method ExecuteAlu(ctx: CpuContext, op: AluOp, inst: Inst)
    modifies ctx`scalar, ctx`exception, ctx.memMgr`host
    ensures ctx.Whole() == Execute(op, old(ctx.Whole()), inst)
  {
    hide *;
    ghost var m := ctx.Whole();
    UnfoldWhole(ctx);
    UnfoldExecute(op, m, inst);
    if !Handled(op, inst) {
      return;
    }
    var c := ctx.State();
    var w := OperandWidth(c, op, inst);
    var destination := Destination(c, op, inst);
    var dst := FetchOperand(ctx, inst, w, destination);
    var src := FetchOperand(ctx, inst, w, Source(c, op, inst, w));
    UnfoldWhole(ctx);
    SetFlags(ctx, FlagsAfter(op, ctx.scalar.rflags, w, dst, src));
    UnfoldWhole(ctx);
    if op != Cmp {
      PutResult(ctx, inst, w, destination, Result(op, w, dst, src));
    }
  }

  method SetFlags(ctx: CpuContext, flags: u64)
    modifies ctx`scalar
    ensures ctx.State() == WithFlags(old(ctx.State()), flags)
  {
    if ctx.exception.code == NoException {
      ctx.scalar := ctx.scalar.(rflags := flags);
    }
  }

  lemma {:induction false} UnfoldExecute(op: AluOp, m: Machine, inst: Inst)
    ensures !Handled(op, inst) ==> Execute(op, m, inst) == m
    ensures Handled(op, inst) ==>
              var w := OperandWidth(m.cpu, op, inst);
              var destination := Destination(m.cpu, op, inst);
              var (m1, dst) := ReadOperand(m, inst, w, destination);
              var (m2, src) := ReadOperand(m1, inst, w, Source(m.cpu, op, inst, w));
              var m3 := m2.(cpu := WithFlags(m2.cpu, FlagsAfter(op, m2.cpu.scalar.rflags, w, dst, src)));
              Execute(op, m, inst) ==
              if op == Cmp then m3 else WriteOperand(m3, inst, w, destination, Result(op, w, dst, src))
  {
    hide ReadOperand, WriteOperand, Handled, OperandWidth, Destination, Source, FlagsAfter, Result, WithFlags;
  }

  // What execution leaves alone.

  /** The fields an integer instruction body may change: registers, flags, CR2 and the exception. */
  predicate Frame(before: Cpu, after: Cpu) {
    after == before.(
      exception := after.exception,
      scalar := before.scalar.(regs := after.scalar.regs, rflags := after.scalar.rflags,
                               controlRegs := before.scalar.controlRegs[2 := after.scalar.controlRegs[2]]))
  }

  /** The fields it changes once an exception is pending: registers, to be rolled back. */
  predicate PendingFrame(before: Machine, after: Machine) {
    after == before.(cpu := before.cpu.(scalar := before.cpu.scalar.(regs := after.cpu.scalar.regs)))
  }

  lemma {:induction false} PendingOperand(m: Machine, inst: Inst, w: Width, place: Place, value: nat)
    requires Pending(m.cpu) && value < Modulus(w)
    ensures ReadOperand(m, inst, w, place).0 == m
    ensures PendingFrame(m, WriteOperand(m, inst, w, place, value))
  {
    hide Checked, Store, SetReg, Modulus, Pending, LoadValue, GetReg, Extended;
    PendingBlocks(m, inst.memAddress, w / 8, 0, Read);
    PendingBlocks(m, inst.memAddress, w / 8, value, Write);
    RegisterFrame(m.cpu, inst, w, place, value);
  }

  lemma {:induction false} RegisterFrame(c: Cpu, inst: Inst, w: Width, place: Place, value: nat)
    requires value < Modulus(w)
    ensures var after := SetReg(c, RmIndex(c, inst), w, value);
            after == c.(scalar := c.scalar.(regs := after.scalar.regs))
    ensures place.InRegister? ==>
              var after := SetReg(c, place.index, w, value); after == c.(scalar := c.scalar.(regs := after.scalar.regs))
  {
    hide SetReg, Modulus, RmIndex;
    SetRegFrame(c, RmIndex(c, inst), w, value);
    if place.InRegister? {
      SetRegFrame(c, place.index, w, value);
    }
  }

  /** Under a pending exception a body changes neither memory nor flags nor the exception. */
  lemma {:induction false} ExecutePending(op: AluOp, m: Machine, inst: Inst)
    requires Pending(m.cpu)
    ensures PendingFrame(m, Execute(op, m, inst))
  {
    hide ReadOperand, WriteOperand, Handled, OperandWidth, Destination, Source, FlagsAfter, Result, Pending, Modulus,
      Execute;
    UnfoldExecute(op, m, inst);
    if Handled(op, inst) {
      var w := OperandWidth(m.cpu, op, inst);
      var destination := Destination(m.cpu, op, inst);
      PendingOperand(m, inst, w, destination, 0);
      PendingOperand(m, inst, w, Source(m.cpu, op, inst, w), 0);
      var dst := ReadOperand(m, inst, w, destination).1;
      var src := ReadOperand(m, inst, w, Source(m.cpu, op, inst, w)).1;
      PendingOperand(m, inst, w, destination, Result(op, w, dst, src));
    }
  }

  lemma {:induction false} CheckedFrame(m: Machine, address: u64, n: nat, access: Access)
    ensures var after := Checked(m, address, n, access);
            && after.mem == m.mem && Frame(m.cpu, after.cpu)
            && (!Pending(after.cpu) ==> after == m)
            && after.cpu.exception.code in {m.cpu.exception.code, GP, PF}
  {
    hide FirstFault, FaultAt, Wrap;
    ControlKept(m.cpu);
  }

  lemma {:induction false} ControlKept(c: Cpu)
    ensures c.scalar.controlRegs[2 := c.scalar.controlRegs[2]] == c.scalar.controlRegs
    ensures Frame(c, c)
  {
    assert c.scalar.controlRegs[2 := c.scalar.controlRegs[2]] == c.scalar.controlRegs;
  }

  lemma {:induction false} FrameTwice(a: Cpu, b: Cpu, c: Cpu)
    requires Frame(a, b) && Frame(b, c)
    ensures Frame(a, c)
  {
    assert a.scalar.controlRegs[2 := b.scalar.controlRegs[2]][2 := c.scalar.controlRegs[2]]
        == a.scalar.controlRegs[2 := c.scalar.controlRegs[2]];
  }

  lemma {:induction false} OperandFrame(m: Machine, inst: Inst, w: Width, place: Place, value: nat)
    requires value < Modulus(w)
    ensures var after := ReadOperand(m, inst, w, place).0;
            && after.mem == m.mem && Frame(m.cpu, after.cpu) && (!Pending(after.cpu) ==> after == m)
            && after.cpu.exception.code in {m.cpu.exception.code, GP, PF}
    ensures var after := WriteOperand(m, inst, w, place, value);
            && Frame(m.cpu, after.cpu) && (Pending(after.cpu) ==> after.mem == m.mem)
            && after.cpu.exception.code in {m.cpu.exception.code, GP, PF}
  {
    hide Checked, SetReg, Modulus, Pending, LoadValue, GetReg, RmIndex, Frame, Accessible, StoreBytes;
    ControlKept(m.cpu);
    CheckedFrame(m, inst.memAddress, w / 8, Read);
    CheckedFrame(m, inst.memAddress, w / 8, Write);
    RegisterFrame(m.cpu, inst, w, place, value);
    RegistersAreFramed(m.cpu, SetReg(m.cpu, RmIndex(m.cpu, inst), w, value));
    if place.InRegister? {
      RegistersAreFramed(m.cpu, SetReg(m.cpu, place.index, w, value));
    }
    AccessibleIdle(m, inst.memAddress, w / 8);
  }

  lemma {:induction false} AccessibleIdle(m: Machine, address: u64, n: nat)
    ensures Accessible(m, address, n, Write) ==> !Pending(m.cpu)
  {
    hide FirstFault;
  }

  lemma {:induction false} RegistersAreFramed(c: Cpu, after: Cpu)
    requires after == c.(scalar := c.scalar.(regs := after.scalar.regs))
    ensures Frame(c, after) && after.exception == c.exception && Pending(after) == Pending(c)
  {
    ControlKept(c);
  }

  lemma {:induction false} FlagsFrame(c: Cpu, flags: u64)
    ensures Frame(c, WithFlags(c, flags)) && Pending(WithFlags(c, flags)) == Pending(c)
    ensures WithFlags(c, flags).exception == c.exception
  {
    ControlKept(c);
  }

  /** A body changes registers, flags, memory, CR2 and the exception only, and no memory when it faults. */
  lemma {:induction false} ExecuteFrame(op: AluOp, m: Machine, inst: Inst)
    ensures var after := Execute(op, m, inst);
            && Frame(m.cpu, after.cpu) && (Pending(after.cpu) ==> after.mem == m.mem)
            && after.cpu.exception.code in {m.cpu.exception.code, GP, PF}
  {
    hide ReadOperand, WriteOperand, Handled, OperandWidth, Destination, Source, FlagsAfter, Result, Pending, Modulus,
      Execute,
      Frame, WithFlags;
    UnfoldExecute(op, m, inst);
    ControlKept(m.cpu);
    if Handled(op, inst) {
      var w := OperandWidth(m.cpu, op, inst);
      var destination := Destination(m.cpu, op, inst);
      var source := Source(m.cpu, op, inst, w);
      var (m1, dst) := ReadOperand(m, inst, w, destination);
      var (m2, src) := ReadOperand(m1, inst, w, source);
      OperandFrame(m, inst, w, destination, 0);
      OperandFrame(m1, inst, w, source, 0);
      FrameTwice(m.cpu, m1.cpu, m2.cpu);
      var flags := FlagsAfter(op, m2.cpu.scalar.rflags, w, dst, src);
      FlagsFrame(m2.cpu, flags);
      var m3 := m2.(cpu := WithFlags(m2.cpu, flags));
      FrameTwice(m.cpu, m2.cpu, m3.cpu);
      OperandFrame(m3, inst, w, destination, Result(op, w, dst, src));
      FrameTwice(m.cpu, m3.cpu, WriteOperand(m3, inst, w, destination, Result(op, w, dst, src)).cpu);
    }
  }

  predicate RegisterOnly(op: AluOp, inst: Inst) {
    Form(op, inst) in {4, 5} || ModField(inst.modrm) == 3
  }

  lemma {:induction false} RegisterOperand(m: Machine, inst: Inst, w: Width, place: Place, value: nat)
    requires value < Modulus(w) && (place.InRm? ==> ModField(inst.modrm) == 3)
    ensures ReadOperand(m, inst, w, place).0 == m
    ensures PendingFrame(m, WriteOperand(m, inst, w, place, value))
  {
    hide SetReg, Modulus, LoadValue, GetReg, RmIndex;
    RegisterFrame(m.cpu, inst, w, place, value);
  }

  /** Register forms never fault and never touch memory. */
  lemma {:induction false} RegisterFormsAreSafe(op: AluOp, m: Machine, inst: Inst)
    requires RegisterOnly(op, inst)
    ensures var after := Execute(op, m, inst);
            after.mem == m.mem && after.cpu.exception == m.cpu.exception
  {
    hide ReadOperand, WriteOperand, OperandWidth, FlagsAfter, Result, Modulus, Execute, WithFlags;
    UnfoldExecute(op, m, inst);
    if Handled(op, inst) {
      var w := OperandWidth(m.cpu, op, inst);
      var destination := Destination(m.cpu, op, inst);
      var source := Source(m.cpu, op, inst, w);
      RegisterOperand(m, inst, w, destination, 0);
      RegisterOperand(m, inst, w, source, 0);
      var dst := ReadOperand(m, inst, w, destination).1;
      var src := ReadOperand(m, inst, w, source).1;
      var flags := FlagsAfter(op, m.cpu.scalar.rflags, w, dst, src);
      FlagsFrame(m.cpu, flags);
      RegisterOperand(m.(cpu := WithFlags(m.cpu, flags)), inst, w, destination, Result(op, w, dst, src));
    }
  }

  // The two ways in.

  /** execute_add: decode the bytes, then run the body unless decoding faulted. */
  function Legacy(op: AluOp, m: Machine, code: seq<byte>): Machine {
    var decoded := Decode(op, m.cpu, code);
    if Pending(decoded) then m.(cpu := decoded) else Execute(op, m.(cpu := decoded), DecodedInst(op, m.cpu, code))
  }

  method ExecuteLegacy(ctx: CpuContext, op: AluOp, code: seq<byte>)
    modifies ctx`scalar, ctx`exception, ctx.memMgr`host
    ensures ctx.Whole() == Legacy(op, old(ctx.Whole()), code)
  {
    hide Decode, DecodedInst, Execute, Pending;
    var inst := DecodeAlu(ctx, op, code);
    if Pending(ctx.State()) {
      return;
    }
    ExecuteAlu(ctx, op, inst);
  }

  /** What a cache entry keeps for the fast handler. */
  datatype Payload = Payload(op: AluOp, inst: Inst, prefixes: Prefixes, length: nat)

  function Stamped(c: Cpu, payload: Payload): Cpu {
    StampSize(Stamp(c, payload.prefixes), payload.length)
  }

  /** execute_add_fast: stamp the cached prefixes and size, recompute the address, run the body. */
  function Fast(m: Machine, payload: Payload): Machine {
    var c := Stamped(m.cpu, payload);
    var inst := payload.inst;
    if !MemoryForm(inst) then Execute(payload.op, m.(cpu := c), inst)
    else
      Execute(payload.op, m.(cpu := ValidateOperand(c, inst, payload.length)),
              inst.(memAddress := LinearAddress(c, inst, payload.length)))
  }

  method ExecuteFast(ctx: CpuContext, payload: Payload)
    modifies ctx`scalar, ctx`exception, ctx.memMgr`host
    ensures ctx.Whole() == Fast(old(ctx.Whole()), payload)
  {
    hide Execute, ValidateOperand, LinearAddress, MemoryForm;
    SetPrefixes(ctx, payload.prefixes);
    SetSize(ctx, payload.length);
    if !MemoryForm(payload.inst) {
      ExecuteAlu(ctx, payload.op, payload.inst);
      return;
    }
    var live := payload.inst.(memAddress := LinearAddress(ctx.State(), payload.inst, payload.length));
    Validate(ctx, payload.inst, payload.length);
    ExecuteAlu(ctx, payload.op, live);
  }

  /** The payload a successful probe of these bytes captures, whatever address the probe computed. */
  predicate PayloadOf(payload: Payload, longCode: bool, code: seq<byte>) {
    var p := Parse(payload.op, longCode, code);
    && p.early == None && p.late == None && p.complete
    && payload.prefixes == p.prefixes && payload.length == p.length
    && payload.inst == p.inst.(memAddress := payload.inst.memAddress)
    && (!MemoryForm(p.inst) ==> payload.inst == p.inst)
  }

  /** The one case where the two differ: a RIP-relative operand in 64-bit code whose address is canonical,
      but would not be if the instruction had no length. */
  predicate FirstCheckOnly(c: Cpu, payload: Payload) {
    var stamped := Stamped(c, payload);
    && RipRelative(payload.inst) && Is64BitCode(c)
    && !Canonical(LinearAddress(stamped, payload.inst, 0))
    && Canonical(LinearAddress(stamped, payload.inst, payload.length))
  }

  /** Equal but for what the rollback of a faulting instruction undoes. */
  predicate SameAfterRollback(a: Machine, b: Machine) {
    || a == b
    || (Pending(a.cpu) && Pending(b.cpu) && a.mem == b.mem
        && a.cpu == b.cpu.(scalar := a.cpu.scalar)
        && a.cpu.scalar.controlRegs == b.cpu.scalar.controlRegs)
  }

  lemma {:induction false} ValidateKinds(c: Cpu, inst: Inst, k: nat)
    requires !Pending(c)
    ensures var after := ValidateOperand(c, inst, k);
            if Is64BitCode(c) && !Canonical(LinearAddress(c, inst, k)) then
              Pending(after) && after == c.(exception := after.exception)
              && after.exception == Exception(if EffectiveSegment(c, inst) == SegSS then SS else GP, 0)
            else after == c
  {
    hide Is64BitCode, Canonical, LinearAddress, EffectiveSegment;
  }

  lemma {:induction false} StampedValidate(c: Cpu, inst: Inst, k: nat, size: nat)
    ensures LinearAddress(StampSize(c, size), inst, k) == LinearAddress(c, inst, k)
    ensures EffectiveSegment(StampSize(c, size), inst) == EffectiveSegment(c, inst)
    ensures Is64BitCode(StampSize(c, size)) == Is64BitCode(c) && Pending(StampSize(c, size)) == Pending(c)
  {
    hide LinearAddress, EffectiveSegment, Is64BitCode;
    SameAddress(c, StampSize(c, size), inst, k);
  }

  lemma {:induction false} RegisterFast(m: Machine, payload: Payload, code: seq<byte>)
    requires !Pending(m.cpu) && PayloadOf(payload, m.cpu.scalar.segments.cs.longMode, code)
    requires !MemoryForm(payload.inst)
    ensures Fast(m, payload) == Legacy(payload.op, m, code)
  {
    hide Parse, Execute, LinearAddress, ValidateOperand, MemoryForm;
    var p := Parse(payload.op, m.cpu.scalar.segments.cs.longMode, code);
    SameForm(payload.inst, p.inst);
    assert !MemoryForm(p.inst) && !RipRelative(p.inst);
  }

  lemma {:induction false} SameForm(inst: Inst, other: Inst)
    requires other == inst.(memAddress := other.memAddress)
    ensures MemoryForm(inst) == MemoryForm(other) && RipRelative(inst) == RipRelative(other)
    ensures RipRelative(inst) ==> MemoryForm(inst)
  {
  }

  /** What decoding a memory form with a clean parse does. */
  lemma {:induction false} MemoryDecode(op: AluOp, c: Cpu, code: seq<byte>, p: Parsed)
    requires !Pending(c) && p == Parse(op, c.scalar.segments.cs.longMode, code)
    requires p.early == None && p.late == None && p.complete && MemoryForm(p.inst)
    ensures var s := Stamp(c, p.prefixes);
            var first := ValidateOperand(s, p.inst, 0);
            && !Pending(s)
            && Decode(op, c, code) == StampSize(if RipRelative(p.inst) then ValidateOperand(first, p.inst, p.length)
                                                else first, p.length)
            && DecodedInst(op, c, code) == p.inst.(memAddress := LinearAddress(s, p.inst, p.length))
  {
    hide Parse, LinearAddress, ValidateOperand, MemoryForm, RipRelative;
  }

  lemma {:induction false} MemoryFast(m: Machine, payload: Payload, p: Parsed)
    requires p.inst == payload.inst.(memAddress := p.inst.memAddress) && MemoryForm(p.inst)
    requires payload.prefixes == p.prefixes && payload.length == p.length
    ensures var s := Stamp(m.cpu, p.prefixes);
            var stamped := StampSize(s, p.length);
            Fast(m, payload) == Execute(payload.op, m.(cpu := ValidateOperand(stamped, p.inst, p.length)),
                                        p.inst.(memAddress := LinearAddress(s, p.inst, p.length)))
  {
    hide Execute, LinearAddress, ValidateOperand, MemoryForm;
    SameForm(payload.inst, p.inst);
    var s := Stamp(m.cpu, p.prefixes);
    SameOperand(StampSize(s, p.length), payload.inst, p.inst, p.length);
    StampedValidate(s, p.inst, p.length, p.length);
  }

  /** After a fault in the address check, the two differ only in what the rollback undoes. */
  lemma {:induction false} FaultingFast(op: AluOp, m: Machine, inst: Inst, decoded: Cpu, validated: Cpu)
    requires Pending(decoded) && Pending(validated)
    requires decoded == validated
    ensures SameAfterRollback(Execute(op, m.(cpu := validated), inst), m.(cpu := decoded))
  {
    hide Execute;
    ExecutePending(op, m.(cpu := validated), inst);
  }

  /** The fast handler and the legacy handler end in the same state, up to the rollback of a fault,
      for every machine and every successfully probed instruction, except in the one case above. */
  lemma {:induction false} FastIsLegacy(m: Machine, payload: Payload, code: seq<byte>)
    requires !Pending(m.cpu) && PayloadOf(payload, m.cpu.scalar.segments.cs.longMode, code)
    requires !FirstCheckOnly(m.cpu, payload)
    ensures SameAfterRollback(Fast(m, payload), Legacy(payload.op, m, code))
  {
    hide *;
    UnfoldPayload(payload, m.cpu.scalar.segments.cs.longMode, code);
    var p := Parse(payload.op, m.cpu.scalar.segments.cs.longMode, code);
    SameForm(payload.inst, p.inst);
    if !MemoryForm(p.inst) {
      RegisterFast(m, payload, code);
    } else {
      var s := Stamp(m.cpu, p.prefixes);
      var stamped := StampSize(s, p.length);
      MemoryDecode(payload.op, m.cpu, code, p);
      MemoryFast(m, payload, p);
      UnfoldLegacy(payload.op, m, code);
      StampedValidate(s, p.inst, p.length, p.length);
      StampedValidate(s, p.inst, 0, p.length);
      ValidateKinds(s, p.inst, 0);
      ValidateKinds(s, p.inst, p.length);
      ValidateKinds(stamped, p.inst, p.length);
      LengthMatters(s, p.inst, p.length);
      UnfoldCorner(m.cpu, payload, p);
      var first := ValidateOperand(s, p.inst, 0);
      if Pending(first) {
        WhenPending(first, p.inst, p.length, None, GP);
        StampFault(s, first.exception, p.length);
        FaultingFast(payload.op, m, p.inst.(memAddress := LinearAddress(s, p.inst, p.length)),
                     Decode(payload.op, m.cpu, code), ValidateOperand(stamped, p.inst, p.length));
      } else if Pending(ValidateOperand(stamped, p.inst, p.length)) {
        StampFault(s, ValidateOperand(stamped, p.inst, p.length).exception, p.length);
        FaultingFast(payload.op, m, p.inst.(memAddress := LinearAddress(s, p.inst, p.length)),
                     Decode(payload.op, m.cpu, code), ValidateOperand(stamped, p.inst, p.length));
      }
    }
    UnfoldSame(Fast(m, payload), Legacy(payload.op, m, code));
  }

  lemma {:induction false} StampFault(c: Cpu, exception: Exception, size: nat)
    ensures StampSize(c.(exception := exception), size) == StampSize(c, size).(exception := exception)
    ensures Pending(StampSize(c.(exception := exception), size)) == (exception.code != NoException)
    ensures Pending(c.(exception := exception)) == (exception.code != NoException)
  {
  }

  lemma {:induction false} UnfoldSame(a: Machine, b: Machine)
    ensures a == b ==> SameAfterRollback(a, b)
  {
  }

  lemma {:induction false} UnfoldLegacy(op: AluOp, m: Machine, code: seq<byte>)
    ensures Legacy(op, m, code) ==
            if Pending(Decode(op, m.cpu, code)) then m.(cpu := Decode(op, m.cpu, code))
            else Execute(op, m.(cpu := Decode(op, m.cpu, code)), DecodedInst(op, m.cpu, code))
  {
    hide Pending, Decode, Execute, DecodedInst;
  }

  lemma {:induction false} UnfoldPayload(payload: Payload, longCode: bool, code: seq<byte>)
    requires PayloadOf(payload, longCode, code)
    ensures var p := Parse(payload.op, longCode, code);
            && p.early == None && p.late == None && p.complete
            && payload.prefixes == p.prefixes && payload.length == p.length
            && payload.inst == p.inst.(memAddress := payload.inst.memAddress)
  {
    hide Parse;
  }

  lemma {:induction false} UnfoldCorner(c: Cpu, payload: Payload, p: Parsed)
    requires payload.inst == p.inst.(memAddress := payload.inst.memAddress)
    requires payload.prefixes == p.prefixes && payload.length == p.length
    ensures var s := Stamp(c, p.prefixes);
            FirstCheckOnly(c, payload) ==
            (RipRelative(p.inst) && Is64BitCode(s) && !Canonical(LinearAddress(s, p.inst, 0))
             && Canonical(LinearAddress(s, p.inst, p.length)))
  {
    hide LinearAddress, Canonical;
    var s := Stamp(c, p.prefixes);
    SameForm(payload.inst, p.inst);
    SameOperand(StampSize(s, p.length), payload.inst, p.inst, p.length);
    SameOperand(StampSize(s, p.length), payload.inst, p.inst, 0);
    StampedValidate(s, p.inst, p.length, p.length);
    StampedValidate(s, p.inst, 0, p.length);
  }

  /** Eight bytes from here on stay canonical. */
  predicate Roomy(address: u64) {
    address < 0x8000_0000_0000 - 8 || 0xFFFF_8000_0000_0000 <= address < 0xFFFF_FFFF_FFFF_FFF8
  }

  lemma {:induction false} CornerIsRoomy(c: Cpu, inst: Inst, k: nat)
    requires k <= 15 && RipRelative(inst)
    requires !Canonical(LinearAddress(c, inst, 0)) && Canonical(LinearAddress(c, inst, k))
    ensures Roomy(LinearAddress(c, inst, k))
  {
    hide LinearAddress, SegmentBase, Canonical, RipRelative;
    LengthMatters(c, inst, k);
    LengthMatters(c, inst, 0);
    CanonicalRange(LinearAddress(c, inst, 0));
    CanonicalRange(LinearAddress(c, inst, k));
    AddNear(c.scalar.rip + inst.displacement + SegmentBase(c, EffectiveSegment(c, inst)), k);
  }

  lemma {:induction false} AddNear(x: int, k: nat)
    requires k <= 15
    ensures Wrap(x + k) == Wrap(x) + k || Wrap(x + k) == Wrap(x) + k - 0x1_0000_0000_0000_0000
  {
  }

  lemma {:induction false} RoomyAccess(m: Machine, address: u64, n: nat, access: Access)
    requires Roomy(address) && n <= 8
    ensures Checked(m, address, n, access).cpu.exception.code in {m.cpu.exception.code, PF}
  {
    hide FirstFault, Wrap, Lookup, Canonical, Roomy;
    var k := FirstFault(m, address, n, access);
    if k < n {
      RoomyByte(address, k);
    }
  }

  lemma {:induction false} RoomyByte(address: u64, k: nat)
    requires Roomy(address) && k < 8
    ensures Canonical(Wrap(address + k))
  {
    CanonicalRange(Wrap(address + k));
  }

  lemma {:induction false} RoomyOperand(m: Machine, inst: Inst, w: Width, place: Place, value: nat)
    requires Roomy(inst.memAddress) && value < Modulus(w)
    ensures ReadOperand(m, inst, w, place).0.cpu.exception.code in {m.cpu.exception.code, PF}
    ensures WriteOperand(m, inst, w, place, value).cpu.exception.code in {m.cpu.exception.code, PF}
  {
    hide Checked, SetReg, Modulus, Pending, LoadValue, GetReg, RmIndex, Roomy, Accessible, StoreBytes;
    RoomyAccess(m, inst.memAddress, w / 8, Read);
    RoomyAccess(m, inst.memAddress, w / 8, Write);
    RegisterFrame(m.cpu, inst, w, place, value);
  }

  /** Well inside the canonical range a body can fault on pages only. */
  lemma {:induction false} RoomyExecute(op: AluOp, m: Machine, inst: Inst)
    requires Roomy(inst.memAddress)
    ensures Execute(op, m, inst).cpu.exception.code in {m.cpu.exception.code, PF}
  {
    hide ReadOperand, WriteOperand, Handled, OperandWidth, Destination, Source, FlagsAfter, Result, Modulus, Execute,
      WithFlags, Roomy;
    UnfoldExecute(op, m, inst);
    if Handled(op, inst) {
      var w := OperandWidth(m.cpu, op, inst);
      var destination := Destination(m.cpu, op, inst);
      var source := Source(m.cpu, op, inst, w);
      var (m1, dst) := ReadOperand(m, inst, w, destination);
      var (m2, src) := ReadOperand(m1, inst, w, source);
      RoomyOperand(m, inst, w, destination, 0);
      RoomyOperand(m1, inst, w, source, 0);
      var flags := FlagsAfter(op, m2.cpu.scalar.rflags, w, dst, src);
      FlagsFrame(m2.cpu, flags);
      RoomyOperand(m2.(cpu := WithFlags(m2.cpu, flags)), inst, w, destination, Result(op, w, dst, src));
    }
  }

  /** In that one case they never agree: the legacy handler raises #GP or #SS, the fast one does not. */
  lemma {:induction false} FastDiffers(m: Machine, payload: Payload, code: seq<byte>)
    requires !Pending(m.cpu) && PayloadOf(payload, m.cpu.scalar.segments.cs.longMode, code)
    requires payload.length <= 15 && FirstCheckOnly(m.cpu, payload)
    ensures Legacy(payload.op, m, code).cpu.exception.code in {GP, SS}
    ensures Fast(m, payload).cpu.exception.code in {NoException, PF}
    ensures !SameAfterRollback(Fast(m, payload), Legacy(payload.op, m, code))
  {
    hide *;
    UnfoldPayload(payload, m.cpu.scalar.segments.cs.longMode, code);
    var p := Parse(payload.op, m.cpu.scalar.segments.cs.longMode, code);
    SameForm(payload.inst, p.inst);
    UnfoldCorner(m.cpu, payload, p);
    var s := Stamp(m.cpu, p.prefixes);
    var stamped := StampSize(s, p.length);
    SameForm(p.inst, p.inst);
    MemoryDecode(payload.op, m.cpu, code, p);
    MemoryFast(m, payload, p);
    UnfoldLegacy(payload.op, m, code);
    StampedValidate(s, p.inst, p.length, p.length);
    ValidateKinds(s, p.inst, 0);
    ValidateKinds(stamped, p.inst, p.length);
    var first := ValidateOperand(s, p.inst, 0);
    WhenPending(first, p.inst, p.length, None, GP);
    StampFault(s, first.exception, p.length);
    CornerIsRoomy(s, p.inst, p.length);
    var live := p.inst.(memAddress := LinearAddress(s, p.inst, p.length));
    RoomyExecute(payload.op, m.(cpu := stamped), live);
    DifferentCodes(Fast(m, payload), Legacy(payload.op, m, code));
    NotPending(stamped);
  }

  lemma {:induction false} NotPending(c: Cpu)
    requires !Pending(c)
    ensures c.exception.code == NoException
  {
  }

  lemma {:induction false} DifferentCodes(a: Machine, b: Machine)
    ensures a.cpu.exception != b.cpu.exception ==> !SameAfterRollback(a, b)
  {
  }

  /** A fetch window that begins with ADD byte [RIP - 1], AL. */
  const ADD_BEHIND: seq<byte> :=
    [0x00, 0x05, 0xFF, 0xFF, 0xFF, 0xFF, 0x90, 0x90, 0x90, 0x90, 0x90, 0x90, 0x90, 0x90, 0x90]

  function AddBehind(): Payload {
    Payload(Add, Inst(0x00, true, 0x05, 0, -1, 0, 64, 0), NO_PREFIXES, 6)
  }

  lemma {:induction false} ParseBehind()
    ensures Parse(Add, true, ADD_BEHIND) == Parsed(NO_PREFIXES, None, AddBehind().inst, None, true, 6)
  {
    var start := EmptyInst(0x00, 64);
    assert ScanPrefixes(ADD_BEHIND, 0, NO_PREFIXES, false) == Scan(NO_PREFIXES, false, 0);
    DisplacementBehind();
    assert ParseModrm(start, ADD_BEHIND, 1) == ModrmParse(true, AddBehind().inst, 6);
  }

  lemma {:induction false} DisplacementBehind()
    ensures LittleEndian(ADD_BEHIND[2..6]) == 0xFFFF_FFFF
  {
    assert ADD_BEHIND[2..6] == [0xFF, 0xFF, 0xFF, 0xFF];
    assert [0xFF, 0xFF, 0xFF, 0xFF][1..] == [0xFF, 0xFF, 0xFF];
    assert [0xFF, 0xFF, 0xFF][1..] == [0xFF, 0xFF];
    assert [0xFF, 0xFF][1..] == [0xFF];
    assert [0xFF][1..] == [];
  }

  /** The case is met: at the first address of the upper half, ADD byte [RIP - 1], AL has an operand just above,
      while the same instruction without a length would have one just below. */
  lemma {:induction false} CornerIsMet(c: Cpu)
    requires Is64BitCode(c) && c.scalar.rip == 0xFFFF_8000_0000_0000 && c.scalar.segmentOverride == NoOverride
    ensures PayloadOf(AddBehind(), c.scalar.segments.cs.longMode, ADD_BEHIND) && AddBehind().length <= 15
    ensures FirstCheckOnly(c, AddBehind())
  {
    hide Parse;
    ParseBehind();
    var stamped := Stamped(c, AddBehind());
    LengthMatters(stamped, AddBehind().inst, 0);
    LengthMatters(stamped, AddBehind().inst, 6);
    CanonicalRange(0xFFFF_7FFF_FFFF_FFFF);
    CanonicalRange(0xFFFF_8000_0000_0005);
    assert SegmentBase(stamped, EffectiveSegment(stamped, AddBehind().inst)) == 0;
  }
}
