/** Running one decoded instruction, with rollback when it faults. */
module Executor {
  import opened Bits
  import opened MemoryManagement
  import opened CpuState
  import opened LinearMemory
  import opened Stack
  import opened Flags
  import opened Addressing
  import opened AluDecode
  import opened AluExecute
  import opened Decoder

  datatype StepCode = StepOk | StepHalt | StepFetchError | StepUd | StepException

  // The inline forms.

  function AddToStackPointer(c: Cpu, amount: nat): Cpu {
    SetStackPointer(c, StackAdd(c, StackPointer(c), amount))
  }

  /** Near RET: pop, check the target, then release the immediate. */
  function RunRet(m: Machine, e: Entry): Machine {
    var sized := m.(cpu := StampSize(m.cpu, e.retPrefix + (if e.inline == RetImmediate then 3 else 1)));
    var (popped, target) := Pop(sized, e.retSize / 8);
    if Pending(popped.cpu) then popped
    else
      var returned := AssignRip(popped.cpu, Wrap(target), e.retSize);
      if e.inline == RetPlain || Pending(returned) then popped.(cpu := returned)
      else popped.(cpu := AddToStackPointer(returned, e.retImmediate))
  }

  /** Short and near Jcc of 64-bit code. */
  function RunJcc(m: Machine, e: Entry, size: nat): Machine {
    var next := m.cpu.scalar.rip + size;
    var target := if EvalJcc(m.cpu.scalar.rflags, e.condition) then Wrap(next + e.displacement) else Wrap(next);
    m.(cpu := StampSize(AssignRip(m.cpu, target, 64), size))
  }

  /** The fast handler when there is one, else the legacy handler, else nothing. */
  function RunHandler(isa: Isa, m: Machine, e: Entry): Machine {
    match e.fast
    case Some(AluPrepared(payload)) => Fast(m, payload)
    case Some(OtherPrepared(id, captured)) => isa.fast(id, captured, m)
    case None =>
      match e.handler
      case Alu(op) => Legacy(op, m, e.bytes)
      case Opaque(id) => isa.run(id, e.bytes, m)
      case NoHandler => m
  }

  function Advance(ran: Machine, from: u64, branch: bool): Machine {
    if Pending(ran.cpu) || branch then ran
    else ran.(cpu := ran.cpu.(scalar := ran.cpu.scalar.(rip := Wrap(from + ran.cpu.scalar.lastInstSize))))
  }

  function Body(isa: Isa, m: Machine, e: Entry): Machine {
    match e.inline
    case RetPlain => RunRet(m, e)
    case RetImmediate => RunRet(m, e)
    case JccShort => RunJcc(m, e, 2)
    case JccNear => RunJcc(m, e, 6)
    case NotInline => Advance(RunHandler(isa, m, e), m.cpu.scalar.rip, e.branch)
  }

  function WithOverride(c: Cpu, segment: Override): Cpu {
    c.(scalar := c.scalar.(segmentOverride := segment))
  }

  /** The rollback: everything a snapshot holds comes back, vector state if it was snapshot too, while
      the exception and CR2 survive. */
  function RollBack(saved: Cpu, ran: Cpu, e: Entry, guarded: bool): Cpu {
    var restored :=
      if !guarded then ran
      else if e.partial then RestoreTransient(ran, saved.scalar)
      else if e.vector then RestoreScalar(ran, saved.scalar).(vector := saved.vector)
      else RestoreScalar(ran, saved.scalar);
    restored.(
      exception := ran.exception,
      scalar := restored.scalar.(controlRegs := restored.scalar.controlRegs[2 := ran.scalar.controlRegs[2]],
                                 segmentOverride := NoOverride))
  }

  function Conclude(saved: Cpu, ran: Machine, e: Entry, guarded: bool, code: StepCode): (Machine, StepCode) {
    if Pending(ran.cpu) then (ran.(cpu := RollBack(saved, ran.cpu, e, guarded)), StepException)
    else (ran.(cpu := WithOverride(ran.cpu, NoOverride)), code)
  }

  function Dispatch(isa: Isa, m: Machine, e: Entry): (Machine, StepCode) {
    var s := m.(cpu := WithOverride(m.cpu, e.segmentOverride));
    if e.ud then Conclude(s.cpu, s.(cpu := Raise(s.cpu, UD, 0)), e, false, StepUd)
    else if e.bp then Conclude(s.cpu, s.(cpu := Raise(s.cpu, BP, 0)), e, false, StepException)
    else if e.db then Conclude(s.cpu, s.(cpu := Raise(s.cpu, DB, 0)), e, false, StepException)
    else Conclude(s.cpu, Body(isa, s, e), e, !e.noFault, StepOk)
  }

  // The same, step by step on the context.

  method ReleaseStack(ctx: CpuContext, amount: nat)
    modifies ctx`scalar
    ensures ctx.State() == AddToStackPointer(old(ctx.State()), amount)
  {
    MoveStackPointer(ctx, StackAdd(ctx.State(), StackPointer(ctx.State()), amount));
  }

  method ReturnInline(ctx: CpuContext, e: Entry)
    requires e.retSize == 16 || e.retSize == 32 || e.retSize == 64
    requires e.inline == RetPlain || e.inline == RetImmediate
    modifies ctx`scalar, ctx`exception
    ensures ctx.Whole() == RunRet(old(ctx.Whole()), e)
  {
    hide Pop, AssignRip, Pending, AddToStackPointer, Wrap;
    SetSize(ctx, e.retPrefix + (if e.inline == RetImmediate then 3 else 1));
    ghost var sized := ctx.Whole();
    var target := PopValue(ctx, e.retSize / 8);
    if Pending(ctx.State()) {
      return;
    }
    QuietAssign(ctx.State(), Wrap(target), e.retSize, Pop(sized, e.retSize / 8).0);
    var ok := ctx.AssignRipChecked(Wrap(target), e.retSize);
    if e.inline == RetImmediate && ok {
      ReleaseStack(ctx, e.retImmediate);
    }
  }

  lemma {:induction false} QuietAssign(c: Cpu, target: u64, size: nat, m: Machine)
    requires !Pending(c)
    ensures Pending(AssignRip(c, target, size)) == !ValidCodeOffset(c, target, size)
  {
    hide MaskOffset, Canonical;
  }

  method BranchInline(ctx: CpuContext, e: Entry, size: nat)
    modifies ctx`scalar, ctx`exception
    ensures ctx.Whole() == RunJcc(old(ctx.Whole()), e, size)
  {
    hide AssignRip, Wrap, EvalJcc;
    var next := ctx.scalar.rip + size;
    if EvalJcc(ctx.scalar.rflags, e.condition) {
      var _ := ctx.AssignRipChecked(Wrap(next + e.displacement), 64);
    } else {
      var _ := ctx.AssignRipChecked(Wrap(next), 64);
    }
    SetSize(ctx, size);
  }

  method LoadMachine(ctx: CpuContext, m: Machine)
    modifies ctx, ctx.memMgr
    ensures ctx.Whole() == m
  {
    ctx.Load(m.cpu);
    ctx.memMgr.LoadView(m.mem);
  }

  method RunBody(ctx: CpuContext, isa: Isa, e: Entry)
    requires e.inline == RetPlain || e.inline == RetImmediate ==> e.retSize == 16 || e.retSize == 32 || e.retSize == 64
    modifies ctx, ctx.memMgr
    ensures ctx.Whole() == Body(isa, old(ctx.Whole()), e)
  {
    hide RunRet, RunJcc, Fast, Legacy, Pending, Wrap;
    if e.inline == RetPlain || e.inline == RetImmediate {
      ReturnInline(ctx, e);
      return;
    }
    if e.inline == JccShort {
      BranchInline(ctx, e, 2);
      return;
    }
    if e.inline == JccNear {
      BranchInline(ctx, e, 6);
      return;
    }
    var rip := ctx.scalar.rip;
    if e.fast.Some? {
      match e.fast.value
      case AluPrepared(payload) => ExecuteFast(ctx, payload);
      case OtherPrepared(id, captured) => LoadMachine(ctx, isa.fast(id, captured, ctx.Whole()));
    } else {
      match e.handler
      case Alu(op) => ExecuteLegacy(ctx, op, e.bytes);
      case Opaque(id) => LoadMachine(ctx, isa.run(id, e.bytes, ctx.Whole()));
      case NoHandler =>
    }
    if Pending(ctx.State()) {
      return;
    }
    if !e.branch {
      ctx.scalar := ctx.scalar.(rip := Wrap(rip + ctx.scalar.lastInstSize));
    }
  }

  method StampOverride(ctx: CpuContext, segment: Override)
    modifies ctx`scalar
    ensures ctx.State() == WithOverride(old(ctx.State()), segment)
  {
    ctx.scalar := ctx.scalar.(segmentOverride := segment);
  }

  method RollBackContext(ctx: CpuContext, saved: Cpu, e: Entry, guarded: bool)
    modifies ctx`scalar, ctx`vector, ctx`exception, ctx`modeKeyValid
    ensures ctx.State() == RollBack(saved, old(ctx.State()), e, guarded)
  {
    var exception, cr2 := ctx.exception, ctx.scalar.controlRegs[2];
    if guarded {
      if e.partial {
        ctx.RestoreTransientSnapshot(saved.scalar);
      } else {
        ctx.RestoreScalarSnapshot(saved.scalar);
        if e.vector {
          ctx.vector := saved.vector;
        }
      }
    }
    ctx.exception := exception;
    ctx.scalar := ctx.scalar.(controlRegs := ctx.scalar.controlRegs[2 := cr2], segmentOverride := NoOverride);
  }

  method ConcludeStep(ctx: CpuContext, saved: Cpu, e: Entry, guarded: bool, code: StepCode) returns (result: StepCode)
    modifies ctx`scalar, ctx`vector, ctx`exception, ctx`modeKeyValid
    ensures (ctx.Whole(), result) == Conclude(saved, old(ctx.Whole()), e, guarded, code)
  {
    hide RollBack, Pending, WithOverride;
    if Pending(ctx.State()) {
      RollBackContext(ctx, saved, e, guarded);
      return StepException;
    }
    StampOverride(ctx, NoOverride);
    return code;
  }

  predicate WellSized(e: Entry) {
    e.inline == RetPlain || e.inline == RetImmediate ==> e.retSize == 16 || e.retSize == 32 || e.retSize == 64
  }

  /** cpu_step_dispatch_decoded: stamp the override, snapshot, run, roll back or advance. */
  method DispatchDecoded(ctx: CpuContext, isa: Isa, e: Entry) returns (result: StepCode)
    requires WellSized(e)
    modifies ctx, ctx.memMgr
    ensures (ctx.Whole(), result) == Dispatch(isa, old(ctx.Whole()), e)
  {
    hide Conclude, Body, WithOverride;
    StampOverride(ctx, e.segmentOverride);
    var saved := ctx.State();
    if e.ud {
      ctx.RaiseException(UD, 0);
      result := ConcludeStep(ctx, saved, e, false, StepUd);
      return;
    }
    if e.bp {
      ctx.RaiseException(BP, 0);
      result := ConcludeStep(ctx, saved, e, false, StepException);
      return;
    }
    if e.db {
      ctx.RaiseException(DB, 0);
      result := ConcludeStep(ctx, saved, e, false, StepException);
      return;
    }
    RunBody(ctx, isa, e);
    result := ConcludeStep(ctx, saved, e, !e.noFault, StepOk);
  }

  // Precise faults.

  /** Whatever a handler did, a step that ends in an exception leaves the context as it was at entry, except
      for CR2, the exception, the mode key (to be computed again) and, where no vector snapshot was
      taken, the vector state. */
  lemma {:induction false} PreciseFaults(isa: Isa, m: Machine, e: Entry)
    requires m.cpu.scalar.segmentOverride == NoOverride && !Pending(m.cpu)
    requires !e.noFault && !e.partial
    requires Dispatch(isa, m, e).1 != StepOk
    ensures var (after, code) := Dispatch(isa, m, e);
            && code == StepException && Pending(after.cpu)
            && after.cpu.scalar == m.cpu.scalar.(
                 controlRegs := m.cpu.scalar.controlRegs[2 := after.cpu.scalar.controlRegs[2]])
            && (e.vector ==> after.cpu.vector == m.cpu.vector)
  {
    hide Body;
    assert m.cpu.scalar.controlRegs[2 := m.cpu.scalar.controlRegs[2]] == m.cpu.scalar.controlRegs;
  }

  /** The exception a handler raised is the one the step reports, and CR2 comes with it. */
  lemma {:induction false} ExceptionSurvives(isa: Isa, m: Machine, e: Entry)
    requires !e.ud && !e.bp && !e.db
    ensures var ran := Body(isa, m.(cpu := WithOverride(m.cpu, e.segmentOverride)), e);
            var (after, code) := Dispatch(isa, m, e);
            && after.cpu.exception == ran.cpu.exception && after.mem == ran.mem
            && after.cpu.scalar.controlRegs[2] == ran.cpu.scalar.controlRegs[2]
            && (code == StepException) == Pending(ran.cpu)
            && after.cpu.scalar.segmentOverride == NoOverride
  {
    hide Body;
  }

  /** No step reports HLT or an undefined opcode: both surface as exceptions. */
  lemma {:induction false} StepCodes(isa: Isa, m: Machine, e: Entry)
    ensures Dispatch(isa, m, e).1 in {StepOk, StepException}
    ensures (Dispatch(isa, m, e).1 == StepException) == Pending(Dispatch(isa, m, e).0.cpu)
    ensures Dispatch(isa, m, e).0.cpu.scalar.segmentOverride == NoOverride
  {
    hide Body;
  }

  /** Two bodies that agree up to a rollback make steps that agree entirely, if the step is guarded. */
  lemma {:induction false} ConcludeSame(saved: Cpu, a: Machine, b: Machine, e: Entry)
    requires SameAfterRollback(a, b) && !e.partial
    requires a == b || !e.noFault
    ensures Conclude(saved, a, e, !e.noFault, StepOk) == Conclude(saved, b, e, !e.noFault, StepOk)
  {
  }

  // Compare and branch.

  lemma {:induction false} OperandFits(m: Machine, inst: Inst, w: Width, place: Place)
    requires place.Constant? ==> place.value < Modulus(w)
    ensures ReadOperand(m, inst, w, place).1 < Modulus(w)
  {
    hide Accessible, LittleEndian, BytesAt, Pow2, Modulus, GetReg, RmIndex, Checked, ModField;
    LittleEndianWidth(BytesAt(m.mem, inst.memAddress, w as int / 8));
    WidthPow(w);
  }

  lemma {:induction false} WidthPow(w: Width)
    ensures Pow2(8 * (w as int / 8)) == Modulus(w) > 0
  {
    WordIsPow2();
  }

  lemma {:induction false} ConstantFits(c: Cpu, op: AluOp, inst: Inst, w: Width)
    ensures Source(c, op, inst, w).Constant? ==> Source(c, op, inst, w).value < Modulus(w)
    ensures !Destination(c, op, inst).Constant?
  {
    hide Modulus, Low, Signed, SignExtend8;
  }

  /** Where a Jcc goes from here. */
  function JumpTarget(m: Machine, e: Entry, size: nat, taken: bool): u64 {
    Wrap(m.cpu.scalar.rip + size + if taken then e.displacement else 0)
  }

  /** A jump of 64-bit code lands where its condition says, or raises #GP and stays if that is not canonical; apart
      from RIP and the size it changes nothing. */
  lemma {:induction false} JumpLands(m: Machine, e: Entry, size: nat)
    requires !Pending(m.cpu) && Is64BitCode(m.cpu)
    ensures var after, to := RunJcc(m, e, size), JumpTarget(m, e, size, EvalJcc(m.cpu.scalar.rflags, e.condition));
            && after.mem == m.mem
            && after.cpu == m.cpu.(scalar := m.cpu.scalar.(rip := if Canonical(to) then to else m.cpu.scalar.rip,
                                                           lastInstSize := size),
                                   exception := if Canonical(to) then m.cpu.exception else Exception(GP, 0))
            && (Pending(after.cpu) <==> !Canonical(to))
  {
    hide EvalJcc, Wrap;
  }

  /** CMP and a jump behind it, on any operands of any width: the jump is taken exactly when its condition holds of
      the two operands as numbers, and the pair changes no memory and no register. */
  lemma {:induction false} CompareThenJump(m: Machine, inst: Inst, e: Entry, size: nat)
    requires AluExecute.Handled(Cmp, inst) && !Pending(m.cpu) && Is64BitCode(m.cpu)
    requires !Pending(Execute(Cmp, m, inst).cpu)
    ensures var w := OperandWidth(m.cpu, Cmp, inst);
            var dst := ReadOperand(m, inst, w, Destination(m.cpu, Cmp, inst)).1;
            var src := ReadOperand(m, inst, w, Source(m.cpu, Cmp, inst, w)).1;
            var compared := Advance(Execute(Cmp, m, inst), m.cpu.scalar.rip, false);
            var after, to := RunJcc(compared, e, size),
                JumpTarget(compared, e, size, Relation(e.condition, w, dst, src));
            && after.mem == m.mem && after.cpu.scalar.regs == m.cpu.scalar.regs
            && (Canonical(to) ==> after.cpu.scalar.rip == to && !Pending(after.cpu))
            && (!Canonical(to) ==> after.cpu.scalar.rip == compared.cpu.scalar.rip
                                   && after.cpu.exception == Exception(GP, 0))
  {
    hide Pending, ReadOperand, OperandWidth, Destination, Source, SubFlags, Relation, EvalJcc, Canonical, Wrap, RunJcc,
      JumpTarget, Execute, AluExecute.Handled, Modulus;
    var w := OperandWidth(m.cpu, Cmp, inst);
    var destination, source := Destination(m.cpu, Cmp, inst), Source(m.cpu, Cmp, inst, w);
    var (m1, dst) := ReadOperand(m, inst, w, destination);
    var (m2, src) := ReadOperand(m1, inst, w, source);
    ConstantFits(m.cpu, Cmp, inst, w);
    OperandFits(m, inst, w, destination);
    OperandFits(m1, inst, w, source);
    UnfoldExecute(Cmp, m, inst);
    OperandFrame(m, inst, w, destination, 0);
    OperandFrame(m1, inst, w, source, 0);
    FlagsFrame(m2.cpu, SubFlags(m2.cpu.scalar.rflags, w, dst, src));
    QuietRead(m, inst, w, destination);
    QuietRead(m1, inst, w, source);
    CompareThenBranch(m2.cpu.scalar.rflags, w, dst, src, e.condition);
    var compared := Advance(Execute(Cmp, m, inst), m.cpu.scalar.rip, false);
    ComparedState(m, SubFlags(m2.cpu.scalar.rflags, w, dst, src));
    JumpLands(compared, e, size);
  }

  /** A read under a pending exception stays pending. */
  lemma {:induction false} QuietRead(m: Machine, inst: Inst, w: Width, place: Place)
    ensures Pending(m.cpu) ==> Pending(ReadOperand(m, inst, w, place).0.cpu)
  {
    hide FirstFault, LoadValue, GetReg, RmIndex, ModField;
  }

  lemma {:induction false} ComparedState(m: Machine, flags: u64)
    requires !Pending(m.cpu)
    ensures var after := Advance(m.(cpu := WithFlags(m.cpu, flags)), m.cpu.scalar.rip, false);
            && Is64BitCode(after.cpu) == Is64BitCode(m.cpu) && !Pending(after.cpu) && after.mem == m.mem
            && after.cpu.scalar.regs == m.cpu.scalar.regs && after.cpu.scalar.rflags == flags
  {
    hide Wrap;
  }
}
