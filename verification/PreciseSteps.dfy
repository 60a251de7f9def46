/** A step of the opened families that faults has changed nothing an architecture manual names, with or without a
    snapshot. */
module PreciseSteps {
  import opened Bits
  import opened MemoryManagement
  import opened CpuState
  import opened LinearMemory
  import opened Flags
  import opened Addressing
  import opened AluDecode
  import opened AluExecute
  import opened Decoder
  import opened Executor
  import opened Replay

  /** The scratch a decode leaves in the context: prefix bits and instruction size. */
  predicate UpToScratch(before: Scalar, after: Scalar) {
    after == before.(prefixes := after.prefixes, lastInstSize := after.lastInstSize)
  }

  /** Memory, vector state and every scalar field are as they were, but for CR2 and the scratch. */
  predicate Precise(before: Machine, after: Machine) {
    && after.mem == before.mem && after.cpu.vector == before.cpu.vector
    && UpToScratch(
         before.cpu.scalar.(controlRegs := before.cpu.scalar.controlRegs[2 := after.cpu.scalar.controlRegs[2]]),
         after.cpu.scalar)
  }

  predicate ScratchKept(before: Machine, after: Machine) {
    && after.cpu.scalar.prefixes == before.cpu.scalar.prefixes
    && after.cpu.scalar.lastInstSize == before.cpu.scalar.lastInstSize
  }

  /** A complete parse of a form without memory operand names registers only. */
  lemma {:induction false} CleanRegisters(op: AluOp, longCode: bool, code: seq<byte>)
    requires Clean(Parse(op, longCode, code)) && !MemoryForm(Parse(op, longCode, code).inst)
    ensures RegisterOnly(op, Parse(op, longCode, code).inst)
  {
    hide ScanPrefixes, LittleEndian, RegisterLock, RegField, ImmediateSize, SignedDisplacement, DisplacementSize,
      HasSib,
      ModField, RmField, GroupNumber, AddressSize;
    var scan := ScanPrefixes(code, 0, NO_PREFIXES, false);
    if scan.offset < |code| {
      var inst := EmptyInst(code[scan.offset], AddressSize(longCode, scan.prefixes));
      ParsedHasModrm(inst, code, scan.offset + 1);
    }
  }

  lemma {:induction false} ParsedHasModrm(inst: Inst, code: seq<byte>, offset: nat)
    requires offset <= |code| && !inst.hasModrm
    ensures var m := ParseModrm(inst, code, offset);
            && (m.ok ==> m.inst.hasModrm) && m.inst.opcode == inst.opcode
  {
    hide LittleEndian, SignedDisplacement, RmField, DisplacementSize, HasSib;
  }

  /** What a handler of the opened families may have done when it faults. */
  predicate FaultFrame(before: Machine, after: Machine, flagged: bool) {
    Pending(after.cpu) ==>
      && after.mem == before.mem && after.cpu.vector == before.cpu.vector
      && (flagged ==> UpToScratch(before.cpu.scalar, after.cpu.scalar))
  }

  lemma {:induction false} ExecuteFaultFrame(op: AluOp, before: Machine, m: Machine, inst: Inst, flagged: bool)
    requires m.mem == before.mem && m.cpu.vector == before.cpu.vector
    requires flagged ==> RegisterOnly(op, inst) && !Pending(m.cpu)
    ensures FaultFrame(before, Execute(op, m, inst), flagged)
  {
    hide Execute, RegisterOnly;
    ExecuteFrame(op, m, inst);
    if flagged {
      RegisterFormsAreSafe(op, m, inst);
    }
  }

  lemma {:induction false} FastFaultFrame(m: Machine, payload: Payload, flagged: bool)
    requires !Pending(m.cpu)
    requires flagged ==> !MemoryForm(payload.inst) && RegisterOnly(payload.op, payload.inst)
    ensures FaultFrame(m, Fast(m, payload), flagged)
  {
    hide Execute, MemoryForm, RegisterOnly, LinearAddress, FaultFrame, ValidateOperand;
    var c := Stamped(m.cpu, payload);
    StampedIdle(m.cpu, payload);
    if !MemoryForm(payload.inst) {
      ExecuteFaultFrame(payload.op, m, m.(cpu := c), payload.inst, flagged);
    } else {
      var v := ValidateOperand(c, payload.inst, payload.length);
      ValidateFrame(c, payload.inst, payload.length);
      ExecuteFaultFrame(payload.op, m, m.(cpu := v),
                        payload.inst.(memAddress := LinearAddress(c, payload.inst, payload.length)), flagged);
    }
  }

  lemma {:induction false} StampedIdle(c: Cpu, payload: Payload)
    ensures Pending(Stamped(c, payload)) == Pending(c) && Stamped(c, payload).vector == c.vector
  {
  }

  lemma {:induction false} ValidateFrame(c: Cpu, inst: Inst, k: nat)
    ensures ValidateOperand(c, inst, k) == c.(exception := ValidateOperand(c, inst, k).exception)
  {
    hide LinearAddress, EffectiveSegment, Canonical, Is64BitCode;
  }

  lemma {:induction false} SameRegisters(op: AluOp, inst: Inst, other: Inst)
    requires inst == other.(memAddress := inst.memAddress)
    ensures RegisterOnly(op, inst) == RegisterOnly(op, other)
  {
  }

  /** A decode that raises nothing has parsed cleanly. */
  lemma {:induction false} QuietDecodeIsClean(op: AluOp, c: Cpu, code: seq<byte>)
    requires !Pending(c) && !Pending(Decode(op, c, code))
    ensures Clean(Parse(op, c.scalar.segments.cs.longMode, code))
  {
    hide Parse, Effects, Pending;
    var p := Parse(op, c.scalar.segments.cs.longMode, code);
    IncompleteFaults(op, c.scalar.segments.cs.longMode, code);
    StampPending(c, p.prefixes);
    QuietEffects(Stamp(c, p.prefixes), p);
  }

  lemma {:induction false} LegacyFaultFrame(op: AluOp, m: Machine, code: seq<byte>, flagged: bool)
    requires !Pending(m.cpu)
    requires var p := Parse(op, m.cpu.scalar.segments.cs.longMode, code);
             flagged && Clean(p) ==> !MemoryForm(p.inst)
    ensures FaultFrame(m, Legacy(op, m, code), flagged)
  {
    hide Execute, MemoryForm, RegisterOnly, LinearAddress, FaultFrame, Decode, Parse, Pending;
    DecodeFrame(op, m.cpu, code);
    var decoded := Decode(op, m.cpu, code);
    if Pending(decoded) {
      DecodeFaults(m, decoded, flagged);
    } else {
      QuietDecodeIsClean(op, m.cpu, code);
      var p := Parse(op, m.cpu.scalar.segments.cs.longMode, code);
      if flagged {
        CleanRegisters(op, m.cpu.scalar.segments.cs.longMode, code);
      }
      ExecuteFaultFrame(op, m, m.(cpu := decoded), DecodedInst(op, m.cpu, code), flagged);
    }
  }

  lemma {:induction false} DecodeFaults(m: Machine, decoded: Cpu, flagged: bool)
    requires decoded == m.cpu.(exception := decoded.exception,
                               scalar := m.cpu.scalar.(prefixes := decoded.scalar.prefixes,
                                                       lastInstSize := decoded.scalar.lastInstSize))
    ensures FaultFrame(m, m.(cpu := decoded), flagged)
  {
  }

  /** The handler of an entry of the opened families, decoded in any state of the same mode. */
  lemma {:induction false} HandlerFaultFrame(isa: Isa, s: Machine, c: Cpu, code: seq<byte>)
    requires !Pending(s.cpu) && !Pending(c) && SameMode(c, s.cpu) && code != []
    requires StaticEntry(isa, ModeBits(c), code).handler.Alu?
    ensures var e := Attach(isa, StaticEntry(isa, ModeBits(c), code), c);
            FaultFrame(s, RunHandler(isa, s, e), e.noFault)
  {
    hide *;
    var mode, longCode := ModeBits(c), c.scalar.segments.cs.longMode;
    var e0 := StaticEntry(isa, mode, code);
    var e := Attach(isa, e0, c);
    AluEntry(isa, mode, code);
    CanInstall(e0);
    AttachAlu(isa, e0, c);
    StaticFields(e, e0);
    RunsOf(isa, s, e);
    UnfoldMode(c, s.cpu);
    var op := e0.handler.op;
    if e.noFault && Clean(Parse(op, longCode, code)) {
      NoFaultMeansRegisters(isa, mode, longCode, code);
    }
    if e.fast.Some? {
      ProbeIsClean(op, c, code);
      var payload := ProbePayload(op, c, code);
      UnfoldPayload(payload, longCode, code);
      SameForm(payload.inst, Parse(op, longCode, code).inst);
      if e.noFault {
        CleanRegisters(op, longCode, code);
        SameRegisters(op, payload.inst, Parse(op, longCode, code).inst);
      }
      FastFaultFrame(s, payload, e.noFault);
    } else {
      LegacyFaultFrame(op, s, code, e.noFault);
    }
  }

  lemma {:induction false} ConcludePrecise(m: Machine, e: Entry, ran: Machine)
    requires m.cpu.scalar.segmentOverride == NoOverride && !e.partial
    requires var s := m.(cpu := WithOverride(m.cpu, e.segmentOverride));
             Pending(ran.cpu) && FaultFrame(s, ran, e.noFault)
    ensures var after := Conclude(WithOverride(m.cpu, e.segmentOverride), ran, e, !e.noFault, StepOk).0;
            Precise(m, after) && (!e.noFault ==> ScratchKept(m, after))
  {
    assert m.cpu.scalar.controlRegs[2 := m.cpu.scalar.controlRegs[2]] == m.cpu.scalar.controlRegs;
  }

  /** Faults of the opened families are precise, NO_FAULT or not: a step that ends in an exception has changed no
      memory, no register, no flag and not RIP, whatever the state in which its entry was decoded. Without the flag the
      prefix bits and the size come back too. */
  lemma {:induction false} FaultsArePrecise(isa: Isa, m: Machine, c: Cpu, code: seq<byte>)
    requires ReadyToDecode(m.cpu) && !Pending(c) && SameMode(c, m.cpu) && code != [] && isa.special(code) == None
    requires StaticEntry(isa, ModeBits(c), code).handler.Alu?
    requires Dispatch(isa, m, DecodeAt(isa, c, code)).1 != StepOk
    ensures var e, after := DecodeAt(isa, c, code), Dispatch(isa, m, DecodeAt(isa, c, code)).0;
            Precise(m, after) && (!e.noFault ==> ScratchKept(m, after))
  {
    hide *;
    UnfoldDecodeAt(isa, c, code);
    var e0 := StaticEntry(isa, ModeBits(c), code);
    var e := Attach(isa, e0, c);
    AluEntry(isa, ModeBits(c), code);
    CanInstall(e0);
    AttachAlu(isa, e0, c);
    StaticFields(e, e0);
    UnfoldReady(m.cpu);
    var s := m.(cpu := WithOverride(m.cpu, e.segmentOverride));
    OverrideKeeps(m.cpu, e.segmentOverride);
    OverrideMode(c, m.cpu, e.segmentOverride);
    HandlerFaultFrame(isa, s, c, code);
    DispatchBody(isa, m, e);
    ReadyIsFlat(m.cpu);
    ConcludePrecise(m, e, RunHandler(isa, s, e));
  }

  lemma {:induction false} ReadyIsFlat(c: Cpu)
    requires ReadyToDecode(c)
    ensures c.scalar.segmentOverride == NoOverride
  {
    hide Pending;
  }

  lemma {:induction false} OverrideMode(c: Cpu, d: Cpu, segment: Override)
    requires SameMode(c, d)
    ensures SameMode(c, WithOverride(d, segment))
  {
  }

  /** Without quick exits a step ends well exactly when the handler raises nothing, and a fault is concluded as the
      handler left it. */
  lemma {:induction false} DispatchBody(isa: Isa, m: Machine, e: Entry)
    requires e.inline == NotInline && !e.ud && !e.bp && !e.db
    ensures var s := m.(cpu := WithOverride(m.cpu, e.segmentOverride));
            var ran := RunHandler(isa, s, e);
            && (Dispatch(isa, m, e).1 == StepOk <==> !Pending(ran.cpu))
            && (Pending(ran.cpu) ==> Dispatch(isa, m, e) == Conclude(s.cpu, ran, e, !e.noFault, StepOk))
  {
    hide RunHandler, RollBack;
  }
}
