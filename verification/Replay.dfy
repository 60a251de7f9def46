/** A cached entry replayed later does what a fresh decode of the same bytes would do. */
module Replay {
  import opened Bits
  import opened MemoryManagement
  import opened CpuState
  import opened Flags
  import opened Addressing
  import opened AluDecode
  import opened AluExecute
  import opened Decoder
  import opened Executor

  // What a successful probe found.

  /** A decode that stops before the instruction size has a fault to report. */
  predicate FaultOrComplete(p: Parsed, code: seq<byte>) {
    && (!p.complete ==> p.early.Some? || p.late.Some?)
    && (p.complete ==> p.length <= |code|)
    && p.early in {None, Some(UD), Some(GP)} && p.late in {None, Some(UD), Some(GP)}
  }

  lemma {:induction false} FormFaults(
    op: AluOp, p: Prefixes, lock: bool, early: Option<ExceptionCode>, inst: Inst, code: seq<byte>, offset: nat, n: nat)
    requires offset <= |code| && !inst.hasModrm && early in {None, Some(UD)}
    ensures FaultOrComplete(ParseImmediate(p, early, inst, None, code, offset, n), code)
    ensures FaultOrComplete(ParseGroup(op, p, lock, early, inst, code, offset, n), code)
    ensures FaultOrComplete(ParseRegisterForm(p, lock, early, inst, code, offset), code)
    ensures FaultOrComplete(Parsed(p, First(early, Some(UD)), inst, None, true, offset), code)
  {
    hide ParseModrm, LittleEndian, RegisterLock, RegField;
  }

  lemma {:induction false} IncompleteFaults(op: AluOp, longCode: bool, code: seq<byte>)
    ensures FaultOrComplete(Parse(op, longCode, code), code)
  {
    hide *;
    var scan := ScanPrefixes(code, 0, NO_PREFIXES, false);
    var early, lock := When(op == Cmp && scan.lock, UD), scan.lock && op != Cmp;
    UnfoldParse(op, longCode, code);
    EarlyCodes(op == Cmp && scan.lock);
    if scan.offset >= |code| {
      NothingParsed(scan.prefixes, early, code);
    } else {
      var inst := EmptyInst(code[scan.offset], AddressSize(longCode, scan.prefixes));
      NoOperandYet(code[scan.offset], AddressSize(longCode, scan.prefixes));
      UnfoldOperands(op, scan.prefixes, lock, early, inst, code, scan.offset + 1);
      LockCodes(early, lock);
      FormFaults(op, scan.prefixes, lock, early, inst, code, scan.offset + 1, 1);
      FormFaults(op, scan.prefixes, lock, early, inst, code, scan.offset + 1, ImmediateSize(scan.prefixes));
      FormFaults(op, scan.prefixes, lock, First(early, When(lock, UD)), inst, code, scan.offset + 1, 1);
      FormFaults(op, scan.prefixes, lock, First(early, When(lock, UD)), inst, code, scan.offset + 1,
                 ImmediateSize(scan.prefixes));
    }
  }

  lemma {:induction false} LockCodes(early: Option<ExceptionCode>, lock: bool)
    requires early in {None, Some(UD)}
    ensures First(early, When(lock, UD)) in {None, Some(UD)}
  {
  }

  lemma {:induction false} NothingParsed(p: Prefixes, early: Option<ExceptionCode>, code: seq<byte>)
    requires early in {None, Some(UD)}
    ensures FaultOrComplete(Parsed(p, First(early, Some(GP)), EmptyInst(0, 0), None, false, 0), code)
  {
  }

  lemma {:induction false} QuietEffects(c: Cpu, p: Parsed)
    requires !Pending(c) && !Pending(Effects(c, p))
    requires p.early in {None, Some(UD), Some(GP)} && p.late in {None, Some(UD), Some(GP)}
    ensures p.early == None && p.late == None
    ensures p.complete ==> Effects(c, p) == StampSize(c, p.length)
  {
    hide ValidateOperand, MemoryForm, RipRelative, Pending;
    var c2 := RaiseAny(c, p.early);
    var c3 := if MemoryForm(p.inst) then ValidateOperand(c2, p.inst, 0) else c2;
    var c4 := RaiseAny(c3, p.late);
    QuietFinish(c4, p);
    QuietRaise(c3, p.late);
    QuietValidate(c2, p.inst, 0);
    QuietRaise(c, p.early);
    QuietValidate(c4, p.inst, p.length);
    QuietSize(if p.complete && RipRelative(p.inst) then ValidateOperand(c4, p.inst, p.length) else c4, p.length);
  }

  lemma {:induction false} QuietSize(c: Cpu, size: nat)
    ensures Pending(StampSize(c, size)) == Pending(c)
  {
  }

  /** A successful probe captures the payload of these bytes. */
  lemma {:induction false} ProbeIsClean(op: AluOp, c: Cpu, code: seq<byte>)
    requires !Pending(c) && ProbeSucceeds(op, c, code)
    ensures Clean(Parse(op, c.scalar.segments.cs.longMode, code))
    ensures PayloadOf(ProbePayload(op, c, code), c.scalar.segments.cs.longMode, code)
    ensures ProbePayload(op, c, code).op == op
  {
    hide Parse, Effects, LinearAddress, Pending, MemoryForm;
    var p := Parse(op, c.scalar.segments.cs.longMode, code);
    IncompleteFaults(op, c.scalar.segments.cs.longMode, code);
    StampPending(c, p.prefixes);
    QuietEffects(Stamp(c, p.prefixes), p);
  }

  lemma {:induction false} StampPending(c: Cpu, p: Prefixes)
    ensures Pending(Stamp(c, p)) == Pending(c) && Stamp(c, p).scalar.prefixes == p
    ensures Is64BitCode(Stamp(c, p)) == Is64BitCode(c)
  {
  }

  /** When the bytes are clean, only the operand address can fail the probe. */
  lemma {:induction false} ProbeOutcome(op: AluOp, c: Cpu, code: seq<byte>)
    requires !Pending(c) && |code| <= 15
    requires Clean(Parse(op, c.scalar.segments.cs.longMode, code))
    ensures var p := Parse(op, c.scalar.segments.cs.longMode, code);
            var s := Stamp(c, p.prefixes);
            && (!MemoryForm(p.inst) ==> ProbeSucceeds(op, c, code))
            && (RipRelative(p.inst) ==>
                  ProbeSucceeds(op, c, code)
                  == !(Is64BitCode(c) && !(Canonical(LinearAddress(s, p.inst, 0))
                                           && Canonical(LinearAddress(s, p.inst, p.length)))))
  {
    hide Parse, LinearAddress, Canonical, Is64BitCode, EffectiveSegment, MemoryForm, RipRelative, ValidateOperand,
      Pending;
    var p := Parse(op, c.scalar.segments.cs.longMode, code);
    IncompleteFaults(op, c.scalar.segments.cs.longMode, code);
    LengthPositive(op, c.scalar.segments.cs.longMode, code);
    StampPending(c, p.prefixes);
    var s := Stamp(c, p.prefixes);
    SameForm(p.inst, p.inst);
    ValidateKinds(s, p.inst, 0);
    ValidateKinds(s, p.inst, p.length);
    var first := if MemoryForm(p.inst) then ValidateOperand(s, p.inst, 0) else s;
    if Pending(first) {
      WhenPending(first, p.inst, p.length, None, GP);
    }
    QuietSize(first, p.length);
    QuietSize(ValidateOperand(first, p.inst, p.length), p.length);
  }

  /** A complete decode consumes the opcode at least. */
  lemma {:induction false} LengthPositive(op: AluOp, longCode: bool, code: seq<byte>)
    ensures var p := Parse(op, longCode, code); p.complete ==> p.length > 0
  {
    hide ScanPrefixes, LittleEndian, RegisterLock, RegField, ImmediateSize, First, When, DisplacementSize, HasSib;
  }

  // The RIP-relative case: the probe looks at RIP and the bytes only.

  lemma {:induction false} RipAddress(c: Cpu, inst: Inst, k: nat)
    requires RipRelative(inst) && Is64BitCode(c) && c.scalar.segmentOverride == NoOverride
    ensures LinearAddress(c, inst, k) == Wrap(c.scalar.rip + k + inst.displacement)
  {
    hide EffectiveOffset, Wrap;
    LengthMatters(c, inst, k);
    RipSegment(c, inst);
    FlatData(c);
  }

  lemma {:induction false} FlatData(c: Cpu)
    requires Is64BitCode(c)
    ensures SegmentBase(c, SegDS) == 0
  {
  }

  lemma {:induction false} RipSegment(c: Cpu, inst: Inst)
    requires RipRelative(inst) && c.scalar.segmentOverride == NoOverride
    ensures EffectiveSegment(c, inst) == SegDS
  {
  }

  predicate SameMode(a: Cpu, b: Cpu) {
    a.scalar.longModeActive == b.scalar.longModeActive
    && a.scalar.segments.cs.longMode == b.scalar.segments.cs.longMode
    && a.scalar.segments.cs.db == b.scalar.segments.cs.db
  }

  /** Equal mode bits mean equal modes. */
  lemma {:induction false} ModeBitsDecide(a: Cpu, b: Cpu)
    ensures ModeBits(a) == ModeBits(b) <==> SameMode(a, b)
  {
  }

  predicate ReadyToDecode(c: Cpu) {
    !Pending(c) && c.scalar.segmentOverride == NoOverride
  }

  /** Two probes of the same clean bytes at the same RIP and mode can differ for register-relative operands only. */
  lemma {:induction false} ProbesAgree(op: AluOp, a: Cpu, b: Cpu, code: seq<byte>)
    requires ReadyToDecode(a) && ReadyToDecode(b) && SameMode(a, b) && a.scalar.rip == b.scalar.rip && |code| <= 15
    requires var p := Parse(op, a.scalar.segments.cs.longMode, code);
             Clean(p) && (!MemoryForm(p.inst) || RipRelative(p.inst))
    ensures ProbeSucceeds(op, a, code) == ProbeSucceeds(op, b, code)
  {
    hide Parse, LinearAddress, Canonical, MemoryForm, RipRelative, Pending, Wrap, ProbeSucceeds, Is64BitCode;
    var p := Parse(op, a.scalar.segments.cs.longMode, code);
    ProbeOutcome(op, a, code);
    ProbeOutcome(op, b, code);
    SameModeIs64(a, b);
    StampPending(a, p.prefixes);
    StampPending(b, p.prefixes);
    if RipRelative(p.inst) && Is64BitCode(a) {
      RipAddress(Stamp(a, p.prefixes), p.inst, 0);
      RipAddress(Stamp(b, p.prefixes), p.inst, 0);
      RipAddress(Stamp(a, p.prefixes), p.inst, p.length);
      RipAddress(Stamp(b, p.prefixes), p.inst, p.length);
    }
  }

  lemma {:induction false} SameModeIs64(a: Cpu, b: Cpu)
    requires SameMode(a, b)
    ensures Is64BitCode(a) == Is64BitCode(b)
  {
  }

  // NO_FAULT entries of the opened families are register forms.

  lemma {:induction false} ScanStopsWherePeekStops(mode: nat, code: seq<byte>, i: nat, p: Prefixes, lock: bool)
    requires i <= |code|
    requires var n := PrefixLength(mode, code, i); n < |code| && !(0x40 <= code[n] <= 0x4F)
    ensures ScanPrefixes(code, i, p, lock).offset == PrefixLength(mode, code, i)
    decreases |code| - i
  {
    hide WithPrefix;
    if SkippedByPeek(mode, code[i]) {
      ScanStopsWherePeekStops(mode, code, i + 1, WithPrefix(p, code[i]), lock || code[i] == 0xF0);
    }
  }

  /** How an entry of the opened families comes about. */
  lemma {:induction false} AluEntry(isa: Isa, mode: nat, code: seq<byte>)
    requires StaticEntry(isa, mode, code).handler.Alu?
    ensures var e := StaticEntry(isa, mode, code);
            var n := PrefixLength(mode, code, 0);
            var opc := OpcodeAt(code, n);
            var low := opc % 0x100;
            && n < |code|
            && AluRoute(low, if low in {0x80, 0x81, 0x83} then PeekReg(code, n + 1) else 0xFF) == Some(e.handler.op)
            && (e.noFault ==> ClassifyNoFault(code, n, opc))
            && !e.ud && !e.bp && !e.db && !e.partial && e.inline == NotInline && e.bytes == code && e.fast == None
  {
    hide *;
    UnfoldStaticEntry(isa, mode, code);
    var n := PrefixLength(mode, code, 0);
    if n < |code| {
      ClassifiedAlu(isa, mode, code, n, OpcodeAt(code, n));
    }
  }

  lemma {:induction false} UnfoldStaticEntry(isa: Isa, mode: nat, code: seq<byte>)
    ensures var n := PrefixLength(mode, code, 0);
            var e := StaticEntry(isa, mode, code);
            e.handler.Alu? ==> n < |code| && e == Classify(isa, mode, code, n, OpcodeAt(code, n))
  {
    hide Classify, PrefixLength, OpcodeAt;
  }

  lemma {:induction false} ClassifiedAlu(isa: Isa, mode: nat, code: seq<byte>, n: nat, opc: nat)
    requires n < |code| && Classify(isa, mode, code, n, opc).handler.Alu?
    ensures var e := Classify(isa, mode, code, n, opc);
            var low := opc % 0x100;
            && AluRoute(low, if low in {0x80, 0x81, 0x83} then PeekReg(code, n + 1) else 0xFF) == Some(e.handler.op)
            && (e.noFault ==> ClassifyNoFault(code, n, opc))
            && !e.ud && !e.bp && !e.db && !e.partial && e.inline == NotInline && e.bytes == code && e.fast == None
  {
    hide *;
    ClassifiedInstalls(isa, mode, code, n, opc);
    BlankStart(isa, mode, code, n, opc);
    LadderAlu(isa, mode, code, n, opc);
    InstalledAlu(StartEntry(isa, mode, code, n, opc).(branch := Branches(code, n, opc)),
                 Ladder(isa, mode, code, n, opc),
                 ClassifyNoFault(code, n, opc));
  }

  lemma {:induction false} BlankStart(isa: Isa, mode: nat, code: seq<byte>, n: nat, opc: nat)
    requires n <= |code|
    ensures var e := StartEntry(isa, mode, code, n, opc);
            && e.handler == NoHandler && !e.ud && !e.bp && !e.db && !e.partial && !e.noFault
            && e.inline == NotInline && e.bytes == code && e.fast == None
  {
    hide PeekSegment, BranchOpcode, EscapeCandidate;
  }

  lemma {:induction false} InstalledAlu(start: Entry, verdict: Verdict, noFault: bool)
    requires start.handler == NoHandler
    ensures var e := Install(start, verdict, noFault);
            && (e.handler.Alu? ==> verdict.Handled? && verdict.handler == e.handler
                                   && e == start.(handler := e.handler, partial := verdict.partial,
                                                  noFault := e.noFault)
                                   && (e.noFault ==> noFault))
  {
  }

  lemma {:induction false} ClassifiedInstalls(isa: Isa, mode: nat, code: seq<byte>, n: nat, opc: nat)
    requires n < |code|
    ensures var e := Classify(isa, mode, code, n, opc);
            e.handler.Alu? ==>
              e == Install(StartEntry(isa, mode, code, n, opc).(branch := Branches(code, n, opc)),
                           Ladder(isa, mode, code, n, opc), ClassifyNoFault(code, n, opc))
  {
    hide ClassifyNoFault, EscapeOwnedUd, RetOperandSize, LittleEndian, Branches, SignedByte, SignedDword, LongCodeBit,
      Ladder, Install, StartEntry;
    BlankStart(isa, mode, code, n, opc);
  }

  lemma {:induction false} LadderAlu(isa: Isa, mode: nat, code: seq<byte>, n: nat, opc: nat)
    ensures var verdict := Ladder(isa, mode, code, n, opc);
            var low := opc % 0x100;
            verdict.Handled? && verdict.handler.Alu? ==>
              && AluRoute(low, if low in {0x80, 0x81, 0x83} then PeekReg(code, n + 1) else 0xFF)
                 == Some(verdict.handler.op)
              && !verdict.partial
  {
    hide AluRoute, PeekReg;
  }

  lemma {:induction false} RouteIsNoRex(code: seq<byte>, n: nat, reg: nat)
    requires n < |code| && AluRoute(OpcodeAt(code, n) % 0x100, reg).Some?
    ensures !(0x40 <= code[n] <= 0x4F)
    ensures code[n] == 0x0F || code[n] == OpcodeAt(code, n)
  {
  }

  /** Where the parse takes its opcode, and that 0F belongs to no family. */
  lemma {:induction false} ParsedOpcode(op: AluOp, longCode: bool, code: seq<byte>, n: nat)
    requires n < |code| && ScanPrefixes(code, 0, NO_PREFIXES, false).offset == n
    ensures var p := Parse(op, longCode, code);
            && (code[n] == 0x0F ==> p.early.Some?)
            && (code[n] - BaseOpcode(op) in {4, 5} ==> !p.inst.hasModrm)
            && (n + 1 < |code| && ModField(code[n + 1]) == 3 ==> !MemoryForm(p.inst))
  {
    hide ScanPrefixes, LittleEndian, RegisterLock, RegField, ImmediateSize, First, When, GroupNumber,
      SignedDisplacement,
      ParseOperands, AddressSize;
    var scan := ScanPrefixes(code, 0, NO_PREFIXES, false);
    var early := When(op == Cmp && scan.lock, UD);
    var inst := EmptyInst(code[n], AddressSize(longCode, scan.prefixes));
    OpcodeForms(op, scan.prefixes, scan.lock && op != Cmp, early, inst, code, n + 1);
    FirstIsSome(early);
  }

  lemma {:induction false} FirstIsSome(a: Option<ExceptionCode>)
    ensures First(a, Some(UD)).Some?
  {
  }

  lemma {:induction false} OpcodeForms(
    op: AluOp, p: Prefixes, lock: bool, early: Option<ExceptionCode>, inst: Inst, code: seq<byte>, offset: nat)
    requires offset <= |code| && !inst.hasModrm
    ensures var parsed := ParseOperands(op, p, lock, early, inst, code, offset);
            && (inst.opcode == 0x0F ==> parsed.early == First(early, Some(UD)))
            && (inst.opcode - BaseOpcode(op) in {4, 5} ==> !parsed.inst.hasModrm)
            && (offset < |code| && ModField(code[offset]) == 3 ==> !MemoryForm(parsed.inst))
  {
    hide LittleEndian, RegisterLock, RegField, ImmediateSize, First, When, GroupNumber, ParseModrm;
    ModrmOf(inst, code, offset);
  }

  lemma {:induction false} ModrmOf(inst: Inst, code: seq<byte>, offset: nat)
    requires offset <= |code| && !inst.hasModrm
    ensures var m := ParseModrm(inst, code, offset);
            offset < |code| && ModField(code[offset]) == 3 ==> m.inst.hasModrm && m.inst.modrm == code[offset]
    ensures offset >= |code| ==> !ParseModrm(inst, code, offset).inst.hasModrm
  {
    hide LittleEndian, SignedDisplacement, RmField;
  }

  lemma {:induction false} NoFaultForms(op: AluOp, code: seq<byte>, n: nat, reg: nat)
    requires n < |code| && code[n] != 0x0F
    requires ClassifyNoFault(code, n, OpcodeAt(code, n)) && AluRoute(OpcodeAt(code, n) % 0x100, reg) == Some(op)
    ensures code[n] - BaseOpcode(op) in {4, 5} || (n + 1 < |code| && ModField(code[n + 1]) == 3)
  {
    hide ModField;
    var opc := OpcodeAt(code, n);
    assert opc == code[n];
  }

  /** An entry marked NO_FAULT either faults while decoding, before its body runs, or has no memory operand. */
  lemma {:induction false} NoFaultMeansRegisters(isa: Isa, mode: nat, longCode: bool, code: seq<byte>)
    requires var e := StaticEntry(isa, mode, code);
             e.handler.Alu? && e.noFault && Clean(Parse(e.handler.op, longCode, code))
    ensures !MemoryForm(Parse(StaticEntry(isa, mode, code).handler.op, longCode, code).inst)
  {
    hide *;
    var op := StaticEntry(isa, mode, code).handler.op;
    var n := PrefixLength(mode, code, 0);
    AluEntry(isa, mode, code);
    var low := OpcodeAt(code, n) % 0x100;
    var reg := if low in {0x80, 0x81, 0x83} then PeekReg(code, n + 1) else 0xFF;
    RouteIsNoRex(code, n, reg);
    ScanStopsWherePeekStops(mode, code, 0, NO_PREFIXES, false);
    ParsedOpcode(op, longCode, code, n);
    CleanHasNoEarly(Parse(op, longCode, code));
    NoFaultForms(op, code, n, reg);
    NoModrmNoMemory(Parse(op, longCode, code).inst);
  }

  lemma {:induction false} CleanHasNoEarly(p: Parsed)
    requires Clean(p)
    ensures !p.early.Some?
  {
  }

  lemma {:induction false} NoModrmNoMemory(inst: Inst)
    ensures !inst.hasModrm ==> !MemoryForm(inst)
  {
  }

  // Replaying.

  /** Entries that agree in everything dispatch looks at, but for the fast handler. */
  predicate SameStatic(a: Entry, b: Entry) {
    a == b.(fast := a.fast, length := a.length)
  }

  lemma {:induction false} WithFast(e: Entry, fast: Option<Prepared>, length: nat)
    ensures SameStatic(e.(fast := fast, length := length), e) && SameStatic(e, e)
  {
  }

  /** Attaching gives an entry a fast handler and its length, or leaves it alone. */
  lemma {:induction false} Attached(isa: Isa, e: Entry, c: Cpu)
    ensures Attach(isa, e, c) == e
            || exists fast: Option<Prepared>, length: nat :: Attach(isa, e, c) == e.(fast := fast, length := length)
  {
    hide ProbeSucceeds, ProbePayload, ProbeLength, Installable;
  }

  lemma {:induction false} AttachKinds(isa: Isa, e: Entry, c: Cpu)
    requires e.fast == None
    ensures SameStatic(Attach(isa, e, c), e)
  {
    hide Attach, SameStatic;
    Attached(isa, e, c);
    WithFast(e, None, 0);
    if Attach(isa, e, c) != e {
      var fast: Option<Prepared>, length: nat :| Attach(isa, e, c) == e.(fast := fast, length := length);
      WithFast(e, fast, length);
    }
  }

  lemma {:induction false} AttachAlu(isa: Isa, e: Entry, c: Cpu)
    requires e.fast == None && e.handler.Alu? && Installable(e)
    ensures var a := Attach(isa, e, c);
            var op := e.handler.op;
            && SameStatic(a, e)
            && (a.fast.Some? ==> ProbeSucceeds(op, c, e.bytes)
                                 && a.fast.value == AluPrepared(ProbePayload(op, c, e.bytes)))
            && (a.fast.None? ==> a == e && !ProbeSucceeds(op, c, e.bytes))
  {
    hide ProbeSucceeds, ProbePayload, ProbeLength;
  }

  /** Payloads of one instruction differ at most in an address the fast handler ignores. */
  lemma {:induction false} FastIgnoresAddress(m: Machine, p: Payload, q: Payload, longCode: bool, code: seq<byte>)
    requires PayloadOf(p, longCode, code) && PayloadOf(q, longCode, code) && p.op == q.op
    ensures Fast(m, p) == Fast(m, q)
  {
    hide *;
    UnfoldPayload(p, longCode, code);
    UnfoldPayload(q, longCode, code);
    SamePayload(p, q, longCode, code);
    var parsed := Parse(p.op, longCode, code);
    if MemoryForm(parsed.inst) {
      MemoryFast(m, p, parsed);
      MemoryFast(m, q, parsed);
    }
  }

  lemma {:induction false} SamePayload(p: Payload, q: Payload, longCode: bool, code: seq<byte>)
    requires PayloadOf(p, longCode, code) && PayloadOf(q, longCode, code) && p.op == q.op
    ensures !MemoryForm(Parse(p.op, longCode, code).inst) ==> p == q
  {
    hide Parse, MemoryForm;
  }

  /** Two runs of one handler that a step of the entry cannot tell apart: equal, or equal up to the rollback when
      the entry has one that brings everything back. */
  predicate SameOutcome(e: Entry, x: Machine, y: Machine) {
    SameAfterRollback(x, y) && (x == y || (!e.noFault && !e.partial))
  }

  lemma {:induction false} SameDispatch(isa: Isa, m: Machine, a: Entry, b: Entry)
    requires SameStatic(a, b) && a.inline == NotInline && !a.ud && !a.bp && !a.db
    requires var s := m.(cpu := WithOverride(m.cpu, a.segmentOverride));
             SameOutcome(a, RunHandler(isa, s, a), RunHandler(isa, s, b))
    ensures Dispatch(isa, m, a) == Dispatch(isa, m, b)
  {
    hide RunHandler, SameAfterRollback, Conclude, WithOverride, Pending;
    var s := m.(cpu := WithOverride(m.cpu, a.segmentOverride));
    var x, y := RunHandler(isa, s, a), RunHandler(isa, s, b);
    SameAdvance(x, y, s.cpu.scalar.rip, a.branch);
    if x != y {
      ConcludeSame(s.cpu, Advance(x, s.cpu.scalar.rip, a.branch), Advance(y, s.cpu.scalar.rip, a.branch), a);
    }
    SameConclude(s.cpu, Advance(y, s.cpu.scalar.rip, a.branch), a, b);
  }

  lemma {:induction false} SameConclude(saved: Cpu, ran: Machine, a: Entry, b: Entry)
    requires SameStatic(a, b)
    ensures Conclude(saved, ran, a, !a.noFault, StepOk) == Conclude(saved, ran, b, !b.noFault, StepOk)
  {
  }

  lemma {:induction false} SameAdvance(x: Machine, y: Machine, from: u64, branch: bool)
    requires SameAfterRollback(x, y)
    ensures SameAfterRollback(Advance(x, from, branch), Advance(y, from, branch))
    ensures x == y ==> Advance(x, from, branch) == Advance(y, from, branch)
  {
  }

  /** When two probes of the same bytes differ, fast and legacy handler still do the same in any state at
      that RIP and mode. */
  lemma {:induction false} FastOrLegacy(m: Machine, good: Cpu, bad: Cpu, op: AluOp, code: seq<byte>, segment: Override)
    requires ReadyToDecode(m.cpu) && ReadyToDecode(good) && ReadyToDecode(bad)
    requires SameMode(good, m.cpu) && SameMode(good, bad) && good.scalar.rip == bad.scalar.rip
    requires |code| <= 15 && ProbeSucceeds(op, good, code) && !ProbeSucceeds(op, bad, code)
    ensures var s := m.(cpu := WithOverride(m.cpu, segment));
            SameAfterRollback(Fast(s, ProbePayload(op, good, code)), Legacy(op, s, code))
    ensures MemoryForm(Parse(op, good.scalar.segments.cs.longMode, code).inst)
  {
    hide *;
    UnfoldReady(m.cpu);
    UnfoldReady(good);
    UnfoldMode(good, m.cpu);
    ProbeIsClean(op, good, code);
    var p := Parse(op, good.scalar.segments.cs.longMode, code);
    if !MemoryForm(p.inst) || RipRelative(p.inst) {
      ProbesAgree(op, good, bad, code);
    }
    var s := m.(cpu := WithOverride(m.cpu, segment));
    OverrideKeeps(m.cpu, segment);
    var payload := ProbePayload(op, good, code);
    UnfoldPayload(payload, good.scalar.segments.cs.longMode, code);
    NotRipNoCorner(s.cpu, payload, p);
    FastIsLegacy(s, payload, code);
  }

  lemma {:induction false} NotRipNoCorner(c: Cpu, payload: Payload, p: Parsed)
    requires payload.inst == p.inst.(memAddress := payload.inst.memAddress)
    ensures !RipRelative(p.inst) ==> !FirstCheckOnly(c, payload)
  {
    hide LinearAddress, Canonical, Is64BitCode;
    SameForm(payload.inst, p.inst);
  }

  lemma {:induction false} UnfoldReady(c: Cpu)
    requires ReadyToDecode(c)
    ensures !Pending(c)
  {
    hide Pending;
  }

  lemma {:induction false} UnfoldMode(a: Cpu, b: Cpu)
    requires SameMode(a, b)
    ensures a.scalar.segments.cs.longMode == b.scalar.segments.cs.longMode
    ensures SameMode(b, a)
  {
  }

  lemma {:induction false} OverrideKeeps(c: Cpu, segment: Override)
    ensures Pending(WithOverride(c, segment)) == Pending(c)
    ensures WithOverride(c, segment).scalar.segments == c.scalar.segments
    ensures WithOverride(c, segment).scalar.rip == c.scalar.rip
  {
  }

  lemma {:induction false} RunsOf(isa: Isa, m: Machine, e: Entry)
    ensures e.fast.Some? && e.fast.value.AluPrepared? ==> RunHandler(isa, m, e) == Fast(m, e.fast.value.payload)
    ensures e.fast.None? && e.handler.Alu? ==> RunHandler(isa, m, e) == Legacy(e.handler.op, m, e.bytes)
  {
    hide Fast, Legacy;
  }

  lemma {:induction false} SameAfterSym(a: Machine, b: Machine)
    requires SameAfterRollback(a, b)
    ensures SameAfterRollback(b, a)
  {
    hide Pending;
  }

  lemma {:induction false} NoFast(isa: Isa, mode: nat, code: seq<byte>)
    ensures StaticEntry(isa, mode, code).fast == None
    ensures StaticEntry(isa, mode, code).bytes in {code, []}
  {
    hide Classify, PrefixLength, OpcodeAt;
    var n := PrefixLength(mode, code, 0);
    if n < |code| {
      ClassifyKeepsBytes(isa, mode, code, n, OpcodeAt(code, n));
    }
  }

  /** What a probe captured in one state serves as well in any other at the same RIP and mode that agrees on what the
      decoder reads besides: the handlers of the entry decoded in a and of the entry decoded in b do the same to every
      machine there. */
  ghost predicate Replays(isa: Isa, mode: nat, code: seq<byte>) {
    var e := StaticEntry(isa, mode, code);
    forall a: Cpu, b: Cpu, m: Machine ::
      ReplaySite(a, b, m, mode) && Latent(code, a) == Latent(code, b) ==>
        var s := m.(cpu := WithOverride(m.cpu, e.segmentOverride));
        SameOutcome(e, RunHandler(isa, s, Attach(isa, e, a)), RunHandler(isa, s, Attach(isa, e, b)))
  }

  /** Two states to decode in and one to run in, at one RIP and mode. */
  predicate ReplaySite(a: Cpu, b: Cpu, m: Machine, mode: nat) {
    && ReadyToDecode(a) && ReadyToDecode(b) && ReadyToDecode(m.cpu)
    && ModeBits(a) == mode && ModeBits(b) == mode && ModeBits(m.cpu) == mode
    && a.scalar.rip == m.cpu.scalar.rip && b.scalar.rip == m.cpu.scalar.rip
  }

  /** The contract of the fast handlers left opaque. */
  ghost predicate OthersReplay(isa: Isa) {
    forall mode: nat, code: seq<byte> ::
      |code| <= 15 && StaticEntry(isa, mode, code).handler.Opaque? && isa.special(code) == None ==>
          Replays(isa, mode, code)
  }

  lemma {:induction false} UnfoldOthers(isa: Isa, mode: nat, code: seq<byte>)
    requires OthersReplay(isa) && |code| <= 15 && StaticEntry(isa, mode, code).handler.Opaque?
             && isa.special(code) == None
    ensures Replays(isa, mode, code)
  {
    hide StaticEntry, Replays;
  }

  lemma {:induction false} UnfoldReplays(isa: Isa, mode: nat, code: seq<byte>, a: Cpu, b: Cpu, m: Machine)
    requires Replays(isa, mode, code) && ReplaySite(a, b, m, mode) && Latent(code, a) == Latent(code, b)
    ensures var e := StaticEntry(isa, mode, code);
            var s := m.(cpu := WithOverride(m.cpu, e.segmentOverride));
            SameOutcome(e, RunHandler(isa, s, Attach(isa, e, a)), RunHandler(isa, s, Attach(isa, e, b)))
  {
    hide StaticEntry, SameOutcome, RunHandler, Attach, WithOverride, ReplaySite, Latent;
  }

  lemma {:induction false} UnfoldSite(a: Cpu, b: Cpu, m: Machine, mode: nat)
    requires ReplaySite(a, b, m, mode)
    ensures ReadyToDecode(a) && ReadyToDecode(b) && ReadyToDecode(m.cpu)
            && ModeBits(a) == ModeBits(b) == ModeBits(m.cpu) == mode
    ensures a.scalar.rip == b.scalar.rip == m.cpu.scalar.rip
    ensures SameMode(a, b) && SameMode(b, a) && SameMode(a, m.cpu) && SameMode(b, m.cpu)
  {
    hide ReadyToDecode, ModeBits;
    ModeBitsDecide(a, b);
    ModeBitsDecide(a, m.cpu);
    ModeBitsDecide(b, m.cpu);
  }

  /** The four opened families meet the contract. */
  lemma {:induction false} AluReplays(isa: Isa, mode: nat, code: seq<byte>)
    requires code != [] && |code| <= 15 && StaticEntry(isa, mode, code).handler.Alu?
    ensures Replays(isa, mode, code)
  {
    hide SameOutcome, RunHandler, Attach, WithOverride, ReplaySite, StaticEntry, Latent;
    forall a: Cpu, b: Cpu, m: Machine | ReplaySite(a, b, m, mode)
      ensures var e := StaticEntry(isa, mode, code);
              var s := m.(cpu := WithOverride(m.cpu, e.segmentOverride));
              SameOutcome(e, RunHandler(isa, s, Attach(isa, e, a)), RunHandler(isa, s, Attach(isa, e, b)))
    {
      AluReplay(isa, m, a, b, mode, code);
    }
  }

  lemma {:induction false} UnfoldOutcome(e: Entry, x: Machine, y: Machine)
    ensures SameOutcome(e, x, y) <==> SameAfterRollback(x, y) && (x == y || (!e.noFault && !e.partial))
    ensures SameOutcome(e, x, y) ==> SameOutcome(e, y, x)
    ensures x == y ==> SameOutcome(e, x, y)
  {
    hide Pending;
  }

  lemma {:induction false} AluReplay(isa: Isa, m: Machine, c: Cpu, d: Cpu, mode: nat, code: seq<byte>)
    requires ReplaySite(c, d, m, mode) && code != [] && |code| <= 15 && StaticEntry(isa, mode, code).handler.Alu?
    ensures var e := StaticEntry(isa, mode, code);
            var s := m.(cpu := WithOverride(m.cpu, e.segmentOverride));
            SameOutcome(e, RunHandler(isa, s, Attach(isa, e, c)), RunHandler(isa, s, Attach(isa, e, d)))
  {
    hide *;
    UnfoldSite(c, d, m, mode);
    AluEntry(isa, mode, code);
    var e := StaticEntry(isa, mode, code);
    CanInstall(e);
    AttachAlu(isa, e, c);
    AttachAlu(isa, e, d);
    var op := e.handler.op;
    var a, b := Attach(isa, e, c), Attach(isa, e, d);
    UnfoldReady(c);
    UnfoldReady(d);
    UnfoldMode(c, d);
    StaticFields(a, e);
    StaticFields(b, e);
    var s := m.(cpu := WithOverride(m.cpu, e.segmentOverride));
    RunsOf(isa, s, a);
    RunsOf(isa, s, b);
    UnfoldOutcome(e, RunHandler(isa, s, a), RunHandler(isa, s, b));
    UnfoldOutcome(e, RunHandler(isa, s, b), RunHandler(isa, s, a));
    if a.fast.Some? && b.fast.Some? {
      ProbeIsClean(op, c, code);
      ProbeIsClean(op, d, code);
      FastIgnoresAddress(s, a.fast.value.payload, b.fast.value.payload, c.scalar.segments.cs.longMode, code);
    } else if a.fast.Some? {
      ProbeIsClean(op, c, code);
      FastOrLegacy(m, c, d, op, code, e.segmentOverride);
      if e.noFault {
        NoFaultMeansRegisters(isa, mode, c.scalar.segments.cs.longMode, code);
      }
    } else if b.fast.Some? {
      ProbeIsClean(op, d, code);
      FastOrLegacy(m, d, c, op, code, e.segmentOverride);
      if e.noFault {
        NoFaultMeansRegisters(isa, mode, d.scalar.segments.cs.longMode, code);
      }
    }
  }

  lemma {:induction false} CanInstall(e: Entry)
    requires !e.ud && e.bytes != []
    ensures Installable(e)
  {
  }

  /** An entry decoded in one state and replayed in another, at the same RIP, mode and bytes, steps exactly like an
      entry decoded on the spot, whatever registers, flags and memory have become, as long as the two states agree on
      what the decoder of these bytes reads besides. */
  lemma {:induction false} ReplayIsFreshDecode(isa: Isa, m: Machine, c: Cpu, code: seq<byte>)
    requires OthersReplay(isa)
    requires ReadyToDecode(m.cpu) && ReadyToDecode(c) && SameMode(c, m.cpu) && c.scalar.rip == m.cpu.scalar.rip
    requires code != [] && |code| <= 15 && Latent(code, c) == Latent(code, m.cpu)
    ensures Dispatch(isa, m, DecodeAt(isa, c, code)) == Dispatch(isa, m, DecodeAt(isa, m.cpu, code))
  {
    hide *;
    ModeBitsDecide(c, m.cpu);
    UnfoldDecodeAt(isa, c, code);
    UnfoldDecodeAt(isa, m.cpu, code);
    if isa.special(code) == None {
      var mode := ModeBits(c);
      var e := StaticEntry(isa, mode, code);
      var a, b := Attach(isa, e, c), Attach(isa, e, m.cpu);
      NoFast(isa, mode, code);
      AttachKinds(isa, e, c);
      AttachKinds(isa, e, m.cpu);
      StaticFields(a, e);
      StaticFields(b, e);
      if e.handler.Alu? || e.handler.Opaque? {
        SiteHere(c, m, mode);
        if e.handler.Alu? {
          AluReplays(isa, mode, code);
        } else {
          UnfoldOthers(isa, mode, code);
        }
        UnfoldReplays(isa, mode, code, c, m.cpu, m);
        InlineFree(isa, mode, code);
        StaticOutcome(a, e, m, isa, b);
        SameDispatch(isa, m, a, b);
      } else {
        NothingAttached(isa, e, c);
        NothingAttached(isa, e, m.cpu);
      }
    }
  }

  lemma {:induction false} SiteHere(c: Cpu, m: Machine, mode: nat)
    requires ReadyToDecode(m.cpu) && ReadyToDecode(c) && c.scalar.rip == m.cpu.scalar.rip
    requires ModeBits(c) == mode && ModeBits(m.cpu) == mode
    ensures ReplaySite(c, m.cpu, m, mode)
  {
    hide ReadyToDecode, ModeBits;
  }

  lemma {:induction false} NothingAttached(isa: Isa, e: Entry, c: Cpu)
    requires e.handler == NoHandler
    ensures Attach(isa, e, c) == e
  {
  }

  lemma {:induction false} StaticOutcome(a: Entry, e: Entry, m: Machine, isa: Isa, b: Entry)
    requires SameStatic(a, e) && SameStatic(b, e)
    requires var s := m.(cpu := WithOverride(m.cpu, e.segmentOverride));
             SameOutcome(e, RunHandler(isa, s, a), RunHandler(isa, s, b))
    ensures var s := m.(cpu := WithOverride(m.cpu, a.segmentOverride));
            SameOutcome(a, RunHandler(isa, s, a), RunHandler(isa, s, b))
  {
    hide RunHandler, WithOverride, SameAfterRollback;
  }

  /** An entry with a handler is neither inline nor one of the quick exceptions. */
  lemma {:induction false} InlineFree(isa: Isa, mode: nat, code: seq<byte>)
    requires StaticEntry(isa, mode, code).handler != NoHandler && isa.special(code) == None
    ensures var e := StaticEntry(isa, mode, code);
            e.inline == NotInline && !e.ud && !e.bp && !e.db
  {
    hide Classify, PrefixLength, OpcodeAt;
    var n := PrefixLength(mode, code, 0);
    if n < |code| {
      ClassifiedInline(isa, mode, code, n, OpcodeAt(code, n));
    }
  }

  lemma {:induction false} ClassifiedInline(isa: Isa, mode: nat, code: seq<byte>, n: nat, opc: nat)
    requires n < |code| && Classify(isa, mode, code, n, opc).handler != NoHandler
    ensures var e := Classify(isa, mode, code, n, opc);
            e.inline == NotInline && !e.ud && !e.bp && !e.db
  {
    hide ClassifyNoFault, EscapeOwnedUd, RetOperandSize, LittleEndian, Branches, SignedByte, SignedDword, LongCodeBit,
      Ladder, StartEntry;
    BlankStart(isa, mode, code, n, opc);
  }

  lemma {:induction false} UnfoldDecodeAt(isa: Isa, c: Cpu, code: seq<byte>)
    requires code != []
    ensures DecodeAt(isa, c, code)
            == if isa.special(code).Some? then StaticEntry(isa, ModeBits(c), code)
               else Attach(isa, StaticEntry(isa, ModeBits(c), code), c)
  {
    hide Attach, StaticEntry, ModeBits;
  }

  lemma {:induction false} StaticFields(a: Entry, e: Entry)
    requires SameStatic(a, e)
    ensures a.handler == e.handler && a.bytes == e.bytes && a.inline == e.inline && a.partial == e.partial
    ensures a.noFault == e.noFault && a.segmentOverride == e.segmentOverride
    ensures a.ud == e.ud && a.bp == e.bp && a.db == e.db && a.branch == e.branch
    ensures forall b :: SameStatic(b, e) ==> SameStatic(a, b)
  {
  }
}
