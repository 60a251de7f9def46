/** Where RIP stands after a step: behind the bytes of the instruction. */
module StepLengths {
  import opened Bits
  import opened MemoryManagement
  import opened CpuState
  import opened Flags
  import opened Addressing
  import opened AluDecode
  import opened AluExecute
  import opened Decoder
  import opened Executor
  import opened Replay
  import opened LinearMemory
  import opened Fetch
  import opened InstCache
  import opened Encodings

  /** Whatever handler runs, a step that ends well moves RIP by the instruction size the handler left, unless the
      entry is a branch; then RIP is where its handler put it. */
  lemma {:induction false} StepMovesBySize(isa: Isa, m: Machine, e: Entry)
    requires e.inline == NotInline && Dispatch(isa, m, e).1 == StepOk
    ensures var after := Dispatch(isa, m, e).0.cpu.scalar;
            var ran := RunHandler(isa, m.(cpu := WithOverride(m.cpu, e.segmentOverride)), e).cpu.scalar;
            && (!e.branch ==> after.rip == (m.cpu.scalar.rip + after.lastInstSize) % 0x1_0000_0000_0000_0000)
            && (e.branch ==> after.rip == ran.rip)
            && after.lastInstSize == ran.lastInstSize && after.regs == ran.regs && after.rflags == ran.rflags
  {
    hide RunHandler;
  }

  // The opened families.

  lemma {:induction false} LegacySized(op: AluOp, m: Machine, code: seq<byte>)
    requires !Pending(m.cpu) && !Pending(Legacy(op, m, code).cpu)
    ensures var p := Parse(op, m.cpu.scalar.segments.cs.longMode, code);
            && Clean(p) && Legacy(op, m, code).cpu.scalar.lastInstSize == p.length
  {
    hide Parse, Effects, Execute, Decode, DecodedInst, Pending;
    var p := Parse(op, m.cpu.scalar.segments.cs.longMode, code);
    IncompleteFaults(op, m.cpu.scalar.segments.cs.longMode, code);
    UnfoldLegacy(op, m, code);
    UnfoldDecode(op, m.cpu, code);
    StampPending(m.cpu, p.prefixes);
    if !Pending(Decode(op, m.cpu, code)) {
      QuietEffects(Stamp(m.cpu, p.prefixes), p);
      ExecuteFrame(op, m.(cpu := Decode(op, m.cpu, code)), DecodedInst(op, m.cpu, code));
      SameSize(Decode(op, m.cpu, code), Legacy(op, m, code).cpu);
    }
  }

  lemma {:induction false} SameSize(before: Cpu, after: Cpu)
    requires Frame(before, after)
    ensures after.scalar.lastInstSize == before.scalar.lastInstSize && after.scalar.rip == before.scalar.rip
  {
  }

  lemma {:induction false} FastSized(m: Machine, payload: Payload)
    ensures Fast(m, payload).cpu.scalar.lastInstSize == payload.length
  {
    hide Execute, ValidateOperand, LinearAddress, MemoryForm;
    var c := Stamped(m.cpu, payload);
    var live := payload.inst.(memAddress := LinearAddress(c, payload.inst, payload.length));
    ValidateSized(c, payload.inst, payload.length);
    ExecuteFrame(payload.op, m.(cpu := c), payload.inst);
    ExecuteFrame(payload.op, m.(cpu := ValidateOperand(c, payload.inst, payload.length)), live);
  }

  lemma {:induction false} ValidateSized(c: Cpu, inst: Inst, k: nat)
    ensures ValidateOperand(c, inst, k).scalar == c.scalar
  {
    hide LinearAddress, EffectiveSegment, Canonical;
  }

  lemma {:induction false} EntryFields(isa: Isa, mode: nat, code: seq<byte>)
    requires StaticEntry(isa, mode, code).handler.Alu?
    ensures var e, n := StaticEntry(isa, mode, code), PrefixLength(mode, code, 0);
            && n < |code| && e.branch == Branches(code, n, OpcodeAt(code, n))
            && e.segmentOverride == PeekSegment(code, n)
  {
    hide PrefixLength, ClassifyNoFault, OpcodeAt, PeekSegment, EscapeCandidate, RetOperandSize, LittleEndian,
      BranchOpcode, SignedByte, SignedDword, Branches, AluRoute, EscapeOwnedUd;
  }

  lemma {:induction false} RoutedIsNoBranch(code: seq<byte>, n: nat, reg: nat)
    requires n < |code| && code[n] != 0x0F
    requires AluRoute(OpcodeAt(code, n) % 0x100, reg).Some?
    ensures !Branches(code, n, OpcodeAt(code, n))
  {
  }

  /** An entry of the opened families whose bytes decode is no branch. */
  lemma {:induction false} AluIsNoBranch(isa: Isa, mode: nat, longCode: bool, code: seq<byte>)
    requires var e := StaticEntry(isa, mode, code); e.handler.Alu? && Clean(Parse(e.handler.op, longCode, code))
    ensures !StaticEntry(isa, mode, code).branch
  {
    hide *;
    var op, n := StaticEntry(isa, mode, code).handler.op, PrefixLength(mode, code, 0);
    AluEntry(isa, mode, code);
    EntryFields(isa, mode, code);
    var low := OpcodeAt(code, n) % 0x100;
    var reg := if low in {0x80, 0x81, 0x83} then PeekReg(code, n + 1) else 0xFF;
    RouteIsNoRex(code, n, reg);
    ScanStopsWherePeekStops(mode, code, 0, NO_PREFIXES, false);
    ParsedOpcode(op, longCode, code, n);
    CleanHasNoEarly(Parse(op, longCode, code));
    RoutedIsNoBranch(code, n, reg);
  }

  /** Decoding at one state and stepping at another of the same mode: the handler leaves the length of the decode. */
  lemma {:induction false} HandlerSized(isa: Isa, m: Machine, c: Cpu, code: seq<byte>)
    requires ReadyToDecode(c) && ReadyToDecode(m.cpu) && SameMode(c, m.cpu) && isa.special(code) == None
    requires DecodeAt(isa, c, code).handler.Alu?
    requires var e := DecodeAt(isa, c, code);
             !Pending(RunHandler(isa, m.(cpu := WithOverride(m.cpu, e.segmentOverride)), e).cpu)
    ensures var e := DecodeAt(isa, c, code);
            var p := Parse(e.handler.op, m.cpu.scalar.segments.cs.longMode, code);
            var ran := RunHandler(isa, m.(cpu := WithOverride(m.cpu, e.segmentOverride)), e).cpu.scalar;
            && Clean(p) && ran.lastInstSize == p.length
            && e.inline == NotInline && !e.branch && !e.ud && !e.bp && !e.db
  {
    hide *;
    var e := StaticEntry(isa, ModeBits(c), code);
    var a := DecodeAt(isa, c, code);
    DecodedAlu(isa, c, code);
    AluEntry(isa, ModeBits(c), code);
    CanInstall(e);
    AttachAlu(isa, e, c);
    StaticFields(a, e);
    UnfoldReady(c);
    UnfoldReady(m.cpu);
    UnfoldMode(c, m.cpu);
    var s := m.(cpu := WithOverride(m.cpu, a.segmentOverride));
    OverrideKeeps(m.cpu, a.segmentOverride);
    RunsOf(isa, s, a);
    var op := e.handler.op;
    if a.fast.Some? {
      ProbeIsClean(op, c, code);
      FastSized(s, a.fast.value.payload);
      UnfoldPayload(a.fast.value.payload, c.scalar.segments.cs.longMode, code);
    } else {
      LegacySized(op, s, code);
    }
    AluIsNoBranch(isa, ModeBits(c), m.cpu.scalar.segments.cs.longMode, code);
  }

  lemma {:induction false} DecodedAlu(isa: Isa, c: Cpu, code: seq<byte>)
    requires isa.special(code) == None && DecodeAt(isa, c, code).handler.Alu?
    ensures var e := StaticEntry(isa, ModeBits(c), code);
            && DecodeAt(isa, c, code) == Attach(isa, e, c) && e.handler == DecodeAt(isa, c, code).handler && code != []
            && e.fast == None
  {
    hide StaticEntry, ProbeSucceeds, ProbePayload, ProbeLength, Installable, ModeBits;
    if code != [] {
      NoFast(isa, ModeBits(c), code);
      AttachKinds(isa, StaticEntry(isa, ModeBits(c), code), c);
    }
  }

  /** A step of ADD, SUB, AND or CMP that ends well, with the fast handler or without, decoded where it runs or in
      another state of that mode: its bytes decode cleanly, and RIP moves behind them. */
  lemma {:induction false} StepMovesByLength(isa: Isa, m: Machine, c: Cpu, code: seq<byte>)
    requires ReadyToDecode(c) && ReadyToDecode(m.cpu) && SameMode(c, m.cpu) && isa.special(code) == None
    requires DecodeAt(isa, c, code).handler.Alu? && Dispatch(isa, m, DecodeAt(isa, c, code)).1 == StepOk
    ensures var e := DecodeAt(isa, c, code);
            var p := Parse(e.handler.op, m.cpu.scalar.segments.cs.longMode, code);
            var after := Dispatch(isa, m, e).0.cpu.scalar;
            && Clean(p) && after.rip == (m.cpu.scalar.rip + p.length) % 0x1_0000_0000_0000_0000
            && after.lastInstSize == p.length
  {
    hide Parse, DecodeAt, Dispatch, RunHandler, WithOverride, Pending, ReadyToDecode, SameMode, Clean;
    var e := DecodeAt(isa, c, code);
    NotInlineAlu(isa, c, code);
    OkIsQuiet(isa, m, e);
    HandlerSized(isa, m, c, code);
    StepMovesBySize(isa, m, e);
  }

  lemma {:induction false} NotInlineAlu(isa: Isa, c: Cpu, code: seq<byte>)
    requires isa.special(code) == None && DecodeAt(isa, c, code).handler.Alu?
    ensures DecodeAt(isa, c, code).inline == NotInline
  {
    hide *;
    var e := StaticEntry(isa, ModeBits(c), code);
    DecodedAlu(isa, c, code);
    AluEntry(isa, ModeBits(c), code);
    CanInstall(e);
    AttachAlu(isa, e, c);
    StaticFields(DecodeAt(isa, c, code), e);
  }

  lemma {:induction false} OkIsQuiet(isa: Isa, m: Machine, e: Entry)
    requires e.inline == NotInline && Dispatch(isa, m, e).1 == StepOk
    ensures !Pending(RunHandler(isa, m.(cpu := WithOverride(m.cpu, e.segmentOverride)), e).cpu)
  {
    hide RunHandler;
  }

  /** The same of cpu_step on a miss: the bytes it fetches or is given decide how far it goes. */
  lemma {:induction false} FetchedStepMoves(isa: Isa, m: Machine, prefetched: seq<byte>, k: Machine, code: seq<byte>,
      op: AluOp)
    requires k == AfterFetch(Keyed(m), prefetched) && code == CodeFor(Keyed(m), prefetched)
    requires ReadyToDecode(m.cpu) && ReadyToDecode(k.cpu) && isa.special(code) == None
    requires DecodeAt(isa, k.cpu, code).handler == Alu(op) && Step(isa, m, [], prefetched).code == StepOk
    ensures var longCode, n := m.cpu.scalar.segments.cs.longMode, PrefixRun(code, 0);
            var p := Parse(op, longCode, code);
            && Clean(p) && n < |code| && p.length == n + InstructionBytes(code, n, longCode, p.prefixes)
            && Step(isa, m, [], prefetched).machine.cpu.scalar.rip
               == (m.cpu.scalar.rip + p.length) % 0x1_0000_0000_0000_0000
  {
    hide *;
    UnfoldReady(m.cpu);
    MissRuns(isa, m, prefetched);
    SameModeSelf(k.cpu);
    StepMovesByLength(isa, k, k.cpu, code);
    LengthIsBytes(op, k.cpu.scalar.segments.cs.longMode, code);
  }

  lemma {:induction false} SameModeSelf(c: Cpu)
    ensures SameMode(c, c)
  {
  }

  lemma {:induction false} MissRuns(isa: Isa, m: Machine, prefetched: seq<byte>)
    requires !Pending(m.cpu) && isa.special(CodeFor(Keyed(m), prefetched)) == None
    requires DecodeAt(isa, AfterFetch(Keyed(m), prefetched).cpu, CodeFor(Keyed(m), prefetched)).handler.Alu?
    ensures var k, code := AfterFetch(Keyed(m), prefetched), CodeFor(Keyed(m), prefetched);
            var out := Step(isa, m, [], prefetched);
            && (out.machine, out.code) == Dispatch(isa, k, DecodeAt(isa, k.cpu, code))
            && k.cpu.scalar.rip == m.cpu.scalar.rip && k.cpu.scalar.segments == m.cpu.scalar.segments
  {
    hide DecodeAt, Dispatch, CodeFor, FetchedBytes, Index, FirstFault, StaticEntry, AluRoute;
    var k, code := AfterFetch(Keyed(m), prefetched), CodeFor(Keyed(m), prefetched);
    DecodedBytes(isa, k.cpu, code);
    NoSlots(m.mem.codeVersion, m.cpu.scalar.rip, Keyed(m).cpu.modeKeyBits);
  }

  lemma {:induction false} DecodedBytes(isa: Isa, c: Cpu, code: seq<byte>)
    requires isa.special(code) == None && DecodeAt(isa, c, code).handler.Alu?
    ensures DecodeAt(isa, c, code).bytes != []
  {
    hide *;
    var e := StaticEntry(isa, ModeBits(c), code);
    DecodedAlu(isa, c, code);
    AluEntry(isa, ModeBits(c), code);
    CanInstall(e);
    AttachAlu(isa, e, c);
    StaticFields(DecodeAt(isa, c, code), e);
  }
}
