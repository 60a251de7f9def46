/** Concrete machines on which the engine departs from what its cache promises: the hypotheses of the theorems that
    say so can be met. */
module Witnesses {
  import opened Bits
  import opened MemoryManagement
  import opened CpuState
  import opened LinearMemory
  import opened Fetch
  import opened Decoder
  import Flags
  import opened Executor
  import opened Replay
  import opened InstCache
  import opened Transparency
  import opened Registry
  import opened Escapes
  import opened RunLoop
  import opened LoopRefinement
  import opened Addressing
  import opened AluDecode
  import opened AluExecute
  import opened PreciseSteps
  import opened OpenedEntries
  import opened Xadd

  /** The instruction set of the four opened families and the forms decoded inline. */
  function Plain(): Isa {
    Isa(_ => None, (_, _) => None, (_, _) => false, (_, _, m) => m, (_, _, _) => None, (_, _, m) => m)
  }

  lemma {:induction false} PlainIsWellBehaved()
    ensures WellBehaved(Plain()) && PlainJumps(Plain()) && PlainBreakpoints(Plain())
  {
    hide StaticEntry, Replays;
    forall mode: nat, code: seq<byte> ensures !StaticEntry(Plain(), mode, code).handler.Opaque? {
      PlainStatic(mode, code);
    }
  }

  lemma {:induction false} PlainStatic(mode: nat, code: seq<byte>)
    ensures !StaticEntry(Plain(), mode, code).handler.Opaque?
  {
    hide ClassifyNoFault, EscapeOwnedUd, RetOperandSize, LittleEndian, Branches, SignedByte, SignedDword, LongCodeBit,
      AluRoute, PrefixLength, OpcodeAt, PeekSegment, BranchOpcode, EscapeCandidate;
  }

  const CODE := Segment(0x08, 0, 0xFFFF_FFFF, 0x0B, 0, true, true, false, true)
  const DATA := Segment(0x10, 0, 0xFFFF_FFFF, 0x03, 0, true, true, true, false)

  /** A context in 64-bit code with nothing in its registers. */
  function Idle(rip: u64, cpl: nat): Cpu {
    var noRegs: Registers := seq(16, _ => 0);
    Cpu(Scalar(noRegs, noRegs, true, Segments(DATA, CODE, DATA, DATA, DATA, DATA), rip, 0, cpl,
               X87(0x037F, 0, 0xFFFF, 0, 0, 0, false), CpuState.Tables.Tables(0, 0, 0, 0), NO_PREFIXES, NoOverride, 0),
        Vector([], [], [], [], [], 0x1F80), Exception(NoException, 0), 0, false)
  }

  /** One page at address zero, of which two bytes are not zero. */
  function OnePage(first: byte, other: byte, user: bool): Mem {
    Mem(map[0 := Page(0, true, true, true, user)], [], false, map[0 := first, 0x100 := other], 1)
  }

  lemma {:induction false} IdleRests(rip: u64, cpl: nat)
    ensures Resting(Idle(rip, cpl)) && !Pending(Idle(rip, cpl)) && LongCodeBit(ModeBits(Idle(rip, cpl)))
    ensures ModeBits(Idle(rip, cpl)) % 2 == 1 && ReadyToDecode(Idle(rip, cpl))
  {
  }

  lemma {:induction false} PageBytes(first: byte, other: byte, user: bool)
    ensures var mem := OnePage(first, other, user);
            && ByteAt(mem, 0) == first && ByteAt(mem, 0x100) == other && Visible(mem, 0) && Visible(mem, 0x100)
  {
    var mem := OnePage(first, other, user);
    forall a: u64 | a < PAGE ensures CodeByte(mem, a) != None {
    }
  }

  /** In user mode the page can be fetched exactly when it is a user page. */
  lemma {:induction false} PageFetch(first: byte, other: byte, user: bool, rip: u64, cpl: nat, start: u64)
    requires start in {0, 0x100}
    ensures WindowFetchable(Machine(Idle(rip, cpl), OnePage(first, other, user)), start) <==> (cpl != 3 || user)
  {
    var m := Machine(Idle(rip, cpl), OnePage(first, other, user));
    forall i: nat | i < 15 ensures ByteFault(m, start, i, Exec) == NoFault <==> (cpl != 3 || user) {
    }
    FirstFaultIs(m, start, 15, Exec, if cpl != 3 || user then 15 else 0);
  }

  function FreshSlots(): seq<Slot> {
    seq(0x8000, _ => EMPTY_SLOT)
  }

  lemma {:induction false} FreshMisses(m: Machine)
    requires Resting(m.cpu) && !Pending(m.cpu)
    ensures forall rip: u64 :: Find(FreshSlots(), m.mem.codeVersion, rip, Keyed(m).cpu.modeKeyBits) == None
  {
    hide Index;
    KeyedReady(m);
  }

  /** The slots after the instruction at address zero was run once. */
  function Warmed(m: Machine): seq<Slot> {
    Fill(FreshSlots(), m.mem.codeVersion, m.cpu.scalar.rip, ModeBits(m.cpu),
         DecodeAt(Plain(), Keyed(m).cpu, Window(m.mem, m.cpu.scalar.rip)))
  }

  lemma {:induction false} WarmedIsSound(m: Machine)
    requires Resting(m.cpu) && !Pending(m.cpu) && Visible(m.mem, m.cpu.scalar.rip)
    requires DecodeAt(Plain(), Keyed(m).cpu, Window(m.mem, m.cpu.scalar.rip)).bytes != []
    ensures Sound(Plain(), m.mem, {Keyed(m).cpu}, Warmed(m))
    ensures Find(Warmed(m), m.mem.codeVersion, m.cpu.scalar.rip, ModeBits(m.cpu))
            == Some(DecodeAt(Plain(), Keyed(m).cpu, Window(m.mem, m.cpu.scalar.rip)))
  {
    hide DecodeAt, Visible, Window, Find, Fill, Resting, Pending, Keyed, ModeBits, Sound, ReadyToDecode;
    KeyedReady(m);
    EmptySound(Plain(), m.mem, 0x8000);
    var e := DecodeAt(Plain(), Keyed(m).cpu, Window(m.mem, m.cpu.scalar.rip));
    SoundMore(Plain(), m.mem, {}, {Keyed(m).cpu}, FreshSlots());
    FillSound(Plain(), Keyed(m), {Keyed(m).cpu}, FreshSlots(), e);
    FilledHit(FreshSlots(), m.mem.codeVersion, m.cpu.scalar.rip, ModeBits(m.cpu), e);
  }

  lemma {:induction false} SettledHere(m: Machine)
    ensures Settled(m, {Keyed(m).cpu})
  {
    hide Latent, Window, Keyed;
    KeyedSettled(m, {});
  }

  /** User code that jumps into a supervisor page. */
  function Intruder(): Machine {
    Machine(Idle(0, 3), OnePage(0x70, 0, false))
  }

  /** Its step meets the conditions of HitTransparentIff, runs the supervisor's instruction to the end, and would
      fault without the cache. */
  lemma {:induction false} HitOutlivesPrivilege()
    ensures var m, slots := Intruder(), Warmed(Intruder());
            && WellBehaved(Plain()) && Resting(m.cpu) && !Pending(m.cpu) 
            && Sound(Plain(), m.mem, {Keyed(m).cpu}, slots) && Settled(m, {Keyed(m).cpu})
            && Find(slots, m.mem.codeVersion, m.cpu.scalar.rip, ModeBits(m.cpu)).Some?
            && Step(Plain(), m, slots, []).code == StepOk && !WindowFetchable(m, m.cpu.scalar.rip)
            && Step(Plain(), m, [], []).code == StepException
  {
    hide *;
    var m := Intruder();
    UnfoldIntruder();
    PlainIsWellBehaved();
    IdleRests(0, 3);
    PageBytes(0x70, 0, false);
    PageFetch(0x70, 0, false, 0, 3, 0);
    KeyedReady(m);
    WindowHead(m.mem, 0);
    var e := DecodeAt(Plain(), Keyed(m).cpu, Window(m.mem, 0));
    JumpEntry(Plain(), Keyed(m).cpu, Window(m.mem, 0));
    WarmedIsSound(m);
    SettledHere(m);
    UnfoldStep(Plain(), m, Warmed(m), []);
    JumpStays(Keyed(m), e);
    BehavedReplays(Plain());
    UnfetchableStep(Plain(), m);
  }

  lemma {:induction false} UnfoldIntruder()
    ensures Intruder() == Machine(Idle(0, 3), OnePage(0x70, 0, false)) && Intruder().cpu.scalar.rip == 0
    ensures Intruder().cpu.scalar.rflags == 0
  {
  }

  lemma {:induction false} JumpStays(k: Machine, e: Entry)
    requires !Pending(k.cpu) && k.cpu.scalar.rip == 0 && k.cpu.scalar.rflags == 0
    requires e.bytes != [] && !e.ud && !e.bp && !e.db && e.inline == JccShort && e.condition == 0
    ensures RunDecoded(Plain(), k, e).1 == StepOk
  {
    hide Flags.EvalJcc, Canonical, Wrap;
    NotTaken(e.displacement);
  }

  lemma {:induction false} NotTaken(displacement: int)
    ensures !Flags.EvalJcc(0, 0) && Canonical(2) && Wrap(2) == 2
  {
  }

  /** A machine whose RIP a hook has moved from zero to 0x100. */
  function Moved(): Machine {
    Machine(Idle(0x100, 0), OnePage(0x70, 0xCC, true))
  }

  lemma {:induction false} UnfoldMovedMachine()
    ensures Moved() == Machine(Idle(0x100, 0), OnePage(0x70, 0xCC, true)) && Moved().cpu.scalar.rip == 0x100
  {
  }

  lemma {:induction false} JumpIsNoEscape(c: Cpu, code: seq<byte>)
    requires PlainJumps(Plain()) && |code| == 15 && code[0] == 0x70 && LongCodeBit(ModeBits(c))
    ensures ClassifyEscape(ModeBits(c), code) == NoEscape
  {
    hide *;
    JumpEntry(Plain(), c, code);
    MarkedIsNoEscape(Plain(), c, code);
  }

  lemma {:induction false} NoShortCut(m: Machine, address: u64)
    requires Find(FreshSlots(), m.mem.codeVersion, address, m.cpu.modeKeyBits) == None
    ensures ShortCut(FreshSlots(), m, address) == None
  {
    hide Find;
  }

  lemma {:induction false} MovedMissHolds()
    ensures MovedMiss(Plain(), Moved(), FreshSlots(), 0)
  {
    hide WindowFetchable, ClassifyEscape, ShortCut, Find, DecodeAt, Window, Keyed, OnePage, Idle, ByteAt, Visible,
      WellBehaved, PlainBreakpoints, PlainJumps, ModeBits, LongCodeBit, Accessible, ReadyToDecode, ModeKeyCoherent;
    var m := Moved();
    IdleRests(0x100, 0);
    PlainIsWellBehaved();
    PageBytes(0x70, 0xCC, true);
    PageFetch(0x70, 0xCC, true, 0x100, 0, 0);
    KeyedReady(m);
    WindowHead(m.mem, 0);
    JumpEntry(Plain(), Keyed(m).cpu, Window(m.mem, 0));
    JumpIsNoEscape(m.cpu, Window(m.mem, 0));
    FreshMisses(m);
    NoShortCut(Keyed(m), 0);
  }

  /** It meets the conditions of MovedRipPoisonsCache, with different bytes at the two addresses, and the next
      instruction shows it: no exception or #GP with the cache, #BP without. */
  lemma {:induction false} MovedRipIsSeen(host: Host, escapes: seq<Escape>)
    ensures var m, p := Moved(), Scene(Moved(), [], false);
            var after := Core(Plain(), host, escapes, p, FreshSlots(), 0).slots;
            && MovedMiss(Plain(), m, FreshSlots(), 0) && Sound(Plain(), m.mem, {}, FreshSlots())
            && Visible(m.mem, m.cpu.scalar.rip) && Window(m.mem, 0) != Window(m.mem, m.cpu.scalar.rip)
            && !Sound(Plain(), m.mem, Visited(m, {}), after)
            && Step(Plain(), m, after, []).machine.cpu.exception.code in {NoException, GP}
            && Step(Plain(), m, [], []).machine.cpu.exception.code == BP
  {
    hide *;
    var m, p := Moved(), Scene(Moved(), [], false);
    UnfoldMovedMachine();
    MovedMissHolds();
    IdleRests(0x100, 0);
    PlainIsWellBehaved();
    EmptySound(Plain(), m.mem, 0x8000);
    UnfoldFresh();
    PageBytes(0x70, 0xCC, true);
    PageFetch(0x70, 0xCC, true, 0x100, 0, 0x100);
    WindowHead(m.mem, 0);
    WindowHead(m.mem, 0x100);
    MovedRipPoisonsCache(Plain(), host, escapes, p, {}, FreshSlots(), 0);
    MovedRipMissesBreakpoint(Plain(), host, escapes, p, FreshSlots(), 0, m);
  }

  lemma {:induction false} UnfoldFresh()
    ensures FreshSlots() == seq(0x8000, _ => EMPTY_SLOT)
  {
  }

  /** A program that is about to overwrite its own INT1. */
  function Rewriter(): Machine {
    Machine(Idle(0, 0), OnePage(0xF1, 0, true))
  }

  lemma {:induction false} UnfoldRewriter()
    ensures Rewriter() == Machine(Idle(0, 0), OnePage(0xF1, 0, true)) && Rewriter().cpu.scalar.rip == 0
    ensures Accessible(Rewriter(), 0, 1, Write) && Unaliased(Rewriter().mem)
  {
    FirstFaultIs(Rewriter(), 0, 1, Write, 1);
  }

  /** It meets the conditions of SelfModifyingCodeGoesStale. */
  lemma {:induction false} StaleCodeIsRun()
    ensures var m, slots := Rewriter(), Warmed(Rewriter());
            var after := Store(m, 0, 1, 0xCC);
            && Sound(Plain(), m.mem, {Keyed(m).cpu}, slots) && after.mem.codeVersion == m.mem.codeVersion
            && Step(Plain(), after, slots, []).machine.cpu.exception.code == DB
            && Step(Plain(), after, [], []).machine.cpu.exception.code == BP
  {
    hide *;
    var m := Rewriter();
    UnfoldRewriter();
    PlainIsWellBehaved();
    IdleRests(0, 0);
    PageBytes(0xF1, 0, true);
    PageFetch(0xF1, 0, true, 0, 0, 0);
    KeyedReady(m);
    WindowHead(m.mem, 0);
    BreakpointEntry(Plain(), Keyed(m).cpu, Window(m.mem, 0));
    WarmedIsSound(m);
    SelfModifyingCodeGoesStale(Plain(), m, {Keyed(m).cpu}, Warmed(m));
  }

  // XADD on a page that cannot be written.

  /** Plain, with XADD. */
  function WithXadd(): Isa {
    Plain().(
      other := (code: seq<byte>, mode: nat) => if XaddCode(mode, code) then Some(Run(0, false)) else None,
      run := (id: nat, code: seq<byte>, m: Machine) => LegacyXadd(m, code),
      attach := (id: nat, code: seq<byte>, c: Cpu) => ProbeXadd(c, code),
      fast := (id: nat, captured: Captured, m: Machine) => ReplayXadd(m, captured))
  }

  lemma {:induction false} WithXaddRoutes()
    ensures RoutesXadd(WithXadd(), 0)
  {
    hide XaddCode, Unlocked, LegacyXadd, ProbeXadd, ReplayXadd;
  }

  /** XADD dword [RAX], ECX. */
  const XADD_WINDOW: seq<byte> :=
    [0x0F, 0xC1, 0x08, 0x90, 0x90, 0x90, 0x90, 0x90, 0x90, 0x90, 0x90, 0x90, 0x90, 0x90, 0x90]

  function XaddOperand(): Inst {
    Inst(0xC1, true, 0x08, 0, 0, 0, 64, 0)
  }

  lemma {:induction false} ParseWindow()
    ensures ParseXadd(true, XADD_WINDOW) == Parsed(NO_PREFIXES, None, XaddOperand(), None, true, 3)
  {
    assert ScanPrefixes(XADD_WINDOW, 0, NO_PREFIXES, false) == Scan(NO_PREFIXES, false, 0);
    assert ParseModrm(EmptyInst(0xC1, 64), XADD_WINDOW, 2) == ModrmParse(true, XaddOperand(), 3);
  }

  /** Its own code as operand, on a page that can be read and executed only. */
  function ReadOnlyOperand(): Machine {
    Machine(Idle(0, 0), Mem(map[0 := Page(0, true, false, true, true)], [], false,
                            map[0 := 0x0F, 1 := 0xC1, 2 := 0x08], 1))
  }

  lemma {:induction false} WindowIsXadd()
    ensures XaddCode(ModeBits(Idle(0, 0)), XADD_WINDOW) && Unlocked(ModeBits(Idle(0, 0)), XADD_WINDOW)
  {
    hide ModeBits, Idle;
    assert PrefixLength(ModeBits(Idle(0, 0)), XADD_WINDOW, 0) == 0;
  }

  lemma {:induction false} OperandIsReadOnly(c: Cpu)
    requires !Pending(c) && c.scalar.cpl == 0
    ensures var m := Machine(c, ReadOnlyOperand().mem);
            && Accessible(m, 0, 4, Read) && !Accessible(m, 0, 4, Write) && LoadValue(m, 0, 4) % 0x100 == 0x0F
  {
    hide BytesAt, LittleEndian;
    var m := Machine(c, ReadOnlyOperand().mem);
    forall i: nat | i < 4 ensures ByteFault(m, 0, i, Read) == NoFault {
    }
    FirstFaultIs(m, 0, 4, Read, 4);
    FirstFaultIs(m, 0, 4, Write, 0);
    LowestByte(BytesAt(m.mem, 0, 4));
    assert ByteAt(m.mem, 0) == 0x0F;
  }

  lemma {:induction false} LowestByte(bs: seq<byte>)
    requires bs != []
    ensures LittleEndian(bs) % 0x100 == bs[0]
  {
    var rest := LittleEndian(bs[1..]);
    assert LittleEndian(bs) == bs[0] + 0x100 * rest;
  }

  lemma {:induction false} StartHere(c: Cpu)
    requires c == Idle(0, 0)
    ensures var p := ParseXadd(true, XADD_WINDOW);
            && Is64BitCode(c) && c.scalar.segments.cs.longMode
            && Operand(c, p) == XaddOperand() && XaddWidth(Entered(c, p), XaddOperand()) == 32
            && GetReg(Entered(c, p), XaddIndex(Entered(c, p), XaddOperand()), 32) == 0
            && (forall k :: ValidateOperand(Stamp(c, p.prefixes), XaddOperand(), k) == Stamp(c, p.prefixes))
            && (forall k :: ValidateOperand(Entered(c, p), XaddOperand(), k) == Entered(c, p))
  {
    hide ParseXadd;
    ParseWindow();
    CanonicalRange(0);
    var p := ParseXadd(true, XADD_WINDOW);
    forall k: nat ensures LinearAddress(Stamp(c, p.prefixes), XaddOperand(), k) == 0
        && LinearAddress(Entered(c, p), XaddOperand(), k) == 0 {
    }
  }

  lemma {:induction false} OperandReached(fast: bool)
    ensures BodyReached(Idle(0, 0), XADD_WINDOW, fast)
  {
    hide *;
    var c := Idle(0, 0);
    IdleRests(0, 0);
    StartHere(c);
    ParseWindow();
    var p := ParseXadd(true, XADD_WINDOW);
    EnteredIdle(c, p);
    UnfoldReached(c, XADD_WINDOW, fast);
    UnfoldDecodeXadd(c, XADD_WINDOW);
    OperandIsMemory();
    CleanDecode(c, p);
  }

  lemma {:induction false} OperandIsMemory()
    ensures MemoryForm(XaddOperand()) && !RipRelative(XaddOperand())
  {
  }

  lemma {:induction false} CleanDecode(c: Cpu, p: Parsed)
    requires p.early == None && p.late == None && p.complete && MemoryForm(p.inst) && !RipRelative(p.inst)
    requires ValidateOperand(Stamp(c, p.prefixes), p.inst, 0) == Stamp(c, p.prefixes)
    ensures Clean(p) && Effects(Stamp(c, p.prefixes), p) == Entered(c, p)
  {
    hide ValidateOperand, MemoryForm, RipRelative;
  }

  lemma {:induction false} MarkedEcx(c: Cpu, dst: nat)
    requires XaddWidth(c, XaddOperand()) == 32 && GetReg(c, XaddIndex(c, XaddOperand()), 32) == 0
    requires dst % 0x100 == 0x0F
    ensures Marked(c, XaddOperand(), dst) != c
  {
    hide Marked, GetReg, XaddIndex, XaddWidth;
    MarkedRegister(c, XaddOperand(), dst);
    assert Flags.Low(32, dst) % 0x100 == 0x0F;
  }

  lemma {:induction false} IdleOverride(e: Entry)
    requires e.segmentOverride == NoOverride
    ensures ReadOnlyOperand().(cpu := WithOverride(ReadOnlyOperand().cpu, e.segmentOverride)) == ReadOnlyOperand()
    ensures ReadOnlyOperand().cpu == Idle(0, 0) && Idle(0, 0).scalar.cpl == 0 && Idle(0, 0).scalar.segments.cs.longMode
  {
  }

  lemma {:induction false} XaddEntryPlain(c: Cpu)
    requires ModeBits(c) == ModeBits(Idle(0, 0))
    ensures DecodeAt(WithXadd(), c, XADD_WINDOW).segmentOverride == NoOverride
  {
    hide *;
    WithXaddRoutes();
    WindowIsXadd();
    XaddNotEmpty(ModeBits(c), XADD_WINDOW);
    UnfoldDecodeAt(WithXadd(), c, XADD_WINDOW);
    Routed(WithXadd(), 0, ModeBits(c), XADD_WINDOW);
    var e := StaticEntry(WithXadd(), ModeBits(c), XADD_WINDOW);
    XaddEntry(WithXadd(), 0, ModeBits(c), XADD_WINDOW);
    AttachedOther(WithXadd(), e, 0, c);
    StaticFields(Attach(WithXadd(), e, c), e);
    WindowOverride(ModeBits(c));
  }

  lemma {:induction false} WindowOverride(mode: nat)
    requires XaddCode(mode, XADD_WINDOW) && Unlocked(mode, XADD_WINDOW)
    ensures StaticEntry(WithXadd(), mode, XADD_WINDOW).segmentOverride == NoOverride
  {
    hide ClassifyNoFault, EscapeCandidate, RetOperandSize, LittleEndian, XaddCode, LegacyXadd, ProbeXadd, ReplayXadd,
      Unlocked;
    assert PrefixLength(mode, XADD_WINDOW, 0) == 0;
  }

  /** The step meets the conditions of XaddPreciseIff, faults, and is not precise: ECX holds the old operand. */
  lemma {:induction false} FaultLeavesRegister()
    ensures var isa, m := WithXadd(), ReadOnlyOperand();
            var (after, code) := Dispatch(isa, m, DecodeAt(isa, m.cpu, XADD_WINDOW));
            && RoutesXadd(isa, 0) && ReadyToDecode(m.cpu) && code != StepOk && after.mem == m.mem && !Precise(m, after)
  {
    hide *;
    var isa, m, c := WithXadd(), ReadOnlyOperand(), Idle(0, 0);
    var e := DecodeAt(isa, c, XADD_WINDOW);
    WithXaddRoutes();
    WindowIsXadd();
    IdleRests(0, 0);
    XaddEntryPlain(c);
    IdleOverride(e);
    OperandReached(e.fast.Some?);
    StartHere(c);
    var p := ParseXadd(true, XADD_WINDOW);
    EnteredIdle(c, p);
    SameModeSelf(c);
    OperandIsReadOnly(Entered(c, p));
    OperandAddress();
    XaddFaultsIff(isa, 0, m, c, XADD_WINDOW);
    MarkedEcx(Entered(c, p), LoadValue(m.(cpu := Entered(c, p)), 0, 4));
    MarkHere(m, e.fast.Some?);
    XaddPreciseIff(isa, 0, m, c, XADD_WINDOW);
  }

  lemma {:induction false} SameModeSelf(c: Cpu)
    ensures SameMode(c, c)
  {
  }

  lemma {:induction false} OperandAddress()
    ensures XaddOperand().memAddress == 0
  {
  }

  lemma {:induction false} MarkHere(s: Machine, fast: bool)
    requires BodyReached(s.cpu, XADD_WINDOW, fast) && s.cpu.scalar.segments.cs.longMode
    requires var p := ParseXadd(true, XADD_WINDOW);
             var start := s.(cpu := Entered(s.cpu, p));
             && Operand(s.cpu, p) == XaddOperand() && XaddWidth(start.cpu, XaddOperand()) == 32
             && Accessible(start, 0, 4, Read) && Marked(start.cpu, XaddOperand(), LoadValue(start, 0, 4)) != start.cpu
    ensures LeavesMark(s, XADD_WINDOW, fast)
  {
    hide BodyReached, ParseXadd, Accessible, Marked, LoadValue, XaddWidth, Entered, Operand;
  }
}
