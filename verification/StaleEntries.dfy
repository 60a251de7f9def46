/** Hits on the instructions whose decoders read more than bytes, RIP and mode: exactly when they are transparent, and
    machines on which they are not. */
module StaleEntries {
  import opened Bits
  import opened MemoryManagement
  import opened CpuState
  import opened LinearMemory
  import opened Stack
  import opened Fetch
  import Flags
  import opened Addressing
  import opened AluDecode
  import opened AluExecute
  import opened Decoder
  import opened Executor
  import opened Replay
  import opened InstCache
  import opened Transparency
  import opened OpenedEntries
  import Xadd
  import opened Leave
  import opened FsBase
  import opened Moffs
  import opened LoopRefinement
  import opened Witnesses

  // Hits and fresh decodes, compared as steps.

  /** The cache holds an entry for the next instruction, decoded from its bytes in c. */
  ghost predicate HitOf(isa: Isa, m: Machine, slots: seq<Slot>, c: Cpu) {
    var rip := m.cpu.scalar.rip;
    && Resting(m.cpu) && !Pending(m.cpu) && WindowFetchable(m, rip)
    && ReadyToDecode(c) && c.scalar.rip == rip && ModeBits(c) == ModeBits(m.cpu)
    && Find(slots, m.mem.codeVersion, rip, ModeBits(m.cpu)) == Some(DecodeAt(isa, c, Window(m.mem, rip)))
  }

  /** The step with the cache is the step without. */
  predicate StepsAlike(isa: Isa, m: Machine, slots: seq<Slot>) {
    && Step(isa, m, slots, []).machine == Step(isa, m, [], []).machine
    && Step(isa, m, slots, []).code == Step(isa, m, [], []).code
  }

  lemma {:induction false} UnfoldHit(isa: Isa, m: Machine, slots: seq<Slot>, c: Cpu)
    requires HitOf(isa, m, slots, c)
    ensures var rip := m.cpu.scalar.rip;
            && Resting(m.cpu) && !Pending(m.cpu) && WindowFetchable(m, rip)
            && ReadyToDecode(c) && c.scalar.rip == rip && ModeBits(c) == ModeBits(m.cpu)
            && Find(slots, m.mem.codeVersion, rip, ModeBits(m.cpu)) == Some(DecodeAt(isa, c, Window(m.mem, rip)))
  {
    hide Resting, Pending, WindowFetchable, ReadyToDecode, ModeBits, Find, DecodeAt, Window;
  }

  lemma {:induction false} AlikeDispatch(isa: Isa, m: Machine, slots: seq<Slot>, c: Cpu)
    requires HitOf(isa, m, slots, c)
    requires var k, code := Keyed(m), Window(m.mem, m.cpu.scalar.rip);
             DecodeAt(isa, c, code).bytes != [] && DecodeAt(isa, k.cpu, code).bytes != []
    ensures var k, code := Keyed(m), Window(m.mem, m.cpu.scalar.rip);
            && ReplaySite(c, k.cpu, k, ModeBits(k.cpu)) && ModeBits(k.cpu) == ModeBits(m.cpu)
            && (StepsAlike(isa, m, slots)
                <==> Dispatch(isa, k, DecodeAt(isa, c, code)) == Dispatch(isa, k, DecodeAt(isa, k.cpu, code)))
  {
    hide *;
    var k, rip := Keyed(m), m.cpu.scalar.rip;
    var code := Window(m.mem, rip);
    UnfoldHit(isa, m, slots, c);
    KeyedReady(m);
    UnfoldStep(isa, m, slots, []);
    UncachedStep(isa, m, []);
    UnfoldWindow(m, rip);
    UnfoldWindow(k, rip);
    MissDecodes(isa, k, [], []);
    RunsCached(isa, k, DecodeAt(isa, c, code));
    RunsDispatch(isa, k, DecodeAt(isa, c, code));
    RunsDispatch(isa, k, DecodeAt(isa, k.cpu, code));
    SiteHere(c, k, ModeBits(k.cpu));
    UnfoldAlike(isa, m, slots);
  }

  lemma {:induction false} RunsDispatch(isa: Isa, m: Machine, e: Entry)
    requires e.bytes != []
    ensures RunDecoded(isa, m, e) == Dispatch(isa, m, e)
  {
    hide Dispatch;
  }

  lemma {:induction false} UnfoldAlike(isa: Isa, m: Machine, slots: seq<Slot>)
    ensures StepsAlike(isa, m, slots)
            <==> && Step(isa, m, slots, []).machine == Step(isa, m, [], []).machine
                 && Step(isa, m, slots, []).code == Step(isa, m, [], []).code
  {
    hide Step;
  }

  /** The bytes of a guarded entry are those it was decoded from. */
  lemma {:induction false} KeptBytes(isa: Isa, mode: nat, c: Cpu, code: seq<byte>)
    requires ModeBits(c) == mode && code != [] && isa.special(code) == None
    requires StaticEntry(isa, mode, code).bytes == code && StaticEntry(isa, mode, code).fast == None
    ensures DecodeAt(isa, c, code).bytes == code
  {
    hide *;
    UnfoldDecodeAt(isa, c, code);
    var e := StaticEntry(isa, mode, code);
    AttachKinds(isa, e, c);
    StaticFields(Attach(isa, e, c), e);
  }

  lemma {:induction false} KeyedBits(m: Machine)
    ensures var k := Keyed(m);
            && k.mem == m.mem && k.cpu.scalar == m.cpu.scalar && Pending(k.cpu) == Pending(m.cpu)
            && Is64BitCode(k.cpu) == Is64BitCode(m.cpu) && FsGsBaseBit(k.cpu) == FsGsBaseBit(m.cpu)
            && ModeBits(k.cpu) == ModeBits(m.cpu)
  {
    PrimeKeepsRip(m.cpu);
  }

  /** A hit on LEAVE is transparent in 64-bit code, under LOCK, while SS.B is what it was at decoding, and otherwise
      just when the stack size is indifferent to the result. */
  lemma {:induction false} LeaveHitIff(isa: Isa, id: nat, m: Machine, slots: seq<Slot>, c: Cpu)
    requires RoutesLeave(isa, id) && HitOf(isa, m, slots, c)
    requires LeaveCode(ModeBits(m.cpu), Window(m.mem, m.cpu.scalar.rip))
    ensures var code := Window(m.mem, m.cpu.scalar.rip);
            var prefixes := code[..PrefixLength(ModeBits(m.cpu), code, 0)];
            StepsAlike(isa, m, slots)
            <==> || Is64BitCode(m.cpu) || c.scalar.segments.ss.db == m.cpu.scalar.segments.ss.db || 0xF0 in prefixes
                 || Indifferent(m, if 0x66 in prefixes then 2 else 4)
  {
    hide *;
    var k, code, mode := Keyed(m), Window(m.mem, m.cpu.scalar.rip), ModeBits(m.cpu);
    UnfoldHit(isa, m, slots, c);
    KeyedBits(m);
    LeaveEntry(isa, id, mode, code);
    LeaveRouted(isa, id, mode, code);
    UnfoldRouted(isa, id, mode, code);
    KeptBytes(isa, mode, c, code);
    KeptBytes(isa, mode, k.cpu, code);
    AlikeDispatch(isa, m, slots, c);
    LeaveReplaysIff(isa, id, k, c, k.cpu, code);
    IndifferentThere(m, k, 2);
    IndifferentThere(m, k, 4);
  }

  /** A hit on RDFSBASE or RDGSBASE is transparent unless the instruction was allowed at decoding and CR4.FSGSBASE has
      been cleared since. */
  lemma {:induction false} BaseHitIff(isa: Isa, id: nat, feature: bool, m: Machine, slots: seq<Slot>, c: Cpu)
    requires RoutesBase(isa, id, feature) && HitOf(isa, m, slots, c)
    requires BaseCode(ModeBits(m.cpu), Window(m.mem, m.cpu.scalar.rip))
    ensures StepsAlike(isa, m, slots)
            <==> || !Allowed(m.cpu, feature, Window(m.mem, m.cpu.scalar.rip))
                 || FsGsBaseBit(c) == 0 || FsGsBaseBit(m.cpu) == 1
  {
    hide *;
    var k, code, mode := Keyed(m), Window(m.mem, m.cpu.scalar.rip), ModeBits(m.cpu);
    UnfoldHit(isa, m, slots, c);
    KeyedBits(m);
    BaseEntry(isa, id, feature, mode, code);
    BaseRouted(isa, id, feature, mode, code);
    UnfoldRouted(isa, id, mode, code);
    KeptBytes(isa, mode, c, code);
    KeptBytes(isa, mode, k.cpu, code);
    AlikeDispatch(isa, m, slots, c);
    BaseReplaysIff(isa, id, feature, k, c, k.cpu, code);
    SameAllowed(k.cpu, m.cpu, feature, code);
    BitIsBit(c);
    BitIsBit(m.cpu);
  }

  /** A hit on a direct load of MOV is transparent when the address it was decoded with reads like the address it would
      be decoded with now. */
  lemma {:induction false} LoadHitIff(isa: Isa, id: nat, m: Machine, slots: seq<Slot>, c: Cpu)
    requires RoutesMoffs(isa, id) && HitOf(isa, m, slots, c)
    requires MoffsCode(ModeBits(m.cpu), Window(m.mem, m.cpu.scalar.rip))
    requires Loads(ParseMoffs(m.cpu.scalar.segments.cs.longMode, Window(m.mem, m.cpu.scalar.rip)))
    ensures var code := Window(m.mem, m.cpu.scalar.rip);
            var p := ParseMoffs(m.cpu.scalar.segments.cs.longMode, code);
            StepsAlike(isa, m, slots)
            <==> || ProbeMoffs(c, code) == None
                 || LoadsAlike(m, MoffsWidth(p) as int / 8, Wrap(p.offset + SegmentBase(c, SegDS)),
                             Wrap(p.offset + SegmentBase(m.cpu, SegDS)))
  {
    hide *;
    var k, code, mode := Keyed(m), Window(m.mem, m.cpu.scalar.rip), ModeBits(m.cpu);
    var p := ParseMoffs(m.cpu.scalar.segments.cs.longMode, code);
    UnfoldHit(isa, m, slots, c);
    KeyedReady(m);
    KeyedBits(m);
    MoffsEntry(isa, id, mode, code);
    MoffsRouted(isa, id, mode, code);
    UnfoldRouted(isa, id, mode, code);
    KeptBytes(isa, mode, c, code);
    KeptBytes(isa, mode, k.cpu, code);
    AlikeDispatch(isa, m, slots, c);
    LoadReplaysIff(isa, id, k, c, k.cpu, code);
    FlatAddress(c, p);
    FlatAddress(k.cpu, p);
    KeyedBase(m);
    LoadsAlikeThere(m, k, MoffsWidth(p) as int / 8, MoffsAddress(c, p), MoffsAddress(k.cpu, p));
  }

  lemma {:induction false} KeyedBase(m: Machine)
    ensures SegmentBase(Keyed(m).cpu, SegDS) == SegmentBase(m.cpu, SegDS)
  {
    PrimeKeepsRip(m.cpu);
  }

  // An instruction set with all three, within the contract of the open handlers.

  /** Plain, with LEAVE, RDFSBASE, RDGSBASE and the direct forms of MOV. */
  function Opened(feature: bool): Isa {
    Plain().(
      other := (code: seq<byte>, mode: nat) =>
        if LeaveCode(mode, code) then Some(Run(0, false))
        else if BaseCode(mode, code) then Some(Run(1, false))
        else if MoffsCode(mode, code) then Some(Run(2, false))
        else None,
      run := (id: nat, code: seq<byte>, m: Machine) =>
        if id == 0 then LegacyLeave(m, code) else if id == 1 then LegacyBase(m, feature, code)
        else LegacyMoffs(m, code),
      attach := (id: nat, code: seq<byte>, c: Cpu) =>
        if id == 0 then ProbeLeave(c, code) else if id == 1 then ProbeBase(c, feature, code) else ProbeMoffs(c, code),
      fast := (id: nat, captured: Captured, m: Machine) =>
        if id == 0 then ReplayLeave(m, captured) else if id == 1 then ReplayBase(m, captured)
        else ReplayMoffs(m, captured))
  }

  lemma {:induction false} CodesApart(mode: nat, code: seq<byte>)
    ensures !(LeaveCode(mode, code) && BaseCode(mode, code)) && !(LeaveCode(mode, code) && MoffsCode(mode, code))
    ensures !(BaseCode(mode, code) && MoffsCode(mode, code))
  {
    hide PrefixLength, MandatoryPrefix;
  }

  lemma {:induction false} OpenedRoutes(feature: bool)
    ensures RoutesLeave(Opened(feature), 0) && RoutesBase(Opened(feature), 1, feature)
            && RoutesMoffs(Opened(feature), 2)
  {
    hide LeaveCode, BaseCode, MoffsCode, LegacyLeave, LegacyBase, LegacyMoffs, ProbeLeave, ProbeBase, ProbeMoffs,
      ReplayLeave, ReplayBase, ReplayMoffs;
    forall mode: nat, code: seq<byte>
      ensures LeaveCode(mode, code) ==> RoutedTo(Opened(feature), 0, mode, code)
      ensures BaseCode(mode, code) ==> RoutedTo(Opened(feature), 1, mode, code)
      ensures MoffsCode(mode, code) ==> RoutedTo(Opened(feature), 2, mode, code)
    {
      CodesApart(mode, code);
    }
  }

  /** Whatever goes to an opaque handler is one of the three. */
  lemma {:induction false} OpaqueIsOpened(feature: bool, mode: nat, code: seq<byte>)
    requires StaticEntry(Opened(feature), mode, code).handler.Opaque?
    ensures LeaveCode(mode, code) || BaseCode(mode, code) || MoffsCode(mode, code)
  {
    hide ClassifyNoFault, EscapeOwnedUd, RetOperandSize, LittleEndian, Branches, SignedByte, SignedDword, LongCodeBit,
      AluRoute, PrefixLength, OpcodeAt, PeekSegment, BranchOpcode, EscapeCandidate, LeaveCode, BaseCode, MoffsCode,
      LegacyLeave, LegacyBase, LegacyMoffs, ProbeLeave, ProbeBase, ProbeMoffs, ReplayLeave, ReplayBase, ReplayMoffs;
  }

  /** A handler that changes registers, flags, scratch or memory, and lets a pending exception be. */
  predicate Modest(before: Cpu, after: Cpu) {
    KeyFrame(before, after) && FaultKept(before, after)
  }

  lemma {:induction false} ModestIsDecent(before: Machine, after: Machine)
    requires Modest(before.cpu, after.cpu)
    ensures Decent(before, after)
  {
  }

  lemma {:induction false} CheckedIsModest(m: Machine, address: u64, n: nat, access: Access)
    ensures Modest(m.cpu, Checked(m, address, n, access).cpu)
  {
    hide FirstFault, FaultAt;
    CheckedFrame(m, address, n, access);
  }

  lemma {:induction false} StoreIsModest(m: Machine, address: u64, n: nat, value: nat)
    ensures Modest(m.cpu, Store(m, address, n, value).cpu)
  {
    hide Accessible, StoreBytes, Bytes, Checked;
    CheckedIsModest(m, address, n, Write);
  }

  lemma {:induction false} SetIsModest(c: Cpu, r: nat, w: Flags.Width, value: nat)
    requires value < Flags.Modulus(w)
    ensures Modest(c, SetReg(c, r, w, value))
  {
    hide SetReg;
    SetRegFrame(c, r, w, value);
  }

  lemma {:induction false} LeaveIsModest(m: Machine, operandSize: Flags.Width, stackSize: Flags.Width)
    ensures Modest(m.cpu, LeaveBody(m, operandSize, stackSize).cpu)
  {
    hide Checked, LoadValue, SetReg, Flags.Low, Wrap;
    var frame, n := Flags.Low(stackSize, Reg(m.cpu, RBP)), operandSize as int / 8;
    CheckedIsModest(m, frame, n, Read);
    var read := Checked(m, frame, n, Read).cpu;
    SetIsModest(WithStackPointer(read, stackSize, Flags.Low(stackSize, frame + n)), RBP, operandSize,
                Flags.Low(operandSize, LoadValue(m, frame, n)));
  }

  lemma {:induction false} MoffsIsModest(m: Machine, p: MoffsParse, address: u64)
    ensures Modest(m.cpu, MoffsBody(m, p, address).cpu)
  {
    hide Checked, LoadValue, SetReg, Flags.Low, Store, MoffsWidth;
    var w := MoffsWidth(p);
    CheckedIsModest(m, address, w as int / 8, Read);
    SetIsModest(Checked(m, address, w as int / 8, Read).cpu, RAX, w,
                Flags.Low(w, LoadValue(m, address, w as int / 8)));
    StoreIsModest(m, address, w as int / 8, Flags.Low(w, Reg(m.cpu, RAX)));
  }

  lemma {:induction false} BaseIsModest(c: Cpu, modrm: byte)
    ensures Modest(c, ReadBase(c, modrm))
  {
    hide SetReg, Flags.Low, Extended;
    var base := if RegField(modrm) == 0 then c.scalar.segments.fs.base else c.scalar.segments.gs.base;
    var w: Flags.Width := if c.scalar.prefixes.rexW then 64 else 32;
    SetIsModest(c, Extended(RmField(modrm), c.scalar.prefixes.rexB), w, Flags.Low(w, base));
  }

  lemma {:induction false} DecodesAreModest(c: Cpu, feature: bool, code: seq<byte>)
    ensures Modest(c, DecodeLeave(c, code)) && Modest(c, DecodeBase(c, feature, code))
    ensures Modest(c, DecodeMoffs(c, code))
    ensures forall p: Prefixes, n: nat :: Modest(c, StampSize(Stamp(c, p), n))
  {
    hide ParseLeave, ParseMoffs, ScanBase, BaseFault, MoffsAddress, Canonical;
  }

  lemma {:induction false} ModestTwice(a: Cpu, b: Cpu, c: Cpu)
    requires Modest(a, b) && Modest(b, c) && (Pending(a) ==> Pending(b))
    ensures Modest(a, c)
  {
  }

  lemma {:induction false} StaysPending(a: Cpu, b: Cpu)
    requires Modest(a, b)
    ensures Pending(a) ==> Pending(b)
  {
  }

  lemma {:induction false} Chain(a: Cpu, b: Cpu, c: Cpu)
    requires Modest(a, b) && Modest(b, c)
    ensures Modest(a, c)
  {
    hide Modest;
    StaysPending(a, b);
    ModestTwice(a, b, c);
  }

  lemma {:induction false} LegacyIsModest(m: Machine, feature: bool, code: seq<byte>)
    ensures Modest(m.cpu, LegacyLeave(m, code).cpu) && Modest(m.cpu, LegacyBase(m, feature, code).cpu)
    ensures Modest(m.cpu, LegacyMoffs(m, code).cpu)
  {
    hide Modest, LeaveBody, MoffsBody, ReadBase, DecodeLeave, DecodeBase, DecodeMoffs, ParseLeave, ParseMoffs, ScanBase,
      MoffsAddress, LeaveOperandSize, LeaveStackSize, Pending;
    DecodesAreModest(m.cpu, feature, code);
    var p := ParseLeave(Is64BitCode(m.cpu), code).prefixes;
    var leave := m.(cpu := DecodeLeave(m.cpu, code));
    LeaveIsModest(leave, LeaveOperandSize(m.cpu, p), LeaveStackSize(m.cpu, p));
    Chain(m.cpu, leave.cpu, LeaveBody(leave, LeaveOperandSize(m.cpu, p), LeaveStackSize(m.cpu, p)).cpu);
    var s, base := ScanBase(Is64BitCode(m.cpu), code, NO_SCAN), DecodeBase(m.cpu, feature, code);
    if s.offset + 3 <= |code| {
      BaseIsModest(base, code[s.offset + 2]);
      Chain(m.cpu, base, ReadBase(base, code[s.offset + 2]));
    }
    var q, moffs := ParseMoffs(m.cpu.scalar.segments.cs.longMode, code), m.(cpu := DecodeMoffs(m.cpu, code));
    MoffsIsModest(moffs, q, MoffsAddress(m.cpu, q));
    Chain(m.cpu, moffs.cpu, MoffsBody(moffs, q, MoffsAddress(m.cpu, q)).cpu);
  }

  lemma {:induction false} SelfIsModest(c: Cpu)
    ensures Modest(c, c)
  {
  }

  lemma {:induction false} FastIsModest(m: Machine, captured: Captured)
    ensures Modest(m.cpu, ReplayLeave(m, captured).cpu) && Modest(m.cpu, ReplayBase(m, captured).cpu)
    ensures Modest(m.cpu, ReplayMoffs(m, captured).cpu)
  {
    hide Modest, LeaveBody, MoffsBody, ReadBase, PrefixesOf, WidthOf, Stamp, StampSize;
    var fields := captured.fields;
    DecodesAreModest(m.cpu, true, []);
    SelfIsModest(m.cpu);
    if |fields| == 9 {
      var p := MoffsParse(PrefixesOf(fields[2..]), None, true, fields[0] % 0x100, 0, captured.length);
      var t := m.(cpu := StampSize(Stamp(m.cpu, p.prefixes), captured.length));
      LeaveIsModest(t, WidthOf(fields[0]), WidthOf(fields[1]));
      Chain(m.cpu, t.cpu, LeaveBody(t, WidthOf(fields[0]), WidthOf(fields[1])).cpu);
      MoffsIsModest(t, p, Wrap(fields[1]));
      Chain(m.cpu, t.cpu, MoffsBody(t, p, Wrap(fields[1])).cpu);
    } else if |fields| == 8 {
      var t := StampSize(Stamp(m.cpu, PrefixesOf(fields[1..])), captured.length);
      BaseIsModest(t, fields[0] % 0x100);
      Chain(m.cpu, t, ReadBase(t, fields[0] % 0x100));
    }
  }

  /** The contract under which runs are transparent is met with these instructions in the set. */
  lemma {:induction false} OpenedIsWellBehaved(feature: bool)
    ensures WellBehaved(Opened(feature))
  {
    hide StaticEntry, Replays, Decent, LegacyLeave, LegacyBase, LegacyMoffs, ReplayLeave, ReplayBase, ReplayMoffs,
      LeaveCode, BaseCode, MoffsCode, ProbeLeave, ProbeBase, ProbeMoffs;
    var isa := Opened(feature);
    OpenedRoutes(feature);
    forall mode: nat, code: seq<byte> |
      |code| <= 15 && StaticEntry(isa, mode, code).handler.Opaque? && isa.special(code) == None
      ensures Replays(isa, mode, code)
    {
      OpaqueIsOpened(feature, mode, code);
      if LeaveCode(mode, code) {
        LeaveReplays(isa, 0, mode, code);
      } else if BaseCode(mode, code) {
        BaseReplays(isa, 1, feature, mode, code);
      } else {
        MoffsReplays(isa, 2, mode, code);
      }
    }
    forall id: nat, code: seq<byte>, m: Machine ensures Decent(m, isa.run(id, code, m)) {
      LegacyIsModest(m, feature, code);
      ModestIsDecent(m, isa.run(id, code, m));
    }
    forall id: nat, captured: Captured, m: Machine ensures Decent(m, isa.fast(id, captured, m)) {
      FastIsModest(m, captured);
      ModestIsDecent(m, isa.fast(id, captured, m));
    }
  }

  // Machines on which a hit is not transparent.

  /** One page at address zero with these bytes, open to everybody. */
  function Loaded(bytes: map<nat, byte>): Mem {
    Mem(map[0 := Page(0, true, true, true, true)], [], false, bytes, 1)
  }

  function ByteOf(bytes: map<nat, byte>, a: nat): byte {
    if a in bytes then bytes[a] else 0
  }

  lemma {:induction false} LoadedPage(bytes: map<nat, byte>, c: Cpu, a: u64, n: nat)
    requires !Pending(c) && a + n <= PAGE
    ensures var m := Machine(c, Loaded(bytes));
            && (forall access: Access :: Accessible(m, a, n, access))
            && BytesAt(m.mem, a, n) == seq(n, (i: nat) requires i < n => ByteOf(bytes, a + i))
  {
    hide FirstFault, Pending, Is64BitCode;
    var m := Machine(c, Loaded(bytes));
    forall access: Access ensures Accessible(m, a, n, access) {
      forall i: nat | i < n ensures ByteFault(m, a, i, access) == NoFault {
        LoadedByte(bytes, c, a, i, access);
      }
      FirstFaultIs(m, a, n, access, n);
    }
    forall i: nat | i < n ensures BytesAt(m.mem, a, n)[i] == ByteOf(bytes, a + i) {
      LoadedByte(bytes, c, a, i, Read);
    }
  }

  lemma {:induction false} LoadedByte(bytes: map<nat, byte>, c: Cpu, a: u64, i: nat, access: Access)
    requires !Pending(c) && a + i < PAGE
    ensures var m := Machine(c, Loaded(bytes));
            ByteFault(m, a, i, access) == NoFault && ByteAt(m.mem, Wrap(a + i)) == ByteOf(bytes, a + i)
  {
    CanonicalRange(a + i);
  }

  lemma {:induction false} BeyondPage(bytes: map<nat, byte>, c: Cpu, a: u64, n: nat)
    requires PAGE <= a < 0x1_0000_0000 && n > 0
    ensures !Accessible(Machine(c, Loaded(bytes)), a, n, Read)
  {
    hide FirstFault;
    var m := Machine(c, Loaded(bytes));
    CanonicalRange(a);
    FirstFaultIs(m, a, n, Read, 0);
  }

  lemma {:induction false} LoadedCode(bytes: map<nat, byte>, c: Cpu)
    requires !Pending(c)
    ensures var m := Machine(c, Loaded(bytes));
            && WindowFetchable(m, 0) && Visible(m.mem, 0)
            && Window(m.mem, 0) == seq(15, (i: nat) requires i < 15 => ByteOf(bytes, i))
  {
    hide Accessible, BytesAt, Pending, Visible;
    var m := Machine(c, Loaded(bytes));
    LoadedPage(bytes, c, 0, 15);
    UnfoldWindow(m, 0);
    FetchableVisible(m, 0);
    assert seq(15, (i: nat) requires i < 15 => ByteOf(bytes, 0 + i))
        == seq(15, (i: nat) requires i < 15 => ByteOf(bytes, i));
  }

  /** The slots after the instruction was run once. */
  function WarmedBy(isa: Isa, m: Machine): seq<Slot> {
    Fill(FreshSlots(), m.mem.codeVersion, m.cpu.scalar.rip, ModeBits(m.cpu),
         DecodeAt(isa, Keyed(m).cpu, Window(m.mem, m.cpu.scalar.rip)))
  }

  /** They are sound afterwards, in whatever state the same instruction is met again. */
  lemma {:induction false} WarmedHits(isa: Isa, before: Machine, after: Machine)
    requires Resting(before.cpu) && !Pending(before.cpu) && Resting(after.cpu) && !Pending(after.cpu)
    requires before.mem == after.mem && before.cpu.scalar.rip == after.cpu.scalar.rip
    requires ModeBits(before.cpu) == ModeBits(after.cpu)
    requires WindowFetchable(after, after.cpu.scalar.rip) && Visible(after.mem, after.cpu.scalar.rip)
    requires DecodeAt(isa, Keyed(before).cpu, Window(before.mem, before.cpu.scalar.rip)).bytes != []
    ensures Sound(isa, after.mem, {Keyed(before).cpu}, WarmedBy(isa, before))
    ensures HitOf(isa, after, WarmedBy(isa, before), Keyed(before).cpu)
  {
    hide DecodeAt, Visible, Window, Find, Fill, Resting, Pending, Keyed, ModeBits, Sound, ReadyToDecode,
      WindowFetchable;
    KeyedReady(before);
    EmptySound(isa, before.mem, 0x8000);
    SoundMore(isa, before.mem, {}, {Keyed(before).cpu}, FreshSlots());
    var e := DecodeAt(isa, Keyed(before).cpu, Window(before.mem, before.cpu.scalar.rip));
    FillSound(isa, Keyed(before), {Keyed(before).cpu}, FreshSlots(), e);
    FilledHit(FreshSlots(), before.mem.codeVersion, before.cpu.scalar.rip, ModeBits(before.cpu), e);
  }

  /** Compatibility code at address zero, with a stack size, a base for DS and a frame pointer. */
  function Compat(big: bool, base: u64, frame: u64): Cpu {
    var c := Idle(0, 0);
    var segments := c.scalar.segments.(cs := CODE.(longMode := false, db := true), ss := DATA.(db := big),
                                       ds := DATA.(base := base));
    c.(scalar := c.scalar.(segments := segments, regs := c.scalar.regs[5 := frame]))
  }

  lemma {:induction false} CompatRests(big: bool, base: u64, frame: u64)
    ensures var c := Compat(big, base, frame);
            && Resting(c) && !Pending(c) && ModeBits(c) == 5 && !Is64BitCode(c) && c.scalar.rip == 0
            && !c.scalar.segments.cs.longMode && c.scalar.segments.ss.db == big
            && SegmentBase(c, SegDS) == base && Reg(c, RBP) == frame
  {
  }

  const LEAVE_BYTES: map<nat, byte> := map[0 := 0xC9]

  /** LEAVE was run with a 32-bit stack segment; now SS holds a 16-bit one, and EBP is 0x1_0000. */
  function BigStack(): Machine {
    Machine(Compat(true, 0, 0x1_0000), Loaded(LEAVE_BYTES))
  }

  function SmallStack(): Machine {
    Machine(Compat(false, 0, 0x1_0000), Loaded(LEAVE_BYTES))
  }

  lemma {:induction false} LeaveWindow()
    ensures var code := seq(15, (i: nat) requires i < 15 => ByteOf(LEAVE_BYTES, i));
            PrefixLength(5, code, 0) == 0 && code[..0] == [] && LeaveCode(5, code)
  {
  }

  lemma {:induction false} StackMatters()
    ensures !Indifferent(SmallStack(), 4)
  {
    hide Accessible, LoadValue, Compat, Loaded;
    var m := SmallStack();
    CompatRests(false, 0, 0x1_0000);
    BeyondPage(LEAVE_BYTES, m.cpu, 0x1_0000, 4);
    assert Flags.Low(32, Reg(m.cpu, RBP)) == 0x1_0000 && Flags.Low(16, Reg(m.cpu, RBP)) == 0;
  }

  /** The cache is sound and the instruction set keeps its contract, and still the hit is not the step an engine without
      a cache makes: it looks for the frame at 0x1_0000, where a fresh decode looks at zero. */
  lemma {:induction false} StaleStackSize(feature: bool)
    ensures var isa, slots, past := Opened(feature), WarmedBy(Opened(feature), BigStack()), {Keyed(BigStack()).cpu};
            && WellBehaved(isa) && Sound(isa, SmallStack().mem, past, slots)
            && HitOf(isa, SmallStack(), slots, Keyed(BigStack()).cpu) && !StepsAlike(isa, SmallStack(), slots)
            && !Settled(SmallStack(), past)
  {
    hide *;
    var isa, before, after := Opened(feature), BigStack(), SmallStack();
    UnfoldStacks();
    OpenedIsWellBehaved(feature);
    OpenedRoutes(feature);
    CompatRests(true, 0, 0x1_0000);
    CompatRests(false, 0, 0x1_0000);
    LoadedCode(LEAVE_BYTES, before.cpu);
    LoadedCode(LEAVE_BYTES, after.cpu);
    LeaveWindow();
    KeyedReady(before);
    var code := Window(after.mem, 0);
    LeaveEntry(isa, 0, 5, code);
    LeaveRouted(isa, 0, 5, code);
    UnfoldRouted(isa, 0, 5, code);
    KeptBytes(isa, 5, Keyed(before).cpu, code);
    WarmedHits(isa, before, after);
    StackMatters();
    LeaveHitIff(isa, 0, after, WarmedBy(isa, before), Keyed(before).cpu);
    UnsettledDiffers(isa, after, Keyed(before).cpu, WarmedBy(isa, before));
  }

  lemma {:induction false} UnfoldStacks()
    ensures BigStack() == Machine(Compat(true, 0, 0x1_0000), Loaded(LEAVE_BYTES))
    ensures SmallStack() == Machine(Compat(false, 0, 0x1_0000), Loaded(LEAVE_BYTES))
  {
  }

  /** A sound cache on a settled machine is transparent, so this one is not settled. */
  lemma {:induction false} UnsettledDiffers(isa: Isa, m: Machine, c: Cpu, slots: seq<Slot>)
    requires WellBehaved(isa) && Sound(isa, m.mem, {c}, slots) && HitOf(isa, m, slots, c) && !StepsAlike(isa, m, slots)
    ensures !Settled(m, {c})
  {
    hide *;
    UnfoldHit(isa, m, slots, c);
    BehavedReplays(isa);
    UnfoldAlike(isa, m, slots);
    if Settled(m, {c}) {
      StepTransparent(isa, m, {c}, slots);
    }
  }

  /** RDFSBASE EAX. */
  const BASE_BYTES: map<nat, byte> := map[0 := 0xF3, 1 := 0x0F, 2 := 0xAE, 3 := 0xC0]

  /** 64-bit code with CR4.FSGSBASE set or clear. */
  function WithCr4(enabled: bool): Cpu {
    var c := Idle(0, 0);
    c.(scalar := c.scalar.(controlRegs := c.scalar.controlRegs[4 := if enabled then 0x1_0000 else 0]))
  }

  function BaseReader(enabled: bool): Machine {
    Machine(WithCr4(enabled), Loaded(BASE_BYTES))
  }

  lemma {:induction false} UnfoldReader(enabled: bool)
    ensures var m := BaseReader(enabled);
            && m == Machine(WithCr4(enabled), Loaded(BASE_BYTES)) && Resting(m.cpu) && !Pending(m.cpu)
            && ModeBits(m.cpu) == 3 && m.cpu.scalar.rip == 0 && m.cpu.scalar.segments.cs.longMode
            && FsGsBaseBit(m.cpu) == BoolBit(enabled)
  {
  }

  lemma {:induction false} BaseWindow()
    ensures var code := seq(15, (i: nat) requires i < 15 => ByteOf(BASE_BYTES, i));
            PrefixLength(3, code, 0) == 1 && code[..1] == [0xF3] && BaseCode(3, code)
  {
    var code := seq(15, (i: nat) requires i < 15 => ByteOf(BASE_BYTES, i));
    assert code[0] == 0xF3 && code[1] == 0x0F && code[2] == 0xAE && code[3] == 0xC0;
    assert PrefixLength(3, code, 1) == 1;
    assert MandatoryPrefix(code, 1) == 0xF3;
    BaseForm();
  }

  lemma {:induction false} BaseForm()
    ensures ModField(0xC0) == 3 && RegField(0xC0) == 0
  {
  }

  lemma {:induction false} AllowedHere(c: Cpu, code: seq<byte>)
    requires ModeBits(c) == 3 && c.scalar.segments.cs.longMode
    requires PrefixLength(3, code, 0) == 1 && |code| > 0 && code[..1] == [0xF3]
    ensures Allowed(c, true, code)
  {
    hide PrefixLength, ModeBits;
  }

  /** The hit reads the base, where a fresh decode raises #UD. */
  lemma {:induction false} StaleEnable()
    ensures var isa, before, after := Opened(true), BaseReader(true), BaseReader(false);
            var slots, past := WarmedBy(isa, before), {Keyed(before).cpu};
            && WellBehaved(isa) && Sound(isa, after.mem, past, slots) && HitOf(isa, after, slots, Keyed(before).cpu)
            && !StepsAlike(isa, after, slots) && !Settled(after, past)
  {
    hide *;
    var isa, before, after := Opened(true), BaseReader(true), BaseReader(false);
    OpenedIsWellBehaved(true);
    OpenedRoutes(true);
    UnfoldReader(true);
    UnfoldReader(false);
    LoadedCode(BASE_BYTES, before.cpu);
    LoadedCode(BASE_BYTES, after.cpu);
    BaseWindow();
    KeyedReady(before);
    KeyedBits(before);
    UnfoldBit();
    var code := Window(after.mem, 0);
    BaseEntry(isa, 1, true, 3, code);
    BaseRouted(isa, 1, true, 3, code);
    UnfoldRouted(isa, 1, 3, code);
    KeptBytes(isa, 3, Keyed(before).cpu, code);
    WarmedHits(isa, before, after);
    AllowedHere(after.cpu, code);
    BaseHitIff(isa, 1, true, after, WarmedBy(isa, before), Keyed(before).cpu);
    UnsettledDiffers(isa, after, Keyed(before).cpu, WarmedBy(isa, before));
  }

  lemma {:induction false} UnfoldBit()
    ensures BoolBit(true) == 1 && BoolBit(false) == 0
  {
  }

  /** MOV AL, [0], and another byte at 0x100. */
  const LOAD_BYTES: map<nat, byte> := map[0 := 0xA0, 0x100 := 0xCC]

  /** Compatibility code with a base in DS. */
  function DataReader(base: u64): Machine {
    Machine(Compat(true, base, 0), Loaded(LOAD_BYTES))
  }

  lemma {:induction false} UnfoldData(base: u64)
    ensures DataReader(base) == Machine(Compat(true, base, 0), Loaded(LOAD_BYTES))
  {
  }

  lemma {:induction false} Zeros(bs: seq<byte>)
    requires forall i :: 0 <= i < |bs| ==> bs[i] == 0
    ensures LittleEndian(bs) == 0
  {
    if bs != [] {
      Zeros(bs[1..]);
    }
  }

  lemma {:induction false} LoadWindow()
    ensures var code := seq(15, (i: nat) requires i < 15 => ByteOf(LOAD_BYTES, i));
            && MoffsCode(5, code)
            && ParseMoffs(false, code) == MoffsParse(NO_PREFIXES, None, true, 0xA0, 0, 5)
  {
    var code := seq(15, (i: nat) requires i < 15 => ByteOf(LOAD_BYTES, i));
    assert code[0] == 0xA0;
    assert ScanPrefixes(code, 0, NO_PREFIXES, false) == Scan(NO_PREFIXES, false, 0);
    Zeros(code[1..5]);
  }

  lemma {:induction false} OneByte(bytes: map<nat, byte>, c: Cpu, a: u64)
    requires !Pending(c) && a < PAGE
    ensures LoadValue(Machine(c, Loaded(bytes)), a, 1) == ByteOf(bytes, a)
  {
    hide Accessible, BytesAt, Pending;
    LoadedPage(bytes, c, a, 1);
    var bs := BytesAt(Loaded(bytes), a, 1);
    assert bs == [ByteOf(bytes, a)];
    assert LittleEndian(bs[1..]) == 0;
  }

  lemma {:induction false} BytesDiffer(bytes: map<nat, byte>, c: Cpu, a: u64, b: u64)
    requires !Pending(c) && a < PAGE && b < PAGE && ByteOf(bytes, a) != ByteOf(bytes, b)
    ensures !LoadsAlike(Machine(c, Loaded(bytes)), 1, a, b)
  {
    hide FirstFault, LoadValue, ByteFault, Wrap, Pending;
    OneByte(bytes, c, a);
    OneByte(bytes, c, b);
    LoadedPage(bytes, c, a, 1);
    LoadedPage(bytes, c, b, 1);
    assert Accessible(Machine(c, Loaded(bytes)), a, 1, Read) && Accessible(Machine(c, Loaded(bytes)), b, 1, Read);
  }

  /** The hit reads at the base DS had, where a fresh decode reads at the base it has. */
  lemma {:induction false} StaleDataBase(feature: bool)
    ensures var isa, before, after := Opened(feature), DataReader(0x100), DataReader(0);
            var slots, past := WarmedBy(isa, before), {Keyed(before).cpu};
            && WellBehaved(isa) && Sound(isa, after.mem, past, slots) && HitOf(isa, after, slots, Keyed(before).cpu)
            && !StepsAlike(isa, after, slots) && !Settled(after, past)
  {
    hide *;
    var isa, before, after := Opened(feature), DataReader(0x100), DataReader(0);
    OpenedIsWellBehaved(feature);
    OpenedRoutes(feature);
    UnfoldData(0x100);
    UnfoldData(0);
    CompatRests(true, 0x100, 0);
    CompatRests(true, 0, 0);
    LoadedCode(LOAD_BYTES, before.cpu);
    LoadedCode(LOAD_BYTES, after.cpu);
    LoadWindow();
    KeyedReady(before);
    KeyedBits(before);
    KeyedBase(before);
    var code := Window(after.mem, 0);
    var p := ParseMoffs(false, code);
    MoffsEntry(isa, 2, 5, code);
    MoffsRouted(isa, 2, 5, code);
    UnfoldRouted(isa, 2, 5, code);
    KeptBytes(isa, 5, Keyed(before).cpu, code);
    WarmedHits(isa, before, after);
    LoadsByte(p);
    WrapHere();
    MoffsDecodes(Keyed(before).cpu, 5, code);
    LoadedBytes();
    BytesDiffer(LOAD_BYTES, after.cpu, 0x100, 0);
    LoadHitIff(isa, 2, after, WarmedBy(isa, before), Keyed(before).cpu);
    UnsettledDiffers(isa, after, Keyed(before).cpu, WarmedBy(isa, before));
  }

  lemma {:induction false} LoadsByte(p: MoffsParse)
    requires p.opcode == 0xA0
    ensures Loads(p) && MoffsWidth(p) as int / 8 == 1
  {
  }

  lemma {:induction false} WrapHere()
    ensures Wrap(0) == 0 && Wrap(0x100) == 0x100
  {
  }

  lemma {:induction false} LoadedBytes()
    ensures 0x100 < PAGE && ByteOf(LOAD_BYTES, 0) == 0xA0 && ByteOf(LOAD_BYTES, 0x100) == 0xCC
    ensures ByteOf(PREFIXED_BYTES, 0) == 0x64 && ByteOf(PREFIXED_BYTES, 0x100) == 0xCC
  {
  }

  /** MOV AL, FS:[0], and another byte at 0x100. */
  const PREFIXED_BYTES: map<nat, byte> := map[0 := 0x64, 1 := 0xA0, 0x100 := 0xCC]

  /** 64-bit code with a base in FS. */
  function ThreadReader(): Machine {
    var c := Idle(0, 0);
    Machine(c.(scalar := c.scalar.(segments := c.scalar.segments.(fs := DATA.(base := 0x100)))), Loaded(PREFIXED_BYTES))
  }

  lemma {:induction false} UnfoldThread(p: MoffsParse)
    requires p.offset == 0
    ensures var m := ThreadReader();
            && m.mem == Loaded(PREFIXED_BYTES) && ReadyToDecode(m.cpu) && !Pending(m.cpu) && ModeBits(m.cpu) == 3
            && m.cpu.scalar.rip == 0 && m.cpu.scalar.segments.cs.longMode && SegmentBase(m.cpu, SegDS) == 0
            && MoffsAddress(m.cpu, p) == 0 && MoffsAddress(WithOverride(m.cpu, Override(SegFS)), p) == 0x100
  {
  }

  lemma {:induction false} PrefixedWindow()
    ensures var code := seq(15, (i: nat) requires i < 15 => ByteOf(PREFIXED_BYTES, i));
            && MoffsCode(3, code) && PrefixLength(3, code, 0) == 1 && PeekSegment(code, 1) == Override(SegFS)
            && ParseMoffs(true, code) == MoffsParse(NO_PREFIXES, None, true, 0xA0, 0, 10)
  {
    var code := seq(15, (i: nat) requires i < 15 => ByteOf(PREFIXED_BYTES, i));
    assert code[0] == 0x64 && code[1] == 0xA0;
    assert PrefixLength(3, code, 1) == 1;
    assert ScanPrefixes(code, 1, NO_PREFIXES, false) == Scan(NO_PREFIXES, false, 1);
    assert WithPrefix(NO_PREFIXES, 0x64) == NO_PREFIXES;
    Zeros(code[2..10]);
  }

  /** The entry is fresh, and its fast handler reads at zero, where the legacy handler reads at the base of FS. */
  lemma {:induction false} LostPrefix(feature: bool)
    ensures var isa, m := Opened(feature), ThreadReader();
            var e := DecodeAt(isa, m.cpu, Window(m.mem, 0));
            e.fast.Some? && Dispatch(isa, m, e) != Dispatch(isa, m, e.(fast := None))
  {
    hide *;
    var isa, m := Opened(feature), ThreadReader();
    OpenedRoutes(feature);
    PrefixedWindow();
    var p := ParseMoffs(true, seq(15, (i: nat) requires i < 15 => ByteOf(PREFIXED_BYTES, i)));
    UnfoldThread(p);
    LoadedCode(PREFIXED_BYTES, m.cpu);
    var code := Window(m.mem, 0);
    MoffsEntry(isa, 2, 3, code);
    MoffsRouted(isa, 2, 3, code);
    UnfoldRouted(isa, 2, 3, code);
    UnfoldDecodeAt(isa, m.cpu, code);
    AttachKinds(isa, StaticEntry(isa, 3, code), m.cpu);
    StaticFields(Attach(isa, StaticEntry(isa, 3, code), m.cpu), StaticEntry(isa, 3, code));
    LoadsByte(p);
    WrapHere();
    CanonicalRange(0);
    MoffsDecodes(m.cpu, 3, code);
    LoadedBytes();
    BytesDiffer(PREFIXED_BYTES, m.cpu, 0, 0x100);
    PrefixDroppedIff(isa, 2, m, code);
  }
}
