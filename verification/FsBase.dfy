/** RDFSBASE and RDGSBASE: instructions whose decoder tests CR4, where a fast handler does not. */
module FsBase {
  import opened Bits
  import opened MemoryManagement
  import opened CpuState
  import opened LinearMemory
  import opened Flags
  import opened Addressing
  import opened RegisterParts
  import opened AluDecode
  import opened AluExecute
  import opened Decoder
  import opened Executor
  import opened Replay
  import opened PreciseSteps
  import opened OpenedEntries

  // Decoding.

  /** The prefix loop of this decoder: it sees F3, and 66 or F2 only to refuse them. */
  datatype BaseScan = BaseScan(prefixes: Prefixes, lock: bool, repeat: bool, other: bool, offset: nat)

  function BasePrefix(p: Prefixes, b: byte): Prefixes {
    if b == 0x67 then p.(addressSize := true) else if 0x40 <= b <= 0x4F then WithPrefix(p, b) else p
  }

  function NextScan(s: BaseScan, b: byte): BaseScan {
    BaseScan(BasePrefix(s.prefixes, b), s.lock || b == 0xF0, s.repeat || b == 0xF3, s.other || b == 0x66 || b == 0xF2,
             s.offset + 1)
  }

  const NO_SCAN := BaseScan(NO_PREFIXES, false, false, false, 0)

  function ScanBase(rex: bool, code: seq<byte>, s: BaseScan): (r: BaseScan)
    requires s.offset <= |code|
    ensures s.offset <= r.offset <= |code|
    decreases |code| - s.offset
  {
    if s.offset < |code| && (LegacyPrefix(code[s.offset]) || (rex && 0x40 <= code[s.offset] <= 0x4F)) then
      ScanBase(rex, code, NextScan(s, code[s.offset]))
    else s
  }

  /** The tests of decode_fsgsbase_instruction in their order; feature is what CPUID says of FSGSBASE. */
  function BaseFault(c: Cpu, feature: bool, s: BaseScan, code: seq<byte>): Option<ExceptionCode> {
    if s.lock || s.other || !s.repeat || !c.scalar.segments.cs.longMode || !feature || FsGsBaseBit(c) == 0
    then Some(UD)
    else if s.offset + 3 > |code| then Some(GP)
    else if code[s.offset] != 0x0F || code[s.offset + 1] != 0xAE then Some(UD)
    else When(ModField(code[s.offset + 2]) != 3 || RegField(code[s.offset + 2]) > 1, UD)
  }

  function DecodeBase(c: Cpu, feature: bool, code: seq<byte>): Cpu {
    var s := ScanBase(Is64BitCode(c), code, NO_SCAN);
    var fault := BaseFault(c, feature, s, code);
    if fault.Some? then Raise(Stamp(c, s.prefixes), fault.value, 0)
    else StampSize(Stamp(c, s.prefixes), s.offset + 3)
  }

  /** decode_fsgsbase_instruction: the ModRM byte it keeps. */
  method DecodeFsGsBaseInstruction(ctx: CpuContext, feature: bool, code: seq<byte>) returns (modrm: byte)
    modifies ctx`exception, ctx`scalar
    ensures ctx.State() == DecodeBase(old(ctx.State()), feature, code)
    ensures var c, s := old(ctx.State()), ScanBase(Is64BitCode(old(ctx.State())), code, NO_SCAN);
            BaseFault(c, feature, s, code) == None ==> modrm == code[s.offset + 2]
  {
    hide BasePrefix;
    ghost var c := ctx.State();
    var rex := Is64BitCode(ctx.State());
    SetPrefixes(ctx, NO_PREFIXES);
    var s := NO_SCAN;
    while s.offset < |code| && (LegacyPrefix(code[s.offset]) || (rex && 0x40 <= code[s.offset] <= 0x4F))
      invariant 0 <= s.offset <= |code|
      invariant ctx.State() == Stamp(c, s.prefixes)
      invariant ScanBase(rex, code, s) == ScanBase(rex, code, NO_SCAN)
    {
      s := NextScan(s, code[s.offset]);
      SetPrefixes(ctx, s.prefixes);
    }
    modrm := 0;
    if s.lock || s.other || !s.repeat || !ctx.scalar.segments.cs.longMode || !feature
       || ctx.scalar.controlRegs[4] / 0x1_0000 % 2 == 0
    {
      ctx.RaiseException(UD, 0);
      return;
    }
    if s.offset + 3 > |code| {
      ctx.RaiseException(GP, 0);
      return;
    }
    if code[s.offset] != 0x0F || code[s.offset + 1] != 0xAE {
      ctx.RaiseException(UD, 0);
      return;
    }
    modrm := code[s.offset + 2];
    if ModField(modrm) != 3 || RegField(modrm) > 1 {
      ctx.RaiseException(UD, 0);
      return;
    }
    SetSize(ctx, s.offset + 3);
  }

  // Executing.

  /** execute_fsgsbase_with_decoded: no test of CR4 here. */
  function ReadBase(c: Cpu, modrm: byte): Cpu {
    var base := if RegField(modrm) == 0 then c.scalar.segments.fs.base else c.scalar.segments.gs.base;
    var w: Width := if c.scalar.prefixes.rexW then 64 else 32;
    SetReg(c, Extended(RmField(modrm), c.scalar.prefixes.rexB), w, Low(w, base))
  }

  /** Reg field 0 reads the base of FS and reg field 1 that of GS; without REX.W the upper half of the register is
      cleared. Nothing else changes. */
  lemma {:induction false} BaseIsRead(c: Cpu, modrm: byte)
    requires modrm / 8 % 8 <= 1 && (c.scalar.prefixes.rexB ==> c.scalar.prefixes.rexPresent)
    ensures var r := modrm % 8 + if c.scalar.prefixes.rexB then 8 else 0;
            var base: u64 := if modrm / 8 % 8 == 0 then c.scalar.segments.fs.base else c.scalar.segments.gs.base;
            var read := if c.scalar.prefixes.rexW then base else base % 0x1_0000_0000;
            ReadBase(c, modrm) == c.(scalar := c.scalar.(regs := c.scalar.regs[r := read]))
  {
    hide SetReg;
    var base: u64 := if modrm / 8 % 8 == 0 then c.scalar.segments.fs.base else c.scalar.segments.gs.base;
    var w: Width := if c.scalar.prefixes.rexW then 64 else 32;
    WritesPart(c, Extended(modrm % 8, c.scalar.prefixes.rexB), w, Low(w, base));
  }

  method ExecuteFsGsBase(ctx: CpuContext, modrm: byte)
    modifies ctx`scalar
    ensures ctx.State() == ReadBase(old(ctx.State()), modrm)
  {
    hide SetReg, Low, Extended;
    var base := if RegField(modrm) == 0 then ctx.scalar.segments.fs.base else ctx.scalar.segments.gs.base;
    var w: Width := if ctx.scalar.prefixes.rexW then 64 else 32;
    var index := Extended(RmField(modrm), ctx.scalar.prefixes.rexB);
    SetRegFrame(ctx.State(), index, w, Low(w, base));
    LoadScalar(ctx, SetReg(ctx.State(), index, w, Low(w, base)));
  }

  function LegacyBase(m: Machine, feature: bool, code: seq<byte>): Machine {
    var decoded, s := DecodeBase(m.cpu, feature, code), ScanBase(Is64BitCode(m.cpu), code, NO_SCAN);
    if Pending(decoded) || s.offset + 3 > |code| then m.(cpu := decoded)
    else m.(cpu := ReadBase(decoded, code[s.offset + 2]))
  }

  function ProbeBase(c: Cpu, feature: bool, code: seq<byte>): Option<Captured> {
    var decoded, s := DecodeBase(c, feature, code), ScanBase(Is64BitCode(c), code, NO_SCAN);
    if Pending(decoded) || s.offset + 3 > |code| || s.offset + 3 > 15 then None
    else Some(Captured([code[s.offset + 2] as int] + PackedPrefixes(s.prefixes), decoded.scalar.lastInstSize))
  }

  /** execute_fsgsbase_fast. */
  function FastBase(m: Machine, modrm: byte, p: Prefixes, length: nat): Machine {
    m.(cpu := ReadBase(StampSize(Stamp(m.cpu, p), length), modrm))
  }

  function ReplayBase(m: Machine, captured: Captured): Machine {
    var fields := captured.fields;
    if |fields| != 8 then m else FastBase(m, fields[0] % 0x100, PrefixesOf(fields[1..]), captured.length)
  }

  // The entry.

  predicate BaseCode(mode: nat, code: seq<byte>) {
    var n := PrefixLength(mode, code, 0);
    && n + 2 < |code| <= 15 && code[n] == 0x0F && code[n + 1] == 0xAE && MandatoryPrefix(code, n) == 0xF3
    && ModField(code[n + 2]) == 3 && RegField(code[n + 2]) <= 1
  }

  /** The ladder of this instruction set routes these encodings to RDFSBASE and RDGSBASE under the given number. */
  ghost predicate RoutesBase(isa: Isa, id: nat, feature: bool) {
    && (forall mode: nat, code: seq<byte> :: BaseCode(mode, code) ==> RoutedTo(isa, id, mode, code))
    && (forall mode: nat, code: seq<byte>, m: Machine :: BaseCode(mode, code) ==>
          isa.run(id, code, m) == LegacyBase(m, feature, code))
    && (forall mode: nat, code: seq<byte>, c: Cpu :: BaseCode(mode, code) ==>
          isa.attach(id, code, c) == ProbeBase(c, feature, code))
    && (forall captured: Captured, m: Machine :: isa.fast(id, captured, m) == ReplayBase(m, captured))
  }

  lemma {:induction false} BaseRouted(isa: Isa, id: nat, feature: bool, mode: nat, code: seq<byte>)
    requires RoutesBase(isa, id, feature) && BaseCode(mode, code)
    ensures RoutedTo(isa, id, mode, code)
  {
    hide BaseCode, RoutedTo, LegacyBase, ProbeBase, ReplayBase;
  }

  lemma {:induction false} RoutedBase(isa: Isa, id: nat, feature: bool, mode: nat, code: seq<byte>, m: Machine, c: Cpu,
                                      captured: Captured)
    requires RoutesBase(isa, id, feature) && BaseCode(mode, code)
    ensures isa.run(id, code, m) == LegacyBase(m, feature, code)
    ensures isa.attach(id, code, c) == ProbeBase(c, feature, code)
    ensures isa.fast(id, captured, m) == ReplayBase(m, captured)
  {
    hide BaseCode, RoutedTo, LegacyBase, ProbeBase, ReplayBase;
  }

  lemma {:induction false} BaseEntry(isa: Isa, id: nat, feature: bool, mode: nat, code: seq<byte>)
    requires RoutesBase(isa, id, feature) && BaseCode(mode, code)
    ensures var e := StaticEntry(isa, mode, code);
            Guarded(e) && e.handler == Opaque(id) && e.bytes == code && e.fast == None && Installable(e) && code != []
  {
    hide RoutedTo, PrefixLength, RoutesBase, StaticEntry, Guarded, Installable, MandatoryPrefix;
    BaseRouted(isa, id, feature, mode, code);
    GuardedEntry(isa, id, mode, code);
  }

  lemma {:induction false} BaseStops(mode: nat, code: seq<byte>, s: BaseScan)
    requires s.offset <= |code|
    ensures ScanBase(RexAllowed(mode), code, s).offset == PrefixLength(mode, code, s.offset)
    decreases |code| - s.offset
  {
    hide BasePrefix;
    if s.offset < |code| && SkippedByPeek(mode, code[s.offset]) {
      BaseStops(mode, code, NextScan(s, code[s.offset]));
    }
  }

  lemma {:induction false} BaseBits(rex: bool, code: seq<byte>, s: BaseScan)
    requires s.offset <= |code|
    ensures var r := ScanBase(rex, code, s);
            var passed := code[s.offset..r.offset];
            && r.lock == (s.lock || 0xF0 in passed) && r.repeat == (s.repeat || 0xF3 in passed)
            && r.other == (s.other || 0x66 in passed || 0xF2 in passed)
    decreases |code| - s.offset
  {
    hide BasePrefix;
    var r := ScanBase(rex, code, s);
    if s.offset < |code| && (LegacyPrefix(code[s.offset]) || (rex && 0x40 <= code[s.offset] <= 0x4F)) {
      BaseBits(rex, code, NextScan(s, code[s.offset]));
      assert code[s.offset..r.offset] == [code[s.offset]] + code[s.offset + 1..r.offset];
    } else {
      assert code[s.offset..r.offset] == [];
    }
  }

  lemma {:induction false} MandatoryIsThere(code: seq<byte>, n: nat)
    requires n <= |code| && MandatoryPrefix(code, n) == 0xF3
    ensures 0xF3 in code[..n]
  {
    if code[n - 1] != 0xF3 {
      MandatoryIsThere(code, n - 1);
      assert code[..n] == code[..n - 1] + [code[n - 1]];
    } else {
      assert code[..n][n - 1] == 0xF3;
    }
  }

  /** The bytes and the mode allow the instruction; CR4 is another matter. */
  predicate Allowed(c: Cpu, feature: bool, code: seq<byte>) {
    var prefixes := code[..PrefixLength(ModeBits(c), code, 0)];
    c.scalar.segments.cs.longMode && feature && 0xF0 !in prefixes && 0x66 !in prefixes && 0xF2 !in prefixes
  }

  /** The context in which the body starts. */
  function EnteredBase(c: Cpu, s: BaseScan): Cpu {
    StampSize(Stamp(c, s.prefixes), s.offset + 3)
  }

  /** Such bytes decode exactly when they are allowed and CR4.FSGSBASE is set, and raise #UD otherwise. */
  lemma {:induction false} BaseDecodes(c: Cpu, feature: bool, mode: nat, code: seq<byte>)
    requires BaseCode(mode, code) && !Pending(c) && ModeBits(c) == mode
    ensures var s := ScanBase(RexAllowed(mode), code, NO_SCAN);
            var good := Allowed(c, feature, code) && FsGsBaseBit(c) == 1;
            && s.offset == PrefixLength(mode, code, 0) && s.offset + 3 <= |code| <= 15
            && DecodeBase(c, feature, code) == (if good then EnteredBase(c, s) else Raise(Stamp(c, s.prefixes), UD, 0))
            && Pending(DecodeBase(c, feature, code)) == !good
            && (ProbeBase(c, feature, code)
                == if good then Some(Captured([code[s.offset + 2] as int] + PackedPrefixes(s.prefixes), s.offset + 3))
                   else None)
  {
    hide PrefixLength, ScanBase, MandatoryPrefix, Is64BitCode, ModeBits, PackedPrefixes;
    var n := PrefixLength(mode, code, 0);
    RexIn64(c);
    BaseStops(mode, code, NO_SCAN);
    BaseBits(RexAllowed(mode), code, NO_SCAN);
    MandatoryIsThere(code, n);
    assert code[0..n] == code[..n];
  }

  /** What the handler of an entry decoded in c does: the base is read if the bytes are allowed and CR4.FSGSBASE was
      set then, or is set now; otherwise #UD. */
  lemma {:induction false} BaseRuns(isa: Isa, id: nat, feature: bool, mode: nat, code: seq<byte>, c: Cpu, m: Machine)
    requires RoutesBase(isa, id, feature) && BaseCode(mode, code)
    requires !Pending(c) && !Pending(m.cpu) && ModeBits(c) == mode && ModeBits(m.cpu) == mode
    ensures var e, r := Attach(isa, StaticEntry(isa, mode, code), c), ScanBase(RexAllowed(mode), code, NO_SCAN);
            && SameStatic(e, StaticEntry(isa, mode, code)) && r.offset + 3 <= |code|
            && RunHandler(isa, m, e)
               == if Allowed(m.cpu, feature, code) && (FsGsBaseBit(c) == 1 || FsGsBaseBit(m.cpu) == 1)
                  then m.(cpu := ReadBase(EnteredBase(m.cpu, r), code[r.offset + 2]))
                  else m.(cpu := Raise(Stamp(m.cpu, r.prefixes), UD, 0))
  {
    hide *;
    var e0 := StaticEntry(isa, mode, code);
    var e := Attach(isa, e0, c);
    BaseEntry(isa, id, feature, mode, code);
    AttachedOther(isa, e0, id, c);
    AttachIsOther(isa, e0, id, c);
    var captured := if e.fast.Some? && e.fast.value.OtherPrepared? then e.fast.value.captured else Captured([], 0);
    RoutedBase(isa, id, feature, mode, code, m, c, captured);
    RunsOther(isa, m, e, id);
    BaseDecodes(c, feature, mode, code);
    BaseDecodes(m.cpu, feature, mode, code);
    OtherAttaches(isa, e0, id, c);
    SameAllowed(c, m.cpu, feature, code);
    CapturedBase(m, code, ScanBase(RexAllowed(mode), code, NO_SCAN));
    LegacyRuns(m, feature, mode, code);
    BitIsBit(c);
    BitIsBit(m.cpu);
  }

  lemma {:induction false} BitIsBit(c: Cpu)
    ensures FsGsBaseBit(c) == 0 || FsGsBaseBit(c) == 1
  {
  }

  lemma {:induction false} SameAllowed(a: Cpu, b: Cpu, feature: bool, code: seq<byte>)
    requires ModeBits(a) == ModeBits(b)
    ensures Allowed(a, feature, code) == Allowed(b, feature, code)
  {
    hide ModeBits;
    ModeBitsDecide(a, b);
  }

  lemma {:induction false} CapturedBase(m: Machine, code: seq<byte>, s: BaseScan)
    requires s.offset + 3 <= |code|
    ensures ReplayBase(m, Captured([code[s.offset + 2] as int] + PackedPrefixes(s.prefixes), s.offset + 3))
            == m.(cpu := ReadBase(EnteredBase(m.cpu, s), code[s.offset + 2]))
  {
    hide ReadBase, PackedPrefixes, PrefixesOf;
    var fields := [code[s.offset + 2] as int] + PackedPrefixes(s.prefixes);
    assert fields[1..] == PackedPrefixes(s.prefixes);
    PrefixesRoundTrip(s.prefixes);
  }

  lemma {:induction false} LegacyRuns(m: Machine, feature: bool, mode: nat, code: seq<byte>)
    requires BaseCode(mode, code) && !Pending(m.cpu) && ModeBits(m.cpu) == mode
    ensures var s := ScanBase(RexAllowed(mode), code, NO_SCAN);
            s.offset + 3 <= |code|
            && LegacyBase(m, feature, code)
               == if Allowed(m.cpu, feature, code) && FsGsBaseBit(m.cpu) == 1
                  then m.(cpu := ReadBase(EnteredBase(m.cpu, s), code[s.offset + 2]))
                  else m.(cpu := Raise(Stamp(m.cpu, s.prefixes), UD, 0))
  {
    hide ScanBase, BaseCode, DecodeBase, ReadBase, Pending, ModeBits, Allowed, FsGsBaseBit, Is64BitCode;
    RexIn64(m.cpu);
    BaseDecodes(m.cpu, feature, mode, code);
  }

  // Replaying the entry.

  lemma {:induction false} ReadBounded(m: Machine, s: BaseScan, modrm: byte)
    requires !Pending(m.cpu)
    ensures Bounded(m.(cpu := EnteredBase(m.cpu, s)), m.(cpu := ReadBase(EnteredBase(m.cpu, s), modrm)))
    ensures !Pending(ReadBase(EnteredBase(m.cpu, s), modrm))
  {
    hide SetReg, Low, Extended;
    var t := EnteredBase(m.cpu, s);
    var base := if RegField(modrm) == 0 then t.scalar.segments.fs.base else t.scalar.segments.gs.base;
    var w: Width := if t.scalar.prefixes.rexW then 64 else 32;
    SetRegFrame(t, Extended(RmField(modrm), t.scalar.prefixes.rexB), w, Low(w, base));
  }

  lemma {:induction false} RaiseBounded(m: Machine, s: BaseScan)
    requires !Pending(m.cpu)
    ensures var raised := Raise(Stamp(m.cpu, s.prefixes), UD, 0);
            Pending(raised) && Bounded(m.(cpu := Stamp(m.cpu, s.prefixes)), m.(cpu := raised))
            && raised.scalar == Stamp(m.cpu, s.prefixes).scalar
  {
    assert m.cpu.scalar.controlRegs[2 := m.cpu.scalar.controlRegs[2]] == m.cpu.scalar.controlRegs;
  }

  lemma {:induction false} OverrideHere(c: Cpu, feature: bool, segment: Override, code: seq<byte>)
    ensures var s := WithOverride(c, segment);
            && Pending(s) == Pending(c) && ModeBits(s) == ModeBits(c) && FsGsBaseBit(s) == FsGsBaseBit(c)
            && Allowed(s, feature, code) == Allowed(c, feature, code)
  {
    hide PrefixLength;
  }

  /** The exact condition: entries of one RDFSBASE or RDGSBASE decoded in two states make the same step of a machine
      when the instruction is not allowed there anyway, when CR4.FSGSBASE agreed at decoding, and when it is set now.
      An entry made while it was set outlives its clearing. */
  lemma {:induction false} BaseReplaysIff(isa: Isa, id: nat, feature: bool, m: Machine, a: Cpu, b: Cpu, code: seq<byte>)
    requires RoutesBase(isa, id, feature) && BaseCode(ModeBits(m.cpu), code) && ReplaySite(a, b, m, ModeBits(m.cpu))
    ensures Dispatch(isa, m, DecodeAt(isa, a, code)) == Dispatch(isa, m, DecodeAt(isa, b, code))
            <==> || !Allowed(m.cpu, feature, code) || FsGsBaseBit(a) == FsGsBaseBit(b) || FsGsBaseBit(m.cpu) == 1
  {
    var mode := ModeBits(m.cpu);
    var e, r := StaticEntry(isa, mode, code), ScanBase(RexAllowed(mode), code, NO_SCAN);
    hide *;
    UnfoldSite(a, b, m, mode);
    UnfoldReady(a);
    UnfoldReady(b);
    UnfoldReady(m.cpu);
    BaseEntry(isa, id, feature, mode, code);
    BaseRouted(isa, id, feature, mode, code);
    UnfoldRouted(isa, id, mode, code);
    UnfoldDecodeAt(isa, a, code);
    UnfoldDecodeAt(isa, b, code);
    var x, y := Attach(isa, e, a), Attach(isa, e, b);
    var s := m.(cpu := WithOverride(m.cpu, e.segmentOverride));
    OverrideHere(m.cpu, feature, e.segmentOverride, code);
    BaseRuns(isa, id, feature, mode, code, a, s);
    BaseRuns(isa, id, feature, mode, code, b, s);
    GuardedFields(x, e);
    GuardedFields(y, e);
    BitIsBit(a);
    BitIsBit(b);
    ReadBounded(s, r, code[r.offset + 2]);
    RaiseBounded(s, r);
    var read, refused := s.(cpu := EnteredBase(s.cpu, r)), s.(cpu := Stamp(s.cpu, r.prefixes));
    var t := if Pending(RunHandler(isa, s, x).cpu) then refused else read;
    var u := if Pending(RunHandler(isa, s, y).cpu) then refused else read;
    StepsApart(isa, m, x, y, t, u);
    ReportIsAll(t, u, RunHandler(isa, s, x), RunHandler(isa, s, y));
  }

  lemma {:induction false} LatentBase(mode: nat, code: seq<byte>, a: Cpu, b: Cpu)
    requires BaseCode(mode, code) && ModeBits(a) == mode && ModeBits(b) == mode && Latent(code, a) == Latent(code, b)
    ensures FsGsBaseBit(a) == FsGsBaseBit(b)
  {
    hide PrefixLength, ModeBits, Is64BitCode, FsGsBaseBit, MandatoryPrefix;
  }

  /** Both meet the contract of the handlers the step machine leaves open: where CR4.FSGSBASE agreed, entries replay. */
  lemma {:induction false} BaseReplays(isa: Isa, id: nat, feature: bool, mode: nat, code: seq<byte>)
    requires RoutesBase(isa, id, feature) && BaseCode(mode, code)
    ensures Replays(isa, mode, code)
  {
    hide SameOutcome, RunHandler, Attach, WithOverride, ReplaySite, StaticEntry, RoutesBase, BaseCode, Latent;
    forall a: Cpu, b: Cpu, m: Machine | ReplaySite(a, b, m, mode) && Latent(code, a) == Latent(code, b)
      ensures var e := StaticEntry(isa, mode, code);
              var s := m.(cpu := WithOverride(m.cpu, e.segmentOverride));
              SameOutcome(e, RunHandler(isa, s, Attach(isa, e, a)), RunHandler(isa, s, Attach(isa, e, b)))
    {
      BaseReplay(isa, id, feature, mode, code, a, b, m);
    }
  }

  lemma {:induction false} BaseReplay(isa: Isa, id: nat, feature: bool, mode: nat, code: seq<byte>, a: Cpu, b: Cpu,
                                      m: Machine)
    requires RoutesBase(isa, id, feature) && BaseCode(mode, code)
    requires ReplaySite(a, b, m, mode) && Latent(code, a) == Latent(code, b)
    ensures var e := StaticEntry(isa, mode, code);
            var s := m.(cpu := WithOverride(m.cpu, e.segmentOverride));
            SameOutcome(e, RunHandler(isa, s, Attach(isa, e, a)), RunHandler(isa, s, Attach(isa, e, b)))
  {
    hide *;
    var e := StaticEntry(isa, mode, code);
    UnfoldSite(a, b, m, mode);
    UnfoldReady(a);
    UnfoldReady(b);
    UnfoldReady(m.cpu);
    var s := m.(cpu := WithOverride(m.cpu, e.segmentOverride));
    OverrideHere(m.cpu, feature, e.segmentOverride, code);
    BaseRuns(isa, id, feature, mode, code, a, s);
    BaseRuns(isa, id, feature, mode, code, b, s);
    LatentBase(mode, code, a, b);
    Replay.UnfoldOutcome(e, RunHandler(isa, s, Attach(isa, e, a)), RunHandler(isa, s, Attach(isa, e, b)));
  }
}
