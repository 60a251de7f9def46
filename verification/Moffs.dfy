/** The direct forms of MOV: instructions whose fast handler keeps the address the decoder found, segment base and
    all. */
module Moffs {
  import opened Bits
  import opened MemoryManagement
  import opened CpuState
  import opened LinearMemory
  import opened Stack
  import opened Flags
  import opened Addressing
  import opened RegisterParts
  import opened AluDecode
  import opened AluExecute
  import opened Decoder
  import opened Executor
  import opened Replay
  import opened PreciseSteps
  import opened OpenedEntries

  // Decoding.

  datatype MoffsParse = MoffsParse(
    prefixes: Prefixes, fault: Option<ExceptionCode>, complete: bool, opcode: byte, offset: nat, length: nat)

  /** The bytes of A0 to A3: the offset is as wide as addresses are. */
  function ParseMoffs(longCode: bool, code: seq<byte>): MoffsParse {
    var scan := ScanPrefixes(code, 0, NO_PREFIXES, false);
    var early, start, n := When(scan.lock, UD), scan.offset + 1, AddressSize(longCode, scan.prefixes) / 8;
    if start + n > |code| then MoffsParse(scan.prefixes, First(early, Some(GP)), false, 0, 0, 0)
    else
      MoffsParse(scan.prefixes, early, true, code[scan.offset], LittleEndian(code[start..start + n]), start + n)
  }

  function MoffsSegment(c: Cpu): SegmentName {
    if c.scalar.segmentOverride == NoOverride then SegDS else c.scalar.segmentOverride.segment
  }

  function MoffsAddress(c: Cpu, p: MoffsParse): u64 {
    Wrap(p.offset + SegmentBase(c, MoffsSegment(c)))
  }

  function DecodeMoffs(c: Cpu, code: seq<byte>): Cpu {
    var p := ParseMoffs(c.scalar.segments.cs.longMode, code);
    var raised := RaiseAny(Stamp(c, p.prefixes), p.fault);
    if p.complete then StampSize(ValidateLinear(raised, MoffsAddress(c, p), MoffsSegment(c)), p.length) else raised
  }

  /** The arm of decode_mov_instruction for A0 to A3. */
  method DecodeMoffsInstruction(ctx: CpuContext, code: seq<byte>) returns (opcode: byte, address: u64)
    requires var scan := ScanPrefixes(code, 0, NO_PREFIXES, false);
             scan.offset < |code| && 0xA0 <= code[scan.offset] <= 0xA3
    modifies ctx`exception, ctx`scalar
    ensures ctx.State() == DecodeMoffs(old(ctx.State()), code)
    ensures var c, p := old(ctx.State()), ParseMoffs(old(ctx.State()).scalar.segments.cs.longMode, code);
            p.complete ==> opcode == p.opcode && address == MoffsAddress(c, p)
  {
    hide ScanPrefixes, LittleEndian, SegmentBase, Wrap, Is64BitCode, Canonical, AddressSize, Scanned, DecodeMoffs,
      ParseMoffs, ValidateLinear, MoffsSegment, MoffsAddress, RaiseAny, Stamp, StampSize, Raise;
    ghost var c := ctx.State();
    ghost var scan := ScanPrefixes(code, 0, NO_PREFIXES, false);
    UnfoldDecodeMoffs(c, code);
    SetPrefixes(ctx, NO_PREFIXES);
    StampedAgain(c, scan);
    var lock, offset := ScanPrefixBytes(ctx, Cmp, code);
    opcode, address := code[offset], 0;
    var n := AddressSize(ctx.scalar.segments.cs.longMode, ctx.scalar.prefixes) / 8;
    if offset + 1 + n > |code| {
      ctx.RaiseException(GP, 0);
      return;
    }
    var immediate := ReadLittleEndian(code, offset + 1, n);
    var segment := MoffsSegment(ctx.State());
    address := Wrap(immediate + SegmentBase(ctx.State(), segment));
    UnfoldValidate(ctx.State(), address, segment);
    if Is64BitCode(ctx.State()) && !Canonical(address) {
      ctx.RaiseException(if segment == SegSS then SS else GP, 0);
    }
    SetSize(ctx, offset + 1 + n);
  }

  lemma {:induction false} UnfoldValidate(c: Cpu, address: u64, name: SegmentName)
    ensures ValidateLinear(c, address, name)
            == if Is64BitCode(c) && !Canonical(address) then Raise(c, if name == SegSS then SS else GP, 0) else c
  {
    hide Raise, Is64BitCode, Canonical;
  }

  /** The context after the prefixes. */
  function Scanned(c: Cpu, scan: Scan): Cpu {
    RaiseAny(Stamp(c, scan.prefixes), When(scan.lock, UD))
  }

  lemma {:induction false} StampedAgain(c: Cpu, scan: Scan)
    ensures RaiseAny(Stamp(Stamp(c, NO_PREFIXES), scan.prefixes), When(scan.lock, UD)) == Scanned(c, scan)
  {
    hide Raise;
  }

  lemma {:induction false} ScannedKeeps(c: Cpu, scan: Scan)
    ensures var d := Scanned(c, scan);
            && d.scalar == c.scalar.(prefixes := scan.prefixes)
            && (forall name :: SegmentBase(d, name) == SegmentBase(c, name)) && MoffsSegment(d) == MoffsSegment(c)
  {
  }

  lemma {:induction false} UnfoldDecodeMoffs(c: Cpu, code: seq<byte>)
    ensures var scan := ScanPrefixes(code, 0, NO_PREFIXES, false);
            var d, p := Scanned(c, scan), ParseMoffs(c.scalar.segments.cs.longMode, code);
            var start, n := scan.offset + 1, AddressSize(d.scalar.segments.cs.longMode, d.scalar.prefixes) / 8;
            && d.scalar.prefixes == scan.prefixes
            && (start + n > |code| ==> !p.complete && DecodeMoffs(c, code) == Raise(d, GP, 0))
            && (start + n <= |code| ==>
                  var address := Wrap(LittleEndian(code[start..start + n]) + SegmentBase(d, MoffsSegment(d)));
                  && p.complete && p.opcode == code[scan.offset] && address == MoffsAddress(c, p)
                  && DecodeMoffs(c, code) == StampSize(ValidateLinear(d, address, MoffsSegment(d)), start + n))
  {
    hide ScanPrefixes, LittleEndian, SegmentBase, MoffsSegment, Wrap, AddressSize, ValidateLinear, Scanned;
    var scan := ScanPrefixes(code, 0, NO_PREFIXES, false);
    ScannedKeeps(c, scan);
    ScannedTwice(c, scan);
  }

  lemma {:induction false} ScannedTwice(c: Cpu, scan: Scan)
    ensures Raise(Scanned(c, scan), GP, 0) == RaiseAny(Stamp(c, scan.prefixes), First(When(scan.lock, UD), Some(GP)))
    ensures Scanned(c, scan) == RaiseAny(Stamp(c, scan.prefixes), When(scan.lock, UD))
  {
  }

  // Executing.

  function MoffsWidth(p: MoffsParse): (w: Width) {
    if p.opcode == 0xA0 || p.opcode == 0xA2 then 8
    else if p.prefixes.rexW then 64
    else if p.prefixes.operandSize then 16
    else 32
  }

  predicate Loads(p: MoffsParse) {
    p.opcode == 0xA0 || p.opcode == 0xA1
  }

  /** The loads write RAX even when the read failed; the rollback of the step takes that back. */
  function MoffsBody(m: Machine, p: MoffsParse, address: u64): Machine {
    var w := MoffsWidth(p);
    if Loads(p) then
      var loaded := Checked(m, address, w as int / 8, Read);
      loaded.(cpu := SetReg(loaded.cpu, RAX, w, Low(w, LoadValue(m, address, w as int / 8))))
    else Store(m, address, w as int / 8, Low(w, Reg(m.cpu, RAX)))
  }

  /** A0 and A1 put what is at the address into AL, AX, EAX or RAX, A2 and A3 store it there. */
  lemma {:induction false} MoffsMoves(m: Machine, p: MoffsParse, address: u64)
    ensures var w: Width := if p.opcode % 2 == 0 then 8 else if p.prefixes.rexW then 64
                            else if p.prefixes.operandSize then 16 else 32;
            var n, after := w as int / 8, MoffsBody(m, p, address);
            && (p.opcode in {0xA0, 0xA1} && Accessible(m, address, n, Read) ==>
                  && after.cpu.scalar.regs[0]
                     == Replaced(m.cpu.scalar.regs[0], w, false, LittleEndian(BytesAt(m.mem, address, n)))
                  && after == m.(cpu := WithReg(m.cpu, 0, after.cpu.scalar.regs[0])))
            && (p.opcode in {0xA2, 0xA3} && Accessible(m, address, n, Write) ==>
                  after == m.(mem := StoreBytes(m.mem, address, Bytes(m.cpu.scalar.regs[0] % Modulus(w), n))))
  {
    hide Checked, Accessible, LittleEndian, BytesAt, SetReg, Modulus, Pow2, Replaced, StoreBytes, Bytes, Pending;
    var w := MoffsWidth(p);
    var n := w as int / 8;
    if p.opcode in {0xA0, 0xA1} && Accessible(m, address, n, Read) {
      var value := LittleEndian(BytesAt(m.mem, address, n));
      ReadableChecked(m, address, n);
      ReadFits(m, address, w);
      LittleEndianWidth(BytesAt(m.mem, address, n));
      PowWidth(w);
      WritesPart(m.cpu, 0, w, value);
    }
  }

  /** The arms of execute_mov_with_decoded for A0 to A3. */
  method ExecuteMoffs(ctx: CpuContext, p: MoffsParse, address: u64)
    modifies ctx`scalar, ctx`exception, ctx.memMgr`host
    ensures ctx.Whole() == MoffsBody(old(ctx.Whole()), p, address)
  {
    hide Checked, LoadValue, Store, SetReg, Low, Pending;
    var w := MoffsWidth(p);
    if Loads(p) {
      var value := 0;
      if w == 8 {
        value := ReadMemoryByte(ctx, address);
      } else {
        value := ReadMemory(ctx, address, w as int / 8);
      }
      SetRegFrame(ctx.State(), RAX, w, Low(w, value));
      LoadScalar(ctx, SetReg(ctx.State(), RAX, w, Low(w, value)));
    } else if w == 8 {
      WriteMemoryByte(ctx, address, Low(w, Reg(ctx.State(), RAX)));
    } else {
      WriteMemory(ctx, address, w as int / 8, Low(w, Reg(ctx.State(), RAX)));
    }
  }

  function LegacyMoffs(m: Machine, code: seq<byte>): Machine {
    var p, decoded := ParseMoffs(m.cpu.scalar.segments.cs.longMode, code), DecodeMoffs(m.cpu, code);
    if Pending(decoded) then m.(cpu := decoded) else MoffsBody(m.(cpu := decoded), p, MoffsAddress(m.cpu, p))
  }

  /** The probe keeps the address, with the segment base of the state it ran in. */
  function ProbeMoffs(c: Cpu, code: seq<byte>): Option<Captured> {
    var p, decoded := ParseMoffs(c.scalar.segments.cs.longMode, code), DecodeMoffs(c, code);
    if Pending(decoded) || !(0 < decoded.scalar.lastInstSize <= 15) then None
    else
      Some(Captured([p.opcode as int, MoffsAddress(c, p) as int] + PackedPrefixes(p.prefixes),
                    decoded.scalar.lastInstSize))
  }

  /** execute_mov_fast: without a ModRM byte there is nothing to compute again. */
  function ReplayMoffs(m: Machine, captured: Captured): Machine {
    var fields := captured.fields;
    if |fields| != 9 then m
    else
      var p := MoffsParse(PrefixesOf(fields[2..]), None, true, fields[0] % 0x100, 0, captured.length);
      MoffsBody(m.(cpu := StampSize(Stamp(m.cpu, p.prefixes), p.length)), p, Wrap(fields[1]))
  }

  // The entry.

  predicate MoffsCode(mode: nat, code: seq<byte>) {
    var n := PrefixLength(mode, code, 0);
    n < |code| <= 15 && 0xA0 <= code[n] <= 0xA3
  }

  /** The ladder of this instruction set routes A0 to A3 to MOV under the given number. */
  ghost predicate RoutesMoffs(isa: Isa, id: nat) {
    && (forall mode: nat, code: seq<byte> :: MoffsCode(mode, code) ==> RoutedTo(isa, id, mode, code))
    && (forall mode: nat, code: seq<byte>, m: Machine :: MoffsCode(mode, code) ==>
          isa.run(id, code, m) == LegacyMoffs(m, code))
    && (forall mode: nat, code: seq<byte>, c: Cpu :: MoffsCode(mode, code) ==>
          isa.attach(id, code, c) == ProbeMoffs(c, code))
    && (forall captured: Captured, m: Machine :: isa.fast(id, captured, m) == ReplayMoffs(m, captured))
  }

  lemma {:induction false} MoffsRouted(isa: Isa, id: nat, mode: nat, code: seq<byte>)
    requires RoutesMoffs(isa, id) && MoffsCode(mode, code)
    ensures RoutedTo(isa, id, mode, code)
  {
    hide MoffsCode, RoutedTo, LegacyMoffs, ProbeMoffs, ReplayMoffs;
  }

  lemma {:induction false} RoutedMoffs(isa: Isa, id: nat, mode: nat, code: seq<byte>, m: Machine, c: Cpu,
                                       captured: Captured)
    requires RoutesMoffs(isa, id) && MoffsCode(mode, code)
    ensures isa.run(id, code, m) == LegacyMoffs(m, code) && isa.attach(id, code, c) == ProbeMoffs(c, code)
    ensures isa.fast(id, captured, m) == ReplayMoffs(m, captured)
  {
    hide MoffsCode, RoutedTo, LegacyMoffs, ProbeMoffs, ReplayMoffs;
  }

  lemma {:induction false} MoffsEntry(isa: Isa, id: nat, mode: nat, code: seq<byte>)
    requires RoutesMoffs(isa, id) && MoffsCode(mode, code)
    ensures var e := StaticEntry(isa, mode, code);
            && Guarded(e) && e.handler == Opaque(id) && e.bytes == code && e.fast == None && Installable(e)
            && code != [] && e.segmentOverride == PeekSegment(code, PrefixLength(mode, code, 0))
  {
    hide RoutedTo, PrefixLength, RoutesMoffs, StaticEntry, Guarded, Installable, PeekSegment;
    MoffsRouted(isa, id, mode, code);
    GuardedEntry(isa, id, mode, code);
  }

  /** What the parse of such bytes can say. */
  lemma {:induction false} MoffsParsed(mode: nat, longCode: bool, code: seq<byte>)
    requires MoffsCode(mode, code)
    ensures var p := ParseMoffs(longCode, code);
            && p.fault in {None, Some(UD), Some(GP)} && (p.fault == None ==> p.complete && 0 < p.length <= 15)
            && (p.complete ==> 0xA0 <= p.opcode <= 0xA3)
  {
    hide PrefixLength, ScanPrefixes, LittleEndian, AddressSize;
    ScanStopsWherePeekStops(mode, code, 0, NO_PREFIXES, false);
  }

  /** The context in which the body starts. */
  function EnteredMoffs(c: Cpu, p: MoffsParse): Cpu {
    StampSize(Stamp(c, p.prefixes), p.length)
  }

  lemma {:induction false} EnteredKeeps(c: Cpu, p: MoffsParse)
    ensures var t := EnteredMoffs(c, p);
            && Pending(t) == Pending(c) && Is64BitCode(t) == Is64BitCode(c) && t.scalar.cpl == c.scalar.cpl
  {
  }

  /** A decode of such bytes raises what the bytes raise, or else checks the address. */
  lemma {:induction false} MoffsDecodes(c: Cpu, mode: nat, code: seq<byte>)
    requires MoffsCode(mode, code) && !Pending(c)
    ensures var p := ParseMoffs(c.scalar.segments.cs.longMode, code);
            var good := p.fault == None && (Is64BitCode(c) ==> Canonical(MoffsAddress(c, p)));
            && Pending(DecodeMoffs(c, code)) == !good
            && (good ==> DecodeMoffs(c, code) == EnteredMoffs(c, p))
            && (p.fault == None && !good ==>
                  DecodeMoffs(c, code) == Raise(EnteredMoffs(c, p), if MoffsSegment(c) == SegSS then SS else GP, 0))
            && ProbeMoffs(c, code)
               == if good then Some(Captured([p.opcode as int, MoffsAddress(c, p) as int] + PackedPrefixes(p.prefixes),
                                             p.length))
                  else None
  {
    hide MoffsCode, ParseMoffs, Is64BitCode, Canonical, MoffsAddress, MoffsSegment, PackedPrefixes;
    MoffsParsed(mode, c.scalar.segments.cs.longMode, code);
    StampPending(c, ParseMoffs(c.scalar.segments.cs.longMode, code).prefixes);
  }

  lemma {:induction false} CapturedMoffs(m: Machine, p: MoffsParse, address: u64)
    ensures ReplayMoffs(m, Captured([p.opcode as int, address as int] + PackedPrefixes(p.prefixes), p.length))
            == MoffsBody(m.(cpu := EnteredMoffs(m.cpu, p)), p, address)
  {
    hide PackedPrefixes, PrefixesOf, Checked, Store, LoadValue, SetReg;
    var fields := [p.opcode as int, address as int] + PackedPrefixes(p.prefixes);
    assert fields[2..] == PackedPrefixes(p.prefixes);
    PrefixesRoundTrip(p.prefixes);
    WrapWord(address);
  }

  lemma {:induction false} WrapWord(x: u64)
    ensures Wrap(x) == x
  {
  }

  /** What the handler of an entry decoded in c does: if the probe succeeded, the body at the address of c. */
  lemma {:induction false} MoffsRuns(isa: Isa, id: nat, mode: nat, code: seq<byte>, c: Cpu, s: Machine)
    requires RoutesMoffs(isa, id) && MoffsCode(mode, code)
    requires !Pending(c) && SameMode(c, s.cpu)
    ensures var e, p := Attach(isa, StaticEntry(isa, mode, code), c),
            ParseMoffs(s.cpu.scalar.segments.cs.longMode, code);
            && SameStatic(e, StaticEntry(isa, mode, code)) && (e.fast.Some? <==> ProbeMoffs(c, code).Some?)
            && RunHandler(isa, s, e)
               == if ProbeMoffs(c, code).Some?
                  then MoffsBody(s.(cpu := EnteredMoffs(s.cpu, p)), p, MoffsAddress(c, p))
                  else LegacyMoffs(s, code)
  {
    hide *;
    var e0, p := StaticEntry(isa, mode, code), ParseMoffs(s.cpu.scalar.segments.cs.longMode, code);
    var e := Attach(isa, e0, c);
    MoffsEntry(isa, id, mode, code);
    AttachedOther(isa, e0, id, c);
    AttachIsOther(isa, e0, id, c);
    var captured := if e.fast.Some? && e.fast.value.OtherPrepared? then e.fast.value.captured else Captured([], 0);
    RoutedMoffs(isa, id, mode, code, s, c, captured);
    RunsOther(isa, s, e, id);
    UnfoldMode(c, s.cpu);
    MoffsDecodes(c, mode, code);
    MoffsParsed(mode, s.cpu.scalar.segments.cs.longMode, code);
    OtherAttaches(isa, e0, id, c);
    CapturedMoffs(s, p, MoffsAddress(c, p));
  }

  // Two addresses, one result.

  /** What a caller can look up before the step: the same value at both addresses, or both reads fail and give the same
      account of it. */
  predicate LoadsAlike(m: Machine, n: nat, a: u64, b: u64) {
    var i, j := FirstFault(m, a, n, Read), FirstFault(m, b, n, Read);
    if i == n && j == n then LoadValue(m, a, n) == LoadValue(m, b, n)
    else
      && i < n && j < n
      && (if ByteFault(m, a, i, Read) == NonCanonical then ByteFault(m, b, j, Read) == NonCanonical
          else Wrap(a + i) == Wrap(b + j))
  }

  lemma {:induction false} ReadReports(m: Machine, a: u64, b: u64, n: nat)
    requires !Pending(m.cpu) && FirstFault(m, a, n, Read) < n && FirstFault(m, b, n, Read) < n
    ensures SameReport(Checked(m, a, n, Read), Checked(m, b, n, Read)) <==> LoadsAlike(m, n, a, b)
    ensures Pending(Checked(m, a, n, Read).cpu) && Pending(Checked(m, b, n, Read).cpu)
  {
    hide FaultAt, Wrap, FirstFault;
    var i, j := FirstFault(m, a, n, Read), FirstFault(m, b, n, Read);
    UnfoldByteFault(m, a, i, Read);
    UnfoldByteFault(m, b, j, Read);
    assert ByteFault(m, a, i, Read) != NoFault && ByteFault(m, b, j, Read) != NoFault;
  }

  lemma {:induction false} LoadBody(m: Machine, p: MoffsParse, address: u64)
    requires Loads(p) && !Pending(m.cpu)
    ensures var w, n, after := MoffsWidth(p), MoffsWidth(p) as int / 8, MoffsBody(m, p, address);
            var read := Checked(m, address, n, Read);
            && Bounded(m, after) && after.cpu.exception == read.cpu.exception && Pending(after.cpu) == Pending(read.cpu)
            && after.cpu.scalar.controlRegs == read.cpu.scalar.controlRegs
            && (Pending(after.cpu) <==> FirstFault(m, address, n, Read) < n)
            && (!Pending(after.cpu) ==> after == m.(cpu := SetReg(m.cpu, RAX, w, Low(w, LoadValue(m, address, n)))))
  {
    hide Checked, LoadValue, SetReg, Low, MoffsWidth, FirstFault;
    var w, n := MoffsWidth(p), MoffsWidth(p) as int / 8;
    var read := Checked(m, address, n, Read);
    CheckedPends(m, address, n, Read);
    CheckedOnly(m, address, n, Read);
    SetRegFrame(read.cpu, RAX, w, Low(w, LoadValue(m, address, n)));
  }

  /** Exactly then do two loads come to the same. */
  lemma {:induction false} LoadsReport(m: Machine, p: MoffsParse, a: u64, b: u64)
    requires Loads(p) && !Pending(m.cpu)
    ensures SameReport(MoffsBody(m, p, a), MoffsBody(m, p, b)) <==> LoadsAlike(m, MoffsWidth(p) as int / 8, a, b)
  {
    hide Checked, LoadValue, SetReg, Low, MoffsWidth, FirstFault, MoffsBody, GetReg, Pending, ByteFault, Wrap;
    var w, n := MoffsWidth(p), MoffsWidth(p) as int / 8;
    LoadBody(m, p, a);
    LoadBody(m, p, b);
    if FirstFault(m, a, n, Read) < n && FirstFault(m, b, n, Read) < n {
      ReadReports(m, a, b, n);
    } else if FirstFault(m, a, n, Read) == n && FirstFault(m, b, n, Read) == n {
      ReadFits(m, a, w);
      ReadFits(m, b, w);
      RegisterReadsBack(m.cpu, RAX, w, Low(w, LoadValue(m, a, n)));
      RegisterReadsBack(m.cpu, RAX, w, Low(w, LoadValue(m, b, n)));
    }
  }

  lemma {:induction false} LoadsAlikeThere(m: Machine, t: Machine, n: nat, a: u64, b: u64)
    requires t.mem == m.mem && Pending(t.cpu) == Pending(m.cpu)
    requires t.cpu.scalar.cpl == m.cpu.scalar.cpl && Is64BitCode(t.cpu) == Is64BitCode(m.cpu)
    ensures LoadsAlike(t, n, a, b) == LoadsAlike(m, n, a, b)
  {
    hide FirstFault, LoadValue, Pending, Is64BitCode, ByteFault, Wrap;
    SameRead(m, t, a, n);
    SameRead(m, t, b, n);
    SameFaults(m, t, a, n, Read);
    SameFaults(m, t, b, n, Read);
  }

  // Replaying the entry.

  lemma {:induction false} StampedStart(m: Machine, segment: Override, p: MoffsParse)
    ensures var s := WithOverride(m.cpu, segment);
            && Pending(s) == Pending(m.cpu) && SameMode(s, m.cpu) && SameMode(m.cpu, s)
            && ModeBits(s) == ModeBits(m.cpu)
            && s.scalar.segments == m.cpu.scalar.segments && Is64BitCode(s) == Is64BitCode(m.cpu)
            && EnteredMoffs(s, p).scalar.cpl == m.cpu.scalar.cpl
            && Is64BitCode(EnteredMoffs(s, p)) == Is64BitCode(m.cpu) && Pending(EnteredMoffs(s, p)) == Pending(m.cpu)
  {
  }

  /** In 64-bit code both addresses are the bare offset; elsewhere no address is checked. */
  lemma {:induction false} ProbesAlike(a: Cpu, b: Cpu, mode: nat, code: seq<byte>)
    requires ReadyToDecode(a) && ReadyToDecode(b) && SameMode(a, b) && MoffsCode(mode, code)
    ensures ProbeMoffs(a, code).Some? == ProbeMoffs(b, code).Some?
    ensures var p := ParseMoffs(a.scalar.segments.cs.longMode, code);
            Is64BitCode(a) ==> MoffsAddress(a, p) == MoffsAddress(b, p)
  {
    hide MoffsCode, ParseMoffs, Canonical, Wrap, ProbeMoffs, DecodeMoffs;
    SameModeIs64(a, b);
    MoffsDecodes(a, mode, code);
    MoffsDecodes(b, mode, code);
  }

  /** The exact condition for the loads: entries of one MOV decoded in two states make the same step of a machine when
      the addresses those states gave it read the same there. */
  lemma {:induction false} LoadReplaysIff(isa: Isa, id: nat, m: Machine, a: Cpu, b: Cpu, code: seq<byte>)
    requires RoutesMoffs(isa, id) && MoffsCode(ModeBits(m.cpu), code) && ReplaySite(a, b, m, ModeBits(m.cpu))
    requires Loads(ParseMoffs(m.cpu.scalar.segments.cs.longMode, code))
    ensures var p := ParseMoffs(m.cpu.scalar.segments.cs.longMode, code);
            Dispatch(isa, m, DecodeAt(isa, a, code)) == Dispatch(isa, m, DecodeAt(isa, b, code))
            <==> || ProbeMoffs(a, code) == None
                 || LoadsAlike(m, MoffsWidth(p) as int / 8, MoffsAddress(a, p), MoffsAddress(b, p))
  {
    hide *;
    var mode, p := ModeBits(m.cpu), ParseMoffs(m.cpu.scalar.segments.cs.longMode, code);
    var e := StaticEntry(isa, mode, code);
    UnfoldSite(a, b, m, mode);
    UnfoldReady(a);
    UnfoldReady(b);
    UnfoldReady(m.cpu);
    MoffsEntry(isa, id, mode, code);
    MoffsRouted(isa, id, mode, code);
    UnfoldRouted(isa, id, mode, code);
    UnfoldDecodeAt(isa, a, code);
    UnfoldDecodeAt(isa, b, code);
    var x, y := Attach(isa, e, a), Attach(isa, e, b);
    var s := m.(cpu := WithOverride(m.cpu, e.segmentOverride));
    StampedStart(m, e.segmentOverride, p);
    OverrideMode(a, m.cpu, e.segmentOverride);
    OverrideMode(b, m.cpu, e.segmentOverride);
    MoffsRuns(isa, id, mode, code, a, s);
    MoffsRuns(isa, id, mode, code, b, s);
    ProbesAlike(a, b, mode, code);
    GuardedFields(x, e);
    GuardedFields(y, e);
    var t := s.(cpu := EnteredMoffs(s.cpu, p));
    if ProbeMoffs(a, code).Some? {
      LoadBody(t, p, MoffsAddress(a, p));
      LoadBody(t, p, MoffsAddress(b, p));
      StepsApart(isa, m, x, y, t, t);
      LoadsReport(t, p, MoffsAddress(a, p), MoffsAddress(b, p));
      LoadsAlikeThere(m, t, MoffsWidth(p) as int / 8, MoffsAddress(a, p), MoffsAddress(b, p));
    } else {
      SameRun(isa, m, x, y);
    }
  }

  lemma {:induction false} SameRun(isa: Isa, m: Machine, a: Entry, b: Entry)
    requires Guarded(a) && SameStatic(a, b)
    requires var s := m.(cpu := WithOverride(m.cpu, a.segmentOverride)); RunHandler(isa, s, a) == RunHandler(isa, s, b)
    ensures Dispatch(isa, m, a) == Dispatch(isa, m, b)
  {
    hide RunHandler, Pending;
  }

  lemma {:induction false} LatentData(mode: nat, code: seq<byte>, a: Cpu, b: Cpu)
    requires MoffsCode(mode, code) && ModeBits(a) == mode && ModeBits(b) == mode
    requires Latent(code, a) == Latent(code, b) && Is64BitCode(a) == Is64BitCode(b)
    ensures Is64BitCode(a) || a.scalar.segments.ds.base == b.scalar.segments.ds.base
  {
    hide PrefixLength, ModeBits, Is64BitCode;
  }

  lemma {:induction false} SameBaseSameAddress(a: Cpu, b: Cpu, p: MoffsParse)
    requires ReadyToDecode(a) && ReadyToDecode(b) && a.scalar.segments.ds.base == b.scalar.segments.ds.base
    requires Is64BitCode(a) == Is64BitCode(b)
    ensures MoffsAddress(a, p) == MoffsAddress(b, p)
  {
    hide Is64BitCode, Wrap;
  }

  /** The direct forms meet the contract of the handlers the step machine leaves open: where the base of DS agreed,
      entries replay, stores included. */
  lemma {:induction false} MoffsReplays(isa: Isa, id: nat, mode: nat, code: seq<byte>)
    requires RoutesMoffs(isa, id) && MoffsCode(mode, code)
    ensures Replays(isa, mode, code)
  {
    hide SameOutcome, RunHandler, Attach, WithOverride, ReplaySite, StaticEntry, RoutesMoffs, MoffsCode, Latent;
    forall a: Cpu, b: Cpu, m: Machine | ReplaySite(a, b, m, mode) && Latent(code, a) == Latent(code, b)
      ensures var e := StaticEntry(isa, mode, code);
              var s := m.(cpu := WithOverride(m.cpu, e.segmentOverride));
              SameOutcome(e, RunHandler(isa, s, Attach(isa, e, a)), RunHandler(isa, s, Attach(isa, e, b)))
    {
      MoffsReplay(isa, id, mode, code, a, b, m);
    }
  }

  lemma {:induction false} MoffsReplay(isa: Isa, id: nat, mode: nat, code: seq<byte>, a: Cpu, b: Cpu, m: Machine)
    requires RoutesMoffs(isa, id) && MoffsCode(mode, code)
    requires ReplaySite(a, b, m, mode) && Latent(code, a) == Latent(code, b)
    ensures var e := StaticEntry(isa, mode, code);
            var s := m.(cpu := WithOverride(m.cpu, e.segmentOverride));
            SameOutcome(e, RunHandler(isa, s, Attach(isa, e, a)), RunHandler(isa, s, Attach(isa, e, b)))
  {
    hide *;
    var e, p := StaticEntry(isa, mode, code), ParseMoffs(m.cpu.scalar.segments.cs.longMode, code);
    UnfoldSite(a, b, m, mode);
    UnfoldReady(a);
    UnfoldReady(b);
    var s := m.(cpu := WithOverride(m.cpu, e.segmentOverride));
    StampedStart(m, e.segmentOverride, p);
    OverrideMode(a, m.cpu, e.segmentOverride);
    OverrideMode(b, m.cpu, e.segmentOverride);
    MoffsRuns(isa, id, mode, code, a, s);
    MoffsRuns(isa, id, mode, code, b, s);
    ProbesAlike(a, b, mode, code);
    SameModeIs64(a, b);
    UnfoldMode(a, m.cpu);
    LatentData(mode, code, a, b);
    if !Is64BitCode(a) {
      SameBaseSameAddress(a, b, p);
    }
    Replay.UnfoldOutcome(e, RunHandler(isa, s, Attach(isa, e, a)), RunHandler(isa, s, Attach(isa, e, b)));
  }

  // The prefix that gets lost.

  lemma {:induction false} LegacyLoads(s: Machine, mode: nat, code: seq<byte>)
    requires MoffsCode(mode, code) && !Pending(s.cpu)
    requires var p := ParseMoffs(s.cpu.scalar.segments.cs.longMode, code); Loads(p) && p.fault == None
    requires MoffsSegment(s.cpu) == SegSS && Is64BitCode(s.cpu) ==>
               Canonical(MoffsAddress(s.cpu, ParseMoffs(s.cpu.scalar.segments.cs.longMode, code)))
    ensures var p := ParseMoffs(s.cpu.scalar.segments.cs.longMode, code);
            var t, after := s.(cpu := EnteredMoffs(s.cpu, p)), LegacyMoffs(s, code);
            var body := MoffsBody(t, p, MoffsAddress(s.cpu, p));
            && Bounded(t, after) && Pending(after.cpu) == Pending(body.cpu)
            && (if Pending(body.cpu) then
                  after.cpu.exception == body.cpu.exception
                  && after.cpu.scalar.controlRegs == body.cpu.scalar.controlRegs
                else after == body)
  {
    hide MoffsBody, MoffsCode, ParseMoffs, DecodeMoffs, Canonical, MoffsAddress, MoffsSegment, Is64BitCode, Bounded,
      FirstFault, EnteredMoffs, Loads;
    var p := ParseMoffs(s.cpu.scalar.segments.cs.longMode, code);
    var t, address := s.(cpu := EnteredMoffs(s.cpu, p)), MoffsAddress(s.cpu, p);
    MoffsDecodes(s.cpu, mode, code);
    EnteredKeeps(s.cpu, p);
    LoadBody(t, p, address);
    if Is64BitCode(s.cpu) && !Canonical(address) {
      NonCanonicalRead(t, address, MoffsWidth(p) as int / 8);
      RaisedOnly(t);
    }
  }

  lemma {:induction false} NonCanonicalRead(m: Machine, address: u64, n: nat)
    requires !Pending(m.cpu) && Is64BitCode(m.cpu) && !Canonical(address) && n > 0
    ensures var read := Checked(m, address, n, Read);
            read.cpu.exception == Exception(GP, 0) && read.cpu.scalar.controlRegs == m.cpu.scalar.controlRegs
  {
    hide Canonical, Lookup, FirstFault;
    assert ByteFault(m, address, 0, Read) == NonCanonical;
    assert FirstFault(m, address, n, Read) == 0;
  }

  lemma {:induction false} RaisedOnly(m: Machine)
    requires !Pending(m.cpu)
    ensures var raised := Raise(m.cpu, GP, 0);
            && Pending(raised) && Bounded(m, m.(cpu := raised)) && raised.exception == Exception(GP, 0)
            && raised.scalar == m.cpu.scalar
  {
    assert m.cpu.scalar.controlRegs[2 := m.cpu.scalar.controlRegs[2]] == m.cpu.scalar.controlRegs;
  }

  /** In 64-bit code only FS and GS have a base. */
  lemma {:induction false} FlatStack(c: Cpu, d: Cpu, p: MoffsParse)
    requires Is64BitCode(c) && Is64BitCode(d) && ReadyToDecode(c) && MoffsSegment(d) == SegSS
    ensures MoffsAddress(d, p) == MoffsAddress(c, p)
  {
    hide Is64BitCode, Wrap;
  }

  lemma {:induction false} ReportThrough(x: Machine, y: Machine, z: Machine)
    requires Pending(y.cpu) == Pending(z.cpu)
    requires if Pending(y.cpu) then y.cpu.exception == z.cpu.exception
                                    && y.cpu.scalar.controlRegs == z.cpu.scalar.controlRegs
             else y == z
    ensures SameReport(x, y) == SameReport(x, z)
  {
  }

  /** Even the first run of a fresh entry: the fast handler takes the address without the segment prefix, the legacy
      handler with it. A load makes the same step either way exactly when both addresses read the same. */
  lemma {:induction false} PrefixDroppedIff(isa: Isa, id: nat, m: Machine, code: seq<byte>)
    requires RoutesMoffs(isa, id) && MoffsCode(ModeBits(m.cpu), code) && ReadyToDecode(m.cpu)
    requires Loads(ParseMoffs(m.cpu.scalar.segments.cs.longMode, code)) && ProbeMoffs(m.cpu, code).Some?
    ensures var e, p := DecodeAt(isa, m.cpu, code), ParseMoffs(m.cpu.scalar.segments.cs.longMode, code);
            && e.fast.Some?
            && (Dispatch(isa, m, e) == Dispatch(isa, m, e.(fast := None))
                <==> LoadsAlike(m, MoffsWidth(p) as int / 8, Wrap(p.offset + SegmentBase(m.cpu, SegDS)),
                              MoffsAddress(WithOverride(m.cpu, e.segmentOverride), p)))
  {
    hide *;
    var mode, p := ModeBits(m.cpu), ParseMoffs(m.cpu.scalar.segments.cs.longMode, code);
    var e0 := StaticEntry(isa, mode, code);
    UnfoldReady(m.cpu);
    MoffsEntry(isa, id, mode, code);
    MoffsRouted(isa, id, mode, code);
    UnfoldRouted(isa, id, mode, code);
    UnfoldDecodeAt(isa, m.cpu, code);
    var x := Attach(isa, e0, m.cpu);
    var y := x.(fast := None);
    var s := m.(cpu := WithOverride(m.cpu, e0.segmentOverride));
    StampedStart(m, e0.segmentOverride, p);
    MoffsRuns(isa, id, mode, code, m.cpu, s);
    AttachedOther(isa, e0, id, m.cpu);
    LegacyTwin(x, e0);
    RunsOther(isa, s, y, id);
    RoutedMoffs(isa, id, mode, code, s, m.cpu, Captured([], 0));
    MoffsDecodes(m.cpu, mode, code);
    FlatAddress(m.cpu, p);
    if MoffsSegment(s.cpu) == SegSS && Is64BitCode(m.cpu) {
      FlatStack(m.cpu, s.cpu, p);
    }
    LegacyLoads(s, mode, code);
    var t := s.(cpu := EnteredMoffs(s.cpu, p));
    var bare, full := MoffsAddress(m.cpu, p), MoffsAddress(s.cpu, p);
    LoadBody(t, p, bare);
    StepsApart(isa, m, x, y, t, t);
    ReportThrough(RunHandler(isa, s, x), LegacyMoffs(s, code), MoffsBody(t, p, full));
    LoadsReport(t, p, bare, full);
    LoadsAlikeThere(m, t, MoffsWidth(p) as int / 8, bare, full);
  }

  lemma {:induction false} LegacyTwin(x: Entry, e: Entry)
    requires SameStatic(x, e) && Guarded(e)
    ensures var y := x.(fast := None);
            && Guarded(x) && SameStatic(x, y) && x.segmentOverride == e.segmentOverride
            && y.handler == x.handler && y.bytes == x.bytes
  {
  }

  lemma {:induction false} FlatAddress(c: Cpu, p: MoffsParse)
    requires ReadyToDecode(c)
    ensures MoffsAddress(c, p) == Wrap(p.offset + SegmentBase(c, SegDS))
  {
    hide Wrap, SegmentBase;
  }
}
