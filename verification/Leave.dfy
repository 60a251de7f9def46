/** LEAVE: an instruction whose decoder keeps the stack size it found, and when a later run of the entry shows it. */
module Leave {
  import opened Bits
  import opened MemoryManagement
  import opened CpuState
  import opened LinearMemory
  import opened Stack
  import opened Flags
  import opened Addressing
  import opened RegisterParts
  import opened AluDecode
  import opened AluExecute
  import opened Decoder
  import opened Executor
  import opened Replay
  import opened PreciseSteps
  import opened OpenedEntries

  // Decoding.

  /** What the bytes say: prefixes, the fault of decoding if any, and the length when the decoder gets that far. */
  datatype LeaveParse = LeaveParse(prefixes: Prefixes, fault: Option<ExceptionCode>, complete: bool, length: nat)

  function ParseLeave(rex: bool, code: seq<byte>): LeaveParse {
    var scan := ScanModal(rex, code, 0, NO_PREFIXES, false);
    if scan.offset >= |code| then LeaveParse(scan.prefixes, Some(GP), false, 0)
    else LeaveParse(scan.prefixes, When(code[scan.offset] != 0xC9 || scan.lock, UD), true, scan.offset + 1)
  }

  function DecodeLeave(c: Cpu, code: seq<byte>): Cpu {
    var p := ParseLeave(Is64BitCode(c), code);
    var raised := RaiseAny(Stamp(c, p.prefixes), p.fault);
    if p.complete then StampSize(raised, p.length) else raised
  }

  function LeaveOperandSize(c: Cpu, p: Prefixes): (w: Width)
    ensures w == 16 || w == 32 || w == 64
  {
    if p.operandSize then 16 else if Is64BitCode(c) then 64 else 32
  }

  /** The width of the frame and stack pointers: outside 64-bit code SS.B decides. */
  function LeaveStackSize(c: Cpu, p: Prefixes): (w: Width)
    ensures w == 16 || w == 32 || w == 64
  {
    if Is64BitCode(c) then (if p.addressSize then 32 else 64)
    else if c.scalar.segments.ss.db != p.addressSize then 32
    else 16
  }

  /** decode_leave_instruction. */
  method DecodeLeaveInstruction(ctx: CpuContext, code: seq<byte>) returns (operandSize: Width, stackSize: Width)
    modifies ctx`exception, ctx`scalar
    ensures ctx.State() == DecodeLeave(old(ctx.State()), code)
    ensures var p := ParseLeave(Is64BitCode(old(ctx.State())), code);
            p.complete ==> operandSize == LeaveOperandSize(old(ctx.State()), p.prefixes)
                           && stackSize == LeaveStackSize(old(ctx.State()), p.prefixes)
  {
    hide WithPrefix;
    ghost var c := ctx.State();
    var rex := Is64BitCode(ctx.State());
    SetPrefixes(ctx, NO_PREFIXES);
    var lock, offset := false, 0;
    while offset < |code| && (LegacyPrefix(code[offset]) || (rex && 0x40 <= code[offset] <= 0x4F))
      invariant 0 <= offset <= |code|
      invariant ctx.State() == Stamp(c, ctx.scalar.prefixes)
      invariant ScanModal(rex, code, offset, ctx.scalar.prefixes, lock) == ScanModal(rex, code, 0, NO_PREFIXES, false)
    {
      lock := lock || code[offset] == 0xF0;
      SetPrefixes(ctx, WithPrefix(ctx.scalar.prefixes, code[offset]));
      offset := offset + 1;
    }
    operandSize, stackSize := 32, 32;
    if offset >= |code| {
      ctx.RaiseException(GP, 0);
      return;
    }
    if code[offset] != 0xC9 {
      ctx.RaiseException(UD, 0);
    }
    if lock {
      ctx.RaiseException(UD, 0);
    }
    operandSize := LeaveOperandSize(ctx.State(), ctx.scalar.prefixes);
    stackSize := LeaveStackSize(ctx.State(), ctx.scalar.prefixes);
    SetSize(ctx, offset + 1);
  }

  // Executing.

  /** The bits of RSP above the stack width stay. */
  function WithStackPointer(c: Cpu, w: Width, pointer: nat): Cpu {
    WithReg(c, RSP, Wrap(Reg(c, RSP) - Low(w, Reg(c, RSP)) + pointer))
  }

  /** execute_leave_with_decoded: read at the frame pointer, then set both pointers. */
  function LeaveBody(m: Machine, operandSize: Width, stackSize: Width): Machine {
    var frame, n := Low(stackSize, Reg(m.cpu, RBP)), operandSize as int / 8;
    if operandSize == 64 && stackSize == 16 then m.(cpu := Raise(m.cpu, GP, 0))
    else
      var loaded := Checked(m, frame, n, Read);
      if Pending(loaded.cpu) then loaded
      else
        var value := LoadValue(m, frame, n);
        loaded.(cpu := SetReg(WithStackPointer(loaded.cpu, stackSize, Low(stackSize, frame + n)), RBP, operandSize,
                              Low(operandSize, value)))
  }

  /** LEAVE in numbers: the frame pointer is RBP at the stack width s; the low s bits of RSP become the address behind
      the value there and the bits above them stay, RBP takes the value at the operand size, and nothing else changes.
      In 64-bit code RSP is RBP plus the operand size. */
  lemma {:induction false} LeaveMoves(m: Machine, operandSize: Width, s: Width)
    requires operandSize != 8 && s != 8 && !(operandSize == 64 && s == 16)
    requires Accessible(m, Low(s, m.cpu.scalar.regs[5]), operandSize as int / 8, Read)
    ensures var n, rbp := operandSize as int / 8, m.cpu.scalar.regs[5];
            var newRsp := LowReplaced(m.cpu.scalar.regs[4], s, Low(s, Low(s, rbp) + n));
            var newRbp := Replaced(rbp, operandSize, false, LittleEndian(BytesAt(m.mem, Low(s, rbp), n)));
            var after := LeaveBody(m, operandSize, s);
            && after.cpu.scalar.regs[4] == newRsp && after.cpu.scalar.regs[5] == newRbp
            && (s == 64 ==> newRsp == (rbp + n) % 0x1_0000_0000_0000_0000)
            && after == m.(cpu := WithReg(WithReg(m.cpu, 4, after.cpu.scalar.regs[4]), 5, after.cpu.scalar.regs[5]))
  {
    hide *;
    var n, rbp := operandSize as int / 8, m.cpu.scalar.regs[5];
    var frame := Low(s, rbp);
    NotPendingWhen(m, frame, n);
    CheckedPends(m, frame, n, Read);
    UnfoldLeave(m, operandSize, s, frame);
    ReadableAt(m, frame, operandSize);
    BothPointers(m.cpu, s, Low(s, frame + n), operandSize, LittleEndian(BytesAt(m.mem, frame, n)));
    FlatModulus(s, rbp, n);
  }

  lemma {:induction false} NotPendingWhen(m: Machine, address: u64, n: nat)
    requires Accessible(m, address, n, Read)
    ensures !Pending(m.cpu)
  {
  }

  /** It faults as its one read does, and the qword form on a 16-bit stack always. */
  lemma {:induction false} LeaveFaults(m: Machine, operandSize: Width, s: Width)
    requires operandSize != 8 && s != 8 && !Pending(m.cpu)
    ensures operandSize == 64 && s == 16 ==>
              LeaveBody(m, operandSize, s) == m.(cpu := m.cpu.(exception := Exception(GP, 0)))
    ensures !(operandSize == 64 && s == 16)
            && !Accessible(m, Low(s, m.cpu.scalar.regs[5]), operandSize as int / 8, Read) ==>
              LeaveBody(m, operandSize, s)
              == Checked(m, Low(s, m.cpu.scalar.regs[5]), operandSize as int / 8, Read)
  {
    hide Checked, Accessible, LoadValue, SetReg, WithStackPointer, Low;
    CheckedPends(m, Low(s, m.cpu.scalar.regs[5]), operandSize as int / 8, Read);
  }

  lemma {:induction false} ReadableAt(m: Machine, frame: u64, w: Width)
    requires Checked(m, frame, w as int / 8, Read) == m && !Pending(m.cpu)
    ensures var value := LittleEndian(BytesAt(m.mem, frame, w as int / 8));
            && Accessible(m, frame, w as int / 8, Read) && value < Modulus(w)
            && Low(w, LoadValue(m, frame, w as int / 8)) == value
  {
    hide Checked, Accessible, LittleEndian, BytesAt, Modulus, Pow2;
    CheckedPends(m, frame, w as int / 8, Read);
    ReadFits(m, frame, w);
    LittleEndianWidth(BytesAt(m.mem, frame, w as int / 8));
    PowWidth(w);
  }

  lemma {:induction false} BothPointers(c: Cpu, s: Width, pointer: nat, w: Width, value: nat)
    requires s != 8 && pointer < Modulus(s) && w != 8 && value < Modulus(w)
    ensures var newRsp := LowReplaced(c.scalar.regs[4], s, pointer);
            var newRbp := Replaced(c.scalar.regs[5], w, false, value);
            && 0 <= newRsp < 0x1_0000_0000_0000_0000 && 0 <= newRbp < 0x1_0000_0000_0000_0000
            && (s == 64 ==> newRsp == pointer)
            && SetReg(WithStackPointer(c, s, pointer), RBP, w, value)
               == WithReg(WithReg(c, 4, newRsp), 5, newRbp)
            && WithReg(WithReg(c, 4, newRsp), 5, newRbp).scalar.regs[4] == newRsp
            && WithReg(WithReg(c, 4, newRsp), 5, newRbp).scalar.regs[5] == newRbp
  {
    hide SetReg, Modulus, Replaced, LowReplaced, WithStackPointer;
    PointerMoves(c, s, pointer);
    WritesPart(WithStackPointer(c, s, pointer), 5, w, value);
  }

  lemma {:induction false} UnfoldLeave(m: Machine, operandSize: Width, s: Width, frame: u64)
    requires frame == Low(s, m.cpu.scalar.regs[5]) && !(operandSize == 64 && s == 16)
    requires Checked(m, frame, operandSize as int / 8, Read) == m && !Pending(m.cpu)
    ensures var n := operandSize as int / 8;
            LeaveBody(m, operandSize, s)
            == m.(cpu := SetReg(WithStackPointer(m.cpu, s, Low(s, frame + n)), RBP, operandSize,
                                Low(operandSize, LoadValue(m, frame, n))))
  {
    hide Checked, LoadValue, SetReg, WithStackPointer, Low;
  }

  lemma {:induction false} FlatModulus(s: Width, rbp: u64, n: nat)
    ensures s == 64 ==> Low(s, Low(s, rbp) + n) == (rbp + n) % 0x1_0000_0000_0000_0000
  {
  }

  lemma {:induction false} PointerMoves(c: Cpu, s: Width, pointer: nat)
    requires s != 8 && pointer < Modulus(s)
    ensures var next := LowReplaced(c.scalar.regs[4], s, pointer);
            && 0 <= next < 0x1_0000_0000_0000_0000 && (s == 64 ==> next == pointer)
            && WithStackPointer(c, s, pointer) == c.(scalar := c.scalar.(regs := c.scalar.regs[4 := next]))
  {
    hide Modulus, LowReplaced, Wrap;
    LowReplacedIs(c.scalar.regs[4], s, pointer);
  }

  method ExecuteLeave(ctx: CpuContext, operandSize: Width, stackSize: Width)
    requires operandSize == 16 || operandSize == 32 || operandSize == 64
    modifies ctx`scalar, ctx`exception
    ensures ctx.Whole() == LeaveBody(old(ctx.Whole()), operandSize, stackSize)
  {
    hide Checked, LoadValue, Low, Wrap, SetReg, Pending;
    var frame := Low(stackSize, Reg(ctx.State(), RBP));
    if operandSize == 64 && stackSize == 16 {
      ctx.RaiseException(GP, 0);
      return;
    }
    var value := ReadMemory(ctx, frame, operandSize / 8);
    if Pending(ctx.State()) {
      return;
    }
    var moved := WithStackPointer(ctx.State(), stackSize, Low(stackSize, frame + operandSize / 8));
    LoadScalar(ctx, moved);
    var low := Low(operandSize, value);
    SetRegFrame(ctx.State(), RBP, operandSize, low);
    LoadScalar(ctx, SetReg(ctx.State(), RBP, operandSize, low));
  }

  function LegacyLeave(m: Machine, code: seq<byte>): Machine {
    var p, decoded := ParseLeave(Is64BitCode(m.cpu), code).prefixes, DecodeLeave(m.cpu, code);
    if Pending(decoded) then m.(cpu := decoded)
    else LeaveBody(m.(cpu := decoded), LeaveOperandSize(m.cpu, p), LeaveStackSize(m.cpu, p))
  }

  /** The probe keeps both sizes. */
  function ProbeLeave(c: Cpu, code: seq<byte>): Option<Captured> {
    var p, decoded := ParseLeave(Is64BitCode(c), code).prefixes, DecodeLeave(c, code);
    if Pending(decoded) || !(0 < decoded.scalar.lastInstSize <= 15) then None
    else
      Some(Captured([LeaveOperandSize(c, p) as int, LeaveStackSize(c, p) as int] + PackedPrefixes(p),
                    decoded.scalar.lastInstSize))
  }

  /** execute_leave_fast: the sizes are those of the probe. */
  function FastLeave(m: Machine, operandSize: Width, stackSize: Width, p: Prefixes, length: nat): Machine {
    LeaveBody(m.(cpu := StampSize(Stamp(m.cpu, p), length)), operandSize, stackSize)
  }

  function WidthOf(x: int): Width {
    if x == 8 || x == 16 || x == 32 then x else 64
  }

  function ReplayLeave(m: Machine, captured: Captured): Machine {
    var fields := captured.fields;
    if |fields| != 9 then m
    else FastLeave(m, WidthOf(fields[0]), WidthOf(fields[1]), PrefixesOf(fields[2..]), captured.length)
  }

  // The entry.

  predicate LeaveCode(mode: nat, code: seq<byte>) {
    var n := PrefixLength(mode, code, 0);
    n < |code| <= 15 && code[n] == 0xC9
  }

  /** The ladder of this instruction set routes C9 to LEAVE under the given number. */
  ghost predicate RoutesLeave(isa: Isa, id: nat) {
    && (forall mode: nat, code: seq<byte> :: LeaveCode(mode, code) ==> RoutedTo(isa, id, mode, code))
    && (forall mode: nat, code: seq<byte>, m: Machine :: LeaveCode(mode, code) ==>
          isa.run(id, code, m) == LegacyLeave(m, code))
    && (forall mode: nat, code: seq<byte>, c: Cpu :: LeaveCode(mode, code) ==>
          isa.attach(id, code, c) == ProbeLeave(c, code))
    && (forall captured: Captured, m: Machine :: isa.fast(id, captured, m) == ReplayLeave(m, captured))
  }

  lemma {:induction false} LeaveRouted(isa: Isa, id: nat, mode: nat, code: seq<byte>)
    requires RoutesLeave(isa, id) && LeaveCode(mode, code)
    ensures RoutedTo(isa, id, mode, code)
  {
    hide LeaveCode, RoutedTo, LegacyLeave, ProbeLeave, ReplayLeave;
  }

  lemma {:induction false} RoutedLeave(isa: Isa, id: nat, mode: nat, code: seq<byte>, m: Machine, c: Cpu,
                                       captured: Captured)
    requires RoutesLeave(isa, id) && LeaveCode(mode, code)
    ensures RoutedTo(isa, id, mode, code) && isa.run(id, code, m) == LegacyLeave(m, code)
    ensures isa.attach(id, code, c) == ProbeLeave(c, code) && isa.fast(id, captured, m) == ReplayLeave(m, captured)
  {
    hide LeaveCode, RoutedTo, LegacyLeave, ProbeLeave, ReplayLeave;
  }

  lemma {:induction false} LeaveEntry(isa: Isa, id: nat, mode: nat, code: seq<byte>)
    requires RoutesLeave(isa, id) && LeaveCode(mode, code)
    ensures var e := StaticEntry(isa, mode, code);
            Guarded(e) && e.handler == Opaque(id) && e.bytes == code && e.fast == None && Installable(e) && code != []
  {
    hide RoutedTo, PrefixLength, RoutesLeave, StaticEntry, Guarded, Installable;
    LeaveRouted(isa, id, mode, code);
    GuardedEntry(isa, id, mode, code);
  }

  /** LEAVE bytes decode to the end, and only LOCK makes them fault. */
  lemma {:induction false} LeaveParsed(mode: nat, code: seq<byte>)
    requires LeaveCode(mode, code)
    ensures var p, scan := ParseLeave(RexAllowed(mode), code), ScanModal(RexAllowed(mode), code, 0, NO_PREFIXES, false);
            && p == LeaveParse(scan.prefixes, When(scan.lock, UD), true, p.length) && 0 < p.length <= 15
  {
    hide PrefixLength, ScanModal;
    ModalStops(mode, code, 0, NO_PREFIXES, false);
  }

  /** The context in which the body starts. */
  function EnteredLeave(c: Cpu, p: LeaveParse): Cpu {
    StampSize(Stamp(c, p.prefixes), p.length)
  }

  lemma {:induction false} EnteredFrame(c: Cpu, p: LeaveParse)
    ensures var t := EnteredLeave(c, p);
            && Pending(t) == Pending(c) && Is64BitCode(t) == Is64BitCode(c) && t.scalar.cpl == c.scalar.cpl
            && t.scalar.regs == c.scalar.regs
            && t.scalar.segments == c.scalar.segments
  {
  }

  /** Nothing pending, no LOCK: the probe succeeds and keeps the sizes of the state it ran in. */
  lemma {:induction false} ProbeKeepsSizes(c: Cpu, mode: nat, code: seq<byte>)
    requires LeaveCode(mode, code) && !Pending(c) && ModeBits(c) == mode
    ensures var p := ParseLeave(RexAllowed(mode), code);
            && (p.fault == None ==>
                  DecodeLeave(c, code) == EnteredLeave(c, p)
                  && ProbeLeave(c, code)
                     == Some(Captured([LeaveOperandSize(c, p.prefixes) as int, LeaveStackSize(c, p.prefixes) as int]
                                      + PackedPrefixes(p.prefixes), p.length)))
            && (p.fault != None ==> ProbeLeave(c, code) == None && Pending(DecodeLeave(c, code)))
  {
    hide LeaveCode, ParseLeave, Is64BitCode, LeaveOperandSize, LeaveStackSize, PackedPrefixes, ModeBits;
    RexIn64(c);
    LeaveParsed(mode, code);
  }

  lemma {:induction false} ReplaysSizes(m: Machine, operandSize: Width, stackSize: Width, p: LeaveParse)
    requires operandSize != 8 && stackSize != 8
    ensures ReplayLeave(m, Captured([operandSize as int, stackSize as int] + PackedPrefixes(p.prefixes), p.length))
            == LeaveBody(m.(cpu := EnteredLeave(m.cpu, p)), operandSize, stackSize)
  {
    hide LeaveBody, PackedPrefixes, PrefixesOf;
    var fields := [operandSize as int, stackSize as int] + PackedPrefixes(p.prefixes);
    assert fields[2..] == PackedPrefixes(p.prefixes);
    PrefixesRoundTrip(p.prefixes);
  }

  /** What the handler of an entry decoded in c does: with LOCK it raises #UD; without, it runs the body with the stack
      size of c. */
  lemma {:induction false} LeaveRuns(isa: Isa, id: nat, mode: nat, code: seq<byte>, c: Cpu, s: Machine)
    requires RoutesLeave(isa, id) && LeaveCode(mode, code)
    requires !Pending(c) && !Pending(s.cpu) && ModeBits(c) == mode && ModeBits(s.cpu) == mode
    ensures var e, p := Attach(isa, StaticEntry(isa, mode, code), c), ParseLeave(RexAllowed(mode), code);
            && SameStatic(e, StaticEntry(isa, mode, code))
            && RunHandler(isa, s, e)
               == if p.fault != None then s.(cpu := DecodeLeave(s.cpu, code))
                  else LeaveBody(s.(cpu := EnteredLeave(s.cpu, p)), LeaveOperandSize(s.cpu, p.prefixes),
                                 LeaveStackSize(c, p.prefixes))
  {
    hide *;
    var e0, p := StaticEntry(isa, mode, code), ParseLeave(RexAllowed(mode), code);
    var e := Attach(isa, e0, c);
    LeaveEntry(isa, id, mode, code);
    AttachedOther(isa, e0, id, c);
    AttachIsOther(isa, e0, id, c);
    var captured := if e.fast.Some? && e.fast.value.OtherPrepared? then e.fast.value.captured else Captured([], 0);
    RoutedLeave(isa, id, mode, code, s, c, captured);
    RunsOther(isa, s, e, id);
    LeaveParsed(mode, code);
    ProbeKeepsSizes(c, mode, code);
    ProbeKeepsSizes(s.cpu, mode, code);
    OtherAttaches(isa, e0, id, c);
    ModeBitsDecide(c, s.cpu);
    SameModeIs64(c, s.cpu);
    if p.fault == None {
      SameOperandSize(c, s.cpu, p.prefixes);
      ReplaysSizes(s, LeaveOperandSize(c, p.prefixes), LeaveStackSize(c, p.prefixes), p);
    } else {
      LegacyFaults(s, code);
    }
  }

  lemma {:induction false} SameOperandSize(c: Cpu, d: Cpu, p: Prefixes)
    requires Is64BitCode(c) == Is64BitCode(d)
    ensures LeaveOperandSize(c, p) == LeaveOperandSize(d, p)
  {
    hide Is64BitCode;
  }

  lemma {:induction false} LegacyFaults(m: Machine, code: seq<byte>)
    requires Pending(DecodeLeave(m.cpu, code))
    ensures LegacyLeave(m, code) == m.(cpu := DecodeLeave(m.cpu, code))
  {
    hide DecodeLeave, ParseLeave, Pending, LeaveBody;
  }

  // Two stack sizes, one result.

  /** What a caller can look up before the step: with a 16-bit and a 32-bit frame pointer the same value is read and
      the same RSP comes out, or both reads fail at the same address. */
  predicate Indifferent(m: Machine, n: nat) {
    var narrow, wide := Low(16, Reg(m.cpu, RBP)), Low(32, Reg(m.cpu, RBP));
    if Accessible(m, narrow, n, Read) && Accessible(m, wide, n, Read) then
      && LoadValue(m, narrow, n) == LoadValue(m, wide, n)
      && Low(32, wide + n) / 0x1_0000 == Low(32, Reg(m.cpu, RSP)) / 0x1_0000
    else narrow == wide
  }

  lemma {:induction false} BodyFaults(m: Machine, operandSize: Width, stackSize: Width)
    requires !Pending(m.cpu) && operandSize in {16, 32}
    ensures var frame, n := Low(stackSize, Reg(m.cpu, RBP)), operandSize as int / 8;
            var after := LeaveBody(m, operandSize, stackSize);
            && (Pending(after.cpu) <==> !Accessible(m, frame, n, Read))
            && (!Accessible(m, frame, n, Read) ==> after == Checked(m, frame, n, Read))
            && (Accessible(m, frame, n, Read) ==>
                  after == m.(cpu := SetReg(WithStackPointer(m.cpu, stackSize, Low(stackSize, frame + n)), RBP,
                                            operandSize, Low(operandSize, LoadValue(m, frame, n)))))
  {
    hide Accessible, Checked, LoadValue, SetReg, Low, Wrap, Pending;
    var frame, n := Low(stackSize, Reg(m.cpu, RBP)), operandSize as int / 8;
    CheckedPends(m, frame, n, Read);
    if Accessible(m, frame, n, Read) {
      var c := WithStackPointer(m.cpu, stackSize, Low(stackSize, frame + n));
      SetRegFrame(c, RBP, operandSize, Low(operandSize, LoadValue(m, frame, n)));
      RegistersOnly(m.cpu, c, SetReg(c, RBP, operandSize, Low(operandSize, LoadValue(m, frame, n))));
    }
  }

  lemma {:induction false} RegistersOnly(c: Cpu, mid: Cpu, after: Cpu)
    requires mid == c.(scalar := c.scalar.(regs := mid.scalar.regs))
    requires after == mid.(scalar := mid.scalar.(regs := after.scalar.regs))
    ensures Pending(after) == Pending(c) && after == c.(scalar := c.scalar.(regs := after.scalar.regs))
  {
  }

  lemma {:induction false} BodyBounded(m: Machine, operandSize: Width, stackSize: Width)
    requires !Pending(m.cpu)
    ensures var after := LeaveBody(m, operandSize, stackSize);
            Bounded(m, after) && (Pending(after.cpu) ==> after.cpu.scalar.regs == m.cpu.scalar.regs)
  {
    hide Accessible, Checked, LoadValue, SetReg, Low, Wrap, Pending;
    var frame, n := Low(stackSize, Reg(m.cpu, RBP)), operandSize as int / 8;
    CheckedPends(m, frame, n, Read);
    CheckedOnly(m, frame, n, Read);
    var c := WithStackPointer(m.cpu, stackSize, Low(stackSize, frame + n));
    SetRegFrame(c, RBP, operandSize, Low(operandSize, LoadValue(m, frame, n)));
    RegistersOnly(m.cpu, c, SetReg(c, RBP, operandSize, Low(operandSize, LoadValue(m, frame, n))));
    RaisedOnly(m.cpu);
  }

  lemma {:induction false} RaisedOnly(c: Cpu)
    requires !Pending(c)
    ensures Pending(Raise(c, GP, 0)) && FaultOnly(c, Raise(c, GP, 0))
  {
    assert c.scalar.controlRegs[2 := c.scalar.controlRegs[2]] == c.scalar.controlRegs;
  }

  /** The two stack pointers agree in bits 16 to 31, or not at all. */
  lemma {:induction false} PointersAgree(rsp: u64, narrow: nat, wide: nat, n: nat)
    requires narrow == wide % 0x1_0000 && narrow < 0x1_0000 && wide < 0x1_0000_0000
    ensures Wrap(rsp - Low(16, rsp) + Low(16, narrow + n)) == Wrap(rsp - Low(32, rsp) + Low(32, wide + n))
            <==> Low(32, wide + n) / 0x1_0000 == Low(32, rsp) / 0x1_0000
  {
    var moved, low := Low(32, wide + n), Low(32, rsp);
    LowOfLow(wide + n);
    LowOfLow(rsp);
    LowSum(wide, narrow, n);
    assert moved % 0x1_0000 == Low(16, narrow + n);
    assert low % 0x1_0000 == Low(16, rsp);
    WithinTop(rsp, 0x1_0000, Low(16, narrow + n));
    WithinTop(rsp, 0x1_0000_0000, moved);
  }

  lemma {:induction false} WithinTop(rsp: u64, d: nat, low: nat)
    requires d in {0x1_0000, 0x1_0000_0000} && low < d
    ensures Wrap(rsp - rsp % d + low) == rsp - rsp % d + low
  {
    hide Wrap;
    WordSlack(rsp, d, low);
    WrapSmall(rsp - rsp % d + low);
  }

  lemma {:induction false} WrapSmall(x: int)
    requires 0 <= x < WORD
    ensures Wrap(x) == x
  {
  }

  lemma {:induction false} LowOfLow(x: nat)
    ensures Low(32, x) % 0x1_0000 == Low(16, x)
  {
    var q := x / 0x1_0000_0000;
    assert x == q * 0x1_0000_0000 + Low(32, x);
    assert x / 0x1_0000 == q * 0x1_0000 + Low(32, x) / 0x1_0000;
  }

  lemma {:induction false} LowSum(wide: nat, narrow: nat, n: nat)
    requires narrow == wide % 0x1_0000
    ensures Low(16, wide + n) == Low(16, narrow + n)
  {
  }

  /** RBP and RSP are different registers, and each shows what was put into it. */
  lemma {:induction false} ResultsAgree(c: Cpu, w: Width, a: u64, b: u64, x: nat, y: nat)
    requires w != 8 && x < Modulus(w) && y < Modulus(w)
    ensures SetReg(WithReg(c, RSP, a), RBP, w, x) == SetReg(WithReg(c, RSP, b), RBP, w, y) <==> a == b && x == y
  {
    hide Low, Modulus, Wrap, GetReg;
    var u, v := WithReg(c, RSP, a), WithReg(c, RSP, b);
    RegisterReadsBack(u, RBP, w, x);
    RegisterReadsBack(v, RBP, w, y);
    assert Reg(SetReg(u, RBP, w, x), RSP) == a;
    assert Reg(SetReg(v, RBP, w, y), RSP) == b;
    if a == b {
      assert u == v;
    }
  }

  /** Two frames that cannot be read are reported at different addresses. */
  lemma {:induction false} FaultsApart(m: Machine, narrow: u64, wide: u64, n: nat)
    requires !Pending(m.cpu) && !Is64BitCode(m.cpu) && n <= 8 && wide < 0x1_0000_0000 && narrow == wide % 0x1_0000
    requires !Accessible(m, narrow, n, Read) && !Accessible(m, wide, n, Read)
    ensures Checked(m, narrow, n, Read) == Checked(m, wide, n, Read) <==> narrow == wide
  {
    hide *;
    var j, k := FirstFault(m, narrow, n, Read), FirstFault(m, wide, n, Read);
    FaultNear(m, narrow, n);
    FaultNear(m, wide, n);
    if narrow != wide {
      FarApart(narrow, wide, j, k);
    }
  }

  lemma {:induction false} FaultNear(m: Machine, address: u64, n: nat)
    requires !Pending(m.cpu) && !Is64BitCode(m.cpu) && n <= 8 && address < 0x1_0000_0000
    requires !Accessible(m, address, n, Read)
    ensures var k := FirstFault(m, address, n, Read);
            k < 8 && Checked(m, address, n, Read).cpu.scalar.controlRegs[2] == address + k
  {
    hide FaultAt, Wrap, Checked, Is64BitCode, FirstFault;
    FaultReport(m, address, n, Read);
    var k := FirstFault(m, address, n, Read);
    FlatFault(m, address, k);
    WrapSmall(address + k);
  }

  lemma {:induction false} FarApart(narrow: nat, wide: nat, j: nat, k: nat)
    requires narrow == wide % 0x1_0000 && narrow != wide && j < 8 && k < 8
    ensures narrow + j != wide + k
  {
  }

  lemma {:induction false} FlatFault(m: Machine, address: u64, i: nat)
    requires !Is64BitCode(m.cpu)
    ensures ByteFault(m, address, i, Read) != NonCanonical
  {
    hide Wrap, Lookup;
  }

  /** Exactly then do the two stack sizes come to the same. */
  lemma {:induction false} BodiesAgree(m: Machine, operandSize: Width)
    requires !Pending(m.cpu) && !Is64BitCode(m.cpu) && operandSize in {16, 32}
    ensures LeaveBody(m, operandSize, 16) == LeaveBody(m, operandSize, 32)
            <==> Indifferent(m, operandSize as int / 8)
  {
    hide Accessible, Checked, LoadValue, SetReg, Low, Wrap, Pending, LeaveBody, Is64BitCode, WithReg;
    var narrow, wide, n := Low(16, Reg(m.cpu, RBP)), Low(32, Reg(m.cpu, RBP)), operandSize as int / 8;
    BodyFaults(m, operandSize, 16);
    BodyFaults(m, operandSize, 32);
    NarrowOfWide(Reg(m.cpu, RBP));
    if Accessible(m, narrow, n, Read) && Accessible(m, wide, n, Read) {
      ReadFits(m, narrow, operandSize);
      ReadFits(m, wide, operandSize);
      PointersAgree(Reg(m.cpu, RSP), narrow, wide, n);
      ResultsAgree(m.cpu, operandSize,
                   Wrap(Reg(m.cpu, RSP) - Low(16, Reg(m.cpu, RSP)) + Low(16, narrow + n)),
                   Wrap(Reg(m.cpu, RSP) - Low(32, Reg(m.cpu, RSP)) + Low(32, wide + n)),
                   Low(operandSize, LoadValue(m, narrow, n)), Low(operandSize, LoadValue(m, wide, n)));
    } else if !Accessible(m, narrow, n, Read) && !Accessible(m, wide, n, Read) {
      FaultsApart(m, narrow, wide, n);
    }
  }

  lemma {:induction false} NarrowOfWide(x: u64)
    ensures Low(16, x) == Low(32, x) % 0x1_0000 && Low(32, x) < 0x1_0000_0000 && Low(16, x) < 0x1_0000
  {
    hide Low;
    LowOfLow(x);
    UnfoldLow(16, x);
    UnfoldLow(32, x);
  }

  // Replaying the entry.

  /** LOCK and the operand size prefix, wherever they stand among the prefixes. */
  lemma {:induction false} ModalBits(rex: bool, code: seq<byte>, i: nat, p: Prefixes, lock: bool)
    requires i <= |code|
    ensures var scan := ScanModal(rex, code, i, p, lock);
            && scan.lock == (lock || 0xF0 in code[i..scan.offset])
            && scan.prefixes.operandSize == (p.operandSize || 0x66 in code[i..scan.offset])
    decreases |code| - i
  {
    hide WithPrefix, LegacyPrefix;
    var scan := ScanModal(rex, code, i, p, lock);
    if i < |code| && (LegacyPrefix(code[i]) || (rex && 0x40 <= code[i] <= 0x4F)) {
      SizePrefix(p, code[i]);
      ModalBits(rex, code, i + 1, WithPrefix(p, code[i]), lock || code[i] == 0xF0);
      InSlice(code, i, scan.offset, 0xF0);
      InSlice(code, i, scan.offset, 0x66);
    } else {
      assert code[i..scan.offset] == [];
    }
  }

  lemma {:induction false} SizePrefix(p: Prefixes, b: byte)
    ensures WithPrefix(p, b).operandSize == (p.operandSize || b == 0x66)
  {
  }

  lemma {:induction false} InSlice(code: seq<byte>, i: nat, j: nat, b: byte)
    requires i < j <= |code|
    ensures b in code[i..j] <==> code[i] == b || b in code[i + 1..j]
  {
    assert code[i..j] == [code[i]] + code[i + 1..j];
  }

  lemma {:induction false} ParsedBits(mode: nat, code: seq<byte>)
    requires LeaveCode(mode, code)
    ensures var p, n := ParseLeave(RexAllowed(mode), code), PrefixLength(mode, code, 0);
            p.prefixes.operandSize == (0x66 in code[..n]) && (p.fault != None <==> 0xF0 in code[..n])
  {
    hide PrefixLength, ScanModal;
    var n := PrefixLength(mode, code, 0);
    LeaveParsed(mode, code);
    ModalStops(mode, code, 0, NO_PREFIXES, false);
    ModalBits(RexAllowed(mode), code, 0, NO_PREFIXES, false);
    assert code[0..n] == code[..n];
  }

  lemma {:induction false} SizesOf(c: Cpu, d: Cpu, p: Prefixes)
    requires Is64BitCode(c) == Is64BitCode(d)
    ensures LeaveStackSize(c, p) == LeaveStackSize(d, p)
            <==> Is64BitCode(c) || c.scalar.segments.ss.db == d.scalar.segments.ss.db
    ensures !Is64BitCode(c) ==> LeaveStackSize(c, p) in {16, 32} && LeaveOperandSize(c, p) in {16, 32}
    ensures !Is64BitCode(c) ==> LeaveOperandSize(c, p) == if p.operandSize then 16 else 32
  {
    hide Is64BitCode;
  }

  /** What does not change from the machine to the start of the body. */
  lemma {:induction false} IndifferentThere(m: Machine, t: Machine, n: nat)
    requires t.mem == m.mem && Pending(t.cpu) == Pending(m.cpu) && t.cpu.scalar.regs == m.cpu.scalar.regs
    requires t.cpu.scalar.cpl == m.cpu.scalar.cpl && Is64BitCode(t.cpu) == Is64BitCode(m.cpu)
    ensures Indifferent(t, n) == Indifferent(m, n)
  {
    hide Accessible, LoadValue, Low, Pending, Is64BitCode;
    SameRead(m, t, Low(16, Reg(m.cpu, RBP)), n);
    SameRead(m, t, Low(32, Reg(m.cpu, RBP)), n);
  }

  lemma {:induction false} StampedStart(m: Machine, segment: Override, p: LeaveParse)
    ensures var t := EnteredLeave(WithOverride(m.cpu, segment), p);
            && Pending(t) == Pending(m.cpu) && Is64BitCode(t) == Is64BitCode(m.cpu)
            && t.scalar.cpl == m.cpu.scalar.cpl && t.scalar.regs == m.cpu.scalar.regs
    ensures ModeBits(WithOverride(m.cpu, segment)) == ModeBits(m.cpu)
    ensures Is64BitCode(WithOverride(m.cpu, segment)) == Is64BitCode(m.cpu)
  {
  }

  lemma {:induction false} LockedBounded(c: Cpu, mode: nat, code: seq<byte>)
    requires LeaveCode(mode, code) && !Pending(c) && ModeBits(c) == mode
    requires ParseLeave(RexAllowed(mode), code).fault != None
    ensures var p := ParseLeave(RexAllowed(mode), code);
            Pending(DecodeLeave(c, code)) && FaultOnly(EnteredLeave(c, p), DecodeLeave(c, code))
  {
    hide LeaveCode, ParseLeave, Is64BitCode, ModeBits;
    RexIn64(c);
    LeaveParsed(mode, code);
    assert c.scalar.controlRegs[2 := c.scalar.controlRegs[2]] == c.scalar.controlRegs;
  }

  /** The exact condition: entries of one LEAVE decoded in two states of a mode make the same step of a machine in
      64-bit code, under LOCK, with equal SS.B at decoding, and otherwise just when the stack size is indifferent. */
  lemma {:induction false} LeaveReplaysIff(isa: Isa, id: nat, m: Machine, a: Cpu, b: Cpu, code: seq<byte>)
    requires RoutesLeave(isa, id) && LeaveCode(ModeBits(m.cpu), code) && ReplaySite(a, b, m, ModeBits(m.cpu))
    ensures var n := PrefixLength(ModeBits(m.cpu), code, 0);
            Dispatch(isa, m, DecodeAt(isa, a, code)) == Dispatch(isa, m, DecodeAt(isa, b, code))
            <==> || Is64BitCode(m.cpu) || a.scalar.segments.ss.db == b.scalar.segments.ss.db || 0xF0 in code[..n]
                 || Indifferent(m, if 0x66 in code[..n] then 2 else 4)
  {
    hide *;
    var mode := ModeBits(m.cpu);
    var e, p := StaticEntry(isa, mode, code), ParseLeave(RexAllowed(mode), code);
    UnfoldSite(a, b, m, mode);
    UnfoldReady(a);
    UnfoldReady(b);
    UnfoldReady(m.cpu);
    LeaveEntry(isa, id, mode, code);
    LeaveRouted(isa, id, mode, code);
    UnfoldRouted(isa, id, mode, code);
    UnfoldDecodeAt(isa, a, code);
    UnfoldDecodeAt(isa, b, code);
    var x, y := Attach(isa, e, a), Attach(isa, e, b);
    var s := m.(cpu := WithOverride(m.cpu, e.segmentOverride));
    StampedStart(m, e.segmentOverride, p);
    OverrideKeeps(m.cpu, e.segmentOverride);
    LeaveRuns(isa, id, mode, code, a, s);
    LeaveRuns(isa, id, mode, code, b, s);
    GuardedFields(x, e);
    GuardedFields(y, e);
    ParsedBits(mode, code);
    SameModeIs64(a, b);
    SameModeIs64(a, m.cpu);
    SizesOf(a, b, p.prefixes);
    SizesOf(s.cpu, s.cpu, p.prefixes);
    var t := s.(cpu := EnteredLeave(s.cpu, p));
    if p.fault != None {
      LockedBounded(s.cpu, mode, code);
      BoundedFault(t, s.(cpu := DecodeLeave(s.cpu, code)));
    } else {
      var os := LeaveOperandSize(s.cpu, p.prefixes);
      BodyBounded(t, os, LeaveStackSize(a, p.prefixes));
      BodyBounded(t, os, LeaveStackSize(b, p.prefixes));
      if !Is64BitCode(m.cpu) {
        BodiesAgree(t, os);
        IndifferentThere(m, t, os as int / 8);
        SizesOf(b, a, p.prefixes);
      }
    }
    StepsApart(isa, m, x, y, t, t);
    ReportIsAll(t, t, RunHandler(isa, s, x), RunHandler(isa, s, y));
  }

  lemma {:induction false} BoundedFault(t: Machine, ran: Machine)
    requires Pending(ran.cpu) && FaultOnly(t.cpu, ran.cpu) && ran.mem == t.mem
    ensures Bounded(t, ran) && ran.cpu.scalar.regs == t.cpu.scalar.regs
  {
    hide Pending;
  }

  /** LEAVE meets the contract of the handlers the step machine leaves open: where SS.B agreed, entries replay. */
  lemma {:induction false} LeaveReplays(isa: Isa, id: nat, mode: nat, code: seq<byte>)
    requires RoutesLeave(isa, id) && LeaveCode(mode, code)
    ensures Replays(isa, mode, code)
  {
    hide SameOutcome, RunHandler, Attach, WithOverride, ReplaySite, StaticEntry, RoutesLeave, LeaveCode, Latent;
    forall a: Cpu, b: Cpu, m: Machine | ReplaySite(a, b, m, mode) && Latent(code, a) == Latent(code, b)
      ensures var e := StaticEntry(isa, mode, code);
              var s := m.(cpu := WithOverride(m.cpu, e.segmentOverride));
              SameOutcome(e, RunHandler(isa, s, Attach(isa, e, a)), RunHandler(isa, s, Attach(isa, e, b)))
    {
      LeaveReplay(isa, id, mode, code, a, b, m);
    }
  }

  lemma {:induction false} LatentStack(mode: nat, code: seq<byte>, a: Cpu, b: Cpu)
    requires LeaveCode(mode, code) && ModeBits(a) == mode && ModeBits(b) == mode
    requires Latent(code, a) == Latent(code, b) && Is64BitCode(a) == Is64BitCode(b)
    ensures Is64BitCode(a) || a.scalar.segments.ss.db == b.scalar.segments.ss.db
  {
    hide PrefixLength, ModeBits, Is64BitCode;
  }

  lemma {:induction false} LeaveReplay(isa: Isa, id: nat, mode: nat, code: seq<byte>, a: Cpu, b: Cpu, m: Machine)
    requires RoutesLeave(isa, id) && LeaveCode(mode, code)
    requires ReplaySite(a, b, m, mode) && Latent(code, a) == Latent(code, b)
    ensures var e := StaticEntry(isa, mode, code);
            var s := m.(cpu := WithOverride(m.cpu, e.segmentOverride));
            SameOutcome(e, RunHandler(isa, s, Attach(isa, e, a)), RunHandler(isa, s, Attach(isa, e, b)))
  {
    hide *;
    var e, p := StaticEntry(isa, mode, code), ParseLeave(RexAllowed(mode), code);
    UnfoldSite(a, b, m, mode);
    UnfoldReady(a);
    UnfoldReady(b);
    UnfoldReady(m.cpu);
    var s := m.(cpu := WithOverride(m.cpu, e.segmentOverride));
    StampedStart(m, e.segmentOverride, p);
    OverrideKeeps(m.cpu, e.segmentOverride);
    LeaveRuns(isa, id, mode, code, a, s);
    LeaveRuns(isa, id, mode, code, b, s);
    SameModeIs64(a, b);
    LatentStack(mode, code, a, b);
    SizesOf(a, b, p.prefixes);
    Replay.UnfoldOutcome(e, RunHandler(isa, s, Attach(isa, e, a)), RunHandler(isa, s, Attach(isa, e, b)));
  }
}
