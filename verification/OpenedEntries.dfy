/** What the entries of instructions opened later have in common: how they come about, what their handlers leave, and
    when a step tells two of them apart. */
module OpenedEntries {
  import opened Bits
  import opened MemoryManagement
  import opened CpuState
  import opened LinearMemory
  import opened Stack
  import opened Flags
  import opened Addressing
  import opened AluDecode
  import opened AluExecute
  import opened Decoder
  import opened Executor
  import opened Replay
  import opened PreciseSteps

  // Registers.

  lemma {:induction false} HighByte(x: u64, value: byte)
    ensures var y := Wrap(x - x / 0x100 % 0x100 * 0x100 + value * 0x100); y / 0x100 % 0x100 == value
  {
    var middle, low := x / 0x100, x % 0x100;
    var high, old_ := middle / 0x100, middle % 0x100;
    var y := x - old_ * 0x100 + value * 0x100;
    assert y == 0x1_0000 * high + 0x100 * value + low;
    WithinWord(high, value, low);
    DivUnique(y, 0x100, 0x100 * high + value, low);
    DivUnique(0x100 * high + value, 0x100, high, value);
  }

  lemma {:induction false} WithinWord(high: nat, value: nat, low: nat)
    requires value < 0x100 && low < 0x100 && 0x1_0000 * high < WORD
    ensures Wrap(0x1_0000 * high + 0x100 * value + low) == 0x1_0000 * high + 0x100 * value + low
  {
  }

  lemma {:induction false} LowPart(w: Width, x: u64, value: nat)
    requires value < Modulus(w) && w != 64
    ensures Wrap(x - Low(w, x) + value) % Modulus(w) == value
  {
    hide Wrap;
    var q := x / Modulus(w);
    assert x - Low(w, x) == q * Modulus(w);
    FitsWord(w, x, value);
    DivUnique(q * Modulus(w) + value, Modulus(w), q, value);
  }

  /** Putting another value in the low part stays within a word. */
  lemma {:induction false} FitsWord(w: Width, x: u64, value: nat)
    requires value < Modulus(w) && w != 64
    ensures Wrap(x - Low(w, x) + value) == x - Low(w, x) + value
  {
    if w == 8 {
      WordSlack(x, 0x100, value);
    } else if w == 16 {
      WordSlack(x, 0x1_0000, value);
    } else {
      WordSlack(x, 0x1_0000_0000, value);
    }
  }

  lemma {:induction false} WordSlack(x: u64, d: nat, value: nat)
    requires d in {0x100, 0x1_0000, 0x1_0000_0000} && value < d
    ensures x - x % d + value < WORD
  {
  }

  /** A register reads back what was written to it. */
  lemma {:induction false} RegisterReadsBack(c: Cpu, r: nat, w: Width, value: nat)
    requires value < Modulus(w)
    ensures GetReg(SetReg(c, r, w, value), r, w) == value
  {
    hide Wrap, Low, Modulus;
    if w == 8 && !c.scalar.prefixes.rexPresent && r >= 4 {
      UnfoldWidths();
      HighByte(Reg(c, r - 4), value);
    } else if w == 8 || w == 16 {
      LowPart(w, Reg(c, r), value);
      UnfoldLow(w, Wrap(Reg(c, r) - Low(w, Reg(c, r)) + value));
    } else {
      UnfoldLow(w, value);
      SmallLow(w, value);
    }
  }

  lemma {:induction false} UnfoldWidths()
    ensures Modulus(8) == 0x100
  {
  }

  lemma {:induction false} UnfoldLow(w: Width, x: int)
    ensures Low(w, x) == x % Modulus(w)
  {
  }

  lemma {:induction false} SmallLow(w: Width, x: nat)
    requires x < Modulus(w)
    ensures Low(w, x) == x
  {
  }

  // Faults.

  /** The exception and CR2 differ, nothing else. */
  predicate FaultOnly(before: Cpu, after: Cpu) {
    after == before.(exception := after.exception,
                     scalar := before.scalar.(
                       controlRegs := before.scalar.controlRegs[2 := after.scalar.controlRegs[2]]))
  }

  lemma {:induction false} CheckedOnly(m: Machine, address: u64, n: nat, access: Access)
    ensures FaultOnly(m.cpu, Checked(m, address, n, access).cpu) && Checked(m, address, n, access).mem == m.mem
  {
    hide FirstFault, FaultAt, Wrap, PageFaultError;
    assert m.cpu.scalar.controlRegs[2 := m.cpu.scalar.controlRegs[2]] == m.cpu.scalar.controlRegs;
  }

  // Entries.

  function Flag(b: bool): int {
    if b then 1 else 0
  }

  lemma {:induction false} StartFields(isa: Isa, mode: nat, code: seq<byte>, n: nat, opc: nat)
    requires n <= |code|
    ensures var e := StartEntry(isa, mode, code, n, opc);
            && !e.ud && !e.bp && !e.db && !e.partial && e.vector == isa.touchesVector(code, mode)
            && e.inline == NotInline && e.bytes == code && e.fast == None
  {
    hide PeekSegment, EscapeCandidate, BranchOpcode;
  }

  lemma {:induction false} AttachedOther(isa: Isa, e: Entry, id: nat, c: Cpu)
    requires e.fast == None && e.handler == Opaque(id) && Installable(e)
    ensures var a := Attach(isa, e, c);
            && SameStatic(a, e) && a.handler == e.handler && a.bytes == e.bytes
            && (a.fast.Some? ==> a.fast.value.OtherPrepared? && a.fast.value.id == id
                                 && isa.attach(id, e.bytes, c) == Some(a.fast.value.captured))
  {
    hide SameStatic, Attach, AttachOther;
    AttachKinds(isa, e, c);
    StaticFields(Attach(isa, e, c), e);
    AttachIsOther(isa, e, id, c);
    OtherFast(isa, e, id, c);
  }

  lemma {:induction false} AttachIsOther(isa: Isa, e: Entry, id: nat, c: Cpu)
    requires e.handler == Opaque(id) && Installable(e)
    ensures Attach(isa, e, c) == AttachOther(isa, e, id, c)
  {
    hide AttachOther, Installable;
  }

  lemma {:induction false} OtherFast(isa: Isa, e: Entry, id: nat, c: Cpu)
    requires e.fast == None
    ensures var fast := AttachOther(isa, e, id, c).fast;
            fast.Some? ==> fast.value.OtherPrepared? && fast.value.id == id
                           && isa.attach(id, e.bytes, c) == Some(fast.value.captured)
  {
  }

  lemma {:induction false} RunsOther(isa: Isa, m: Machine, e: Entry, id: nat)
    requires e.handler == Opaque(id) && (e.fast.Some? ==> e.fast.value.OtherPrepared? && e.fast.value.id == id)
    ensures e.fast.Some? ==> RunHandler(isa, m, e) == isa.fast(id, e.fast.value.captured, m)
    ensures e.fast.None? ==> RunHandler(isa, m, e) == isa.run(id, e.bytes, m)
  {
  }

  lemma {:induction false} OtherAttaches(isa: Isa, e: Entry, id: nat, c: Cpu)
    requires e.fast == None && (isa.attach(id, e.bytes, c).Some? ==> 0 < isa.attach(id, e.bytes, c).value.length <= 15)
    ensures AttachOther(isa, e, id, c).fast.Some? <==> isa.attach(id, e.bytes, c).Some?
  {
  }

  /** The ladder gives these bytes the handler of this number. */
  ghost predicate RoutedTo(isa: Isa, id: nat, mode: nat, code: seq<byte>) {
    isa.special(code) == None && isa.other(code, mode) == Some(Run(id, false))
  }

  lemma {:induction false} UnfoldRouted(isa: Isa, id: nat, mode: nat, code: seq<byte>)
    requires RoutedTo(isa, id, mode, code)
    ensures isa.special(code) == None
  {
  }

  /** Opcodes that no quick exit, inline form or NO_FAULT mark concerns. */
  predicate Unmarked(opc: nat) {
    opc == 0xC9 || 0xA0 <= opc <= 0xA3 || opc == 0x0FAE
  }

  lemma {:induction false} UnmarkedNoFault(code: seq<byte>, n: nat, opc: nat)
    requires Unmarked(opc)
    ensures !ClassifyNoFault(code, n, opc)
  {
    hide PeekMod, PeekReg;
  }

  /** An entry with a snapshot behind it. */
  predicate Guarded(e: Entry) {
    e.inline == NotInline && !e.ud && !e.bp && !e.db && !e.partial && !e.noFault
  }

  lemma {:induction false} GuardedFields(a: Entry, e: Entry)
    requires SameStatic(a, e) && Guarded(e)
    ensures Guarded(a) && a.segmentOverride == e.segmentOverride
    ensures forall b :: SameStatic(b, e) ==> SameStatic(a, b)
  {
  }

  lemma {:induction false} GuardedEntry(isa: Isa, id: nat, mode: nat, code: seq<byte>)
    requires RoutedTo(isa, id, mode, code)
    requires var n := PrefixLength(mode, code, 0); n < |code| && Unmarked(OpcodeAt(code, n))
    ensures var e := StaticEntry(isa, mode, code);
            && Guarded(e) && e.handler == Opaque(id) && e.bytes == code && e.fast == None && Installable(e)
            && e.segmentOverride == PeekSegment(code, PrefixLength(mode, code, 0))
  {
    hide PrefixLength, ClassifyNoFault, OpcodeAt, PeekSegment, EscapeCandidate, RetOperandSize, LittleEndian,
      BranchOpcode, SignedByte, SignedDword;
    var n := PrefixLength(mode, code, 0);
    UnmarkedNoFault(code, n, OpcodeAt(code, n));
  }

  // Telling two handlers apart.

  /** From a start without exception a handler either faults, with nothing done to memory, or ends; registers may have
      changed either way. */
  predicate Bounded(t: Machine, ran: Machine) {
    var c := t.cpu.(scalar := t.cpu.scalar.(regs := ran.cpu.scalar.regs));
    if Pending(ran.cpu) then FaultOnly(c, ran.cpu) && ran.mem == t.mem else ran.cpu == c
  }

  /** The same machine, or the same fault. */
  predicate SameReport(x: Machine, y: Machine) {
    if Pending(x.cpu) && Pending(y.cpu) then
      x.cpu.exception == y.cpu.exception && x.cpu.scalar.controlRegs[2] == y.cpu.scalar.controlRegs[2]
    else x == y
  }

  /** The rollback keeps the exception and CR2, and that is all two faults can differ in. */
  lemma {:induction false} RolledApart(saved: Cpu, t: Machine, x: Machine, y: Machine, a: Entry, b: Entry)
    requires Guarded(a) && SameStatic(a, b) && Bounded(t, x) && Bounded(t, y) && Pending(x.cpu) && Pending(y.cpu)
    ensures x.(cpu := RollBack(saved, x.cpu, a, true)) == y.(cpu := RollBack(saved, y.cpu, b, true))
            <==> SameReport(x, y)
  {
    var u, v := RollBack(saved, x.cpu, a, true), RollBack(saved, y.cpu, b, true);
    assert u.scalar.controlRegs[2] == x.cpu.scalar.controlRegs[2];
    assert v.scalar.controlRegs[2] == y.cpu.scalar.controlRegs[2];
  }

  lemma {:induction false} AdvancedApart(t: Machine, x: Machine, y: Machine, from: u64, branch: bool)
    requires Bounded(t, x) && Bounded(t, y) && !Pending(x.cpu) && !Pending(y.cpu)
    ensures var u, v := Advance(x, from, branch), Advance(y, from, branch);
            u.(cpu := WithOverride(u.cpu, NoOverride)) == v.(cpu := WithOverride(v.cpu, NoOverride)) <==> x == y
  {
    hide Wrap;
    var u, v := Advance(x, from, branch), Advance(y, from, branch);
    assert WithOverride(u.cpu, NoOverride).scalar.regs == x.cpu.scalar.regs;
    assert WithOverride(v.cpu, NoOverride).scalar.regs == y.cpu.scalar.regs;
  }

  lemma {:induction false} ConcludesApart(saved: Cpu, t: Machine, u: Machine, x: Machine, y: Machine, a: Entry,
                                          b: Entry, from: u64)
    requires Guarded(a) && SameStatic(a, b) && Bounded(t, x) && Bounded(u, y)
    requires Pending(x.cpu) == Pending(y.cpu) ==> t == u
    ensures var v, w := Advance(x, from, a.branch), Advance(y, from, b.branch);
            Conclude(saved, v, a, true, StepOk) == Conclude(saved, w, b, true, StepOk) <==> SameReport(x, y)
  {
    if Pending(x.cpu) && Pending(y.cpu) {
      RolledApart(saved, t, x, y, a, b);
    } else if !Pending(x.cpu) && !Pending(y.cpu) {
      AdvancedApart(t, x, y, from, a.branch);
    }
  }

  /** A guarded step shows every difference between two such handlers but for the registers behind a fault. */
  lemma {:induction false} StepsApart(isa: Isa, m: Machine, a: Entry, b: Entry, t: Machine, u: Machine)
    requires Guarded(a) && SameStatic(a, b)
    requires var s := m.(cpu := WithOverride(m.cpu, a.segmentOverride));
             var x, y := RunHandler(isa, s, a), RunHandler(isa, s, b);
             Bounded(t, x) && Bounded(u, y) && (Pending(x.cpu) == Pending(y.cpu) ==> t == u)
    ensures var s := m.(cpu := WithOverride(m.cpu, a.segmentOverride));
            Dispatch(isa, m, a) == Dispatch(isa, m, b) <==> SameReport(RunHandler(isa, s, a), RunHandler(isa, s, b))
  {
    hide RunHandler, Conclude, Bounded, Advance, Pending, SameReport;
    var s := m.(cpu := WithOverride(m.cpu, a.segmentOverride));
    ConcludesApart(s.cpu, t, u, RunHandler(isa, s, a), RunHandler(isa, s, b), a, b, s.cpu.scalar.rip);
  }

  /** Handlers that leave the registers alone when they fault. */
  lemma {:induction false} ReportIsAll(t: Machine, u: Machine, x: Machine, y: Machine)
    requires Bounded(t, x) && Bounded(u, y) && (Pending(x.cpu) == Pending(y.cpu) ==> t == u)
    requires Pending(x.cpu) ==> x.cpu.scalar.regs == t.cpu.scalar.regs
    requires Pending(y.cpu) ==> y.cpu.scalar.regs == u.cpu.scalar.regs
    ensures SameReport(x, y) <==> x == y
  {
    if Pending(x.cpu) && Pending(y.cpu) && SameReport(x, y) {
      assert x.cpu.scalar.controlRegs == y.cpu.scalar.controlRegs;
    }
  }

  // Prefix bits, as the numbers a capture holds.

  function PackedPrefixes(p: Prefixes): (fields: seq<int>)
    ensures |fields| == 7
  {
    [Flag(p.rexPresent), Flag(p.rexW), Flag(p.rexR), Flag(p.rexX), Flag(p.rexB), Flag(p.operandSize),
     Flag(p.addressSize)]
  }

  function PrefixesOf(fields: seq<int>): Prefixes
    requires |fields| == 7
  {
    Prefixes(fields[0] == 1, fields[1] == 1, fields[2] == 1, fields[3] == 1, fields[4] == 1, fields[5] == 1,
             fields[6] == 1)
  }

  lemma {:induction false} PrefixesRoundTrip(p: Prefixes)
    ensures PrefixesOf(PackedPrefixes(p)) == p
  {
  }

  // The prefix loop of decoders that leave REX to 64-bit code.

  function ScanModal(rex: bool, code: seq<byte>, offset: nat, p: Prefixes, lock: bool): (s: Scan)
    requires offset <= |code|
    ensures offset <= s.offset <= |code|
    decreases |code| - offset
  {
    if offset < |code| && (LegacyPrefix(code[offset]) || (rex && 0x40 <= code[offset] <= 0x4F)) then
      ScanModal(rex, code, offset + 1, WithPrefix(p, code[offset]), lock || code[offset] == 0xF0)
    else Scan(p, lock, offset)
  }

  /** It stops where the peek stops. */
  lemma {:induction false} ModalStops(mode: nat, code: seq<byte>, i: nat, p: Prefixes, lock: bool)
    requires i <= |code|
    ensures ScanModal(RexAllowed(mode), code, i, p, lock).offset == PrefixLength(mode, code, i)
    decreases |code| - i
  {
    hide WithPrefix;
    if i < |code| && SkippedByPeek(mode, code[i]) {
      ModalStops(mode, code, i + 1, WithPrefix(p, code[i]), lock || code[i] == 0xF0);
    }
  }

  lemma {:induction false} RexIn64(c: Cpu)
    ensures RexAllowed(ModeBits(c)) == Is64BitCode(c)
  {
  }

  // Reading in a state that differs in what reads do not look at.

  lemma {:induction false} SameRead(m: Machine, other: Machine, address: u64, n: nat)
    requires other.mem == m.mem && Pending(other.cpu) == Pending(m.cpu)
    requires other.cpu.scalar.cpl == m.cpu.scalar.cpl && Is64BitCode(other.cpu) == Is64BitCode(m.cpu)
    ensures Accessible(other, address, n, Read) == Accessible(m, address, n, Read)
    ensures LoadValue(other, address, n) == LoadValue(m, address, n)
  {
    hide FirstFault, FaultAt, Is64BitCode, Pending;
    SameFaults(m, other, address, n, Read);
  }

  lemma {:induction false} ReadFits(m: Machine, address: u64, w: Width)
    ensures Low(w, LoadValue(m, address, w as int / 8)) == LoadValue(m, address, w as int / 8)
  {
    hide Accessible, LittleEndian, BytesAt, Pow2, Low, Modulus;
    LittleEndianWidth(BytesAt(m.mem, address, w as int / 8));
    PowWidth(w);
    if Accessible(m, address, w as int / 8, Read) {
      SmallLow(w, LoadValue(m, address, w as int / 8));
    } else {
      SmallLow(w, 0);
    }
  }

  lemma {:induction false} PowWidth(w: Width)
    ensures Pow2(8 * (w as int / 8)) == Modulus(w)
  {
    WordIsPow2();
  }
}
