/** Near and far CALL: validate the target, push the return address, then load CS and RIP. */
module Calls {
  import opened Bits
  import opened MemoryManagement
  import opened CpuState
  import opened LinearMemory
  import opened Stack

  function Jump(c: Cpu, target: u64): Cpu {
    c.(scalar := c.scalar.(rip := target))
  }

  /** The target of a relative CALL, as wide as the operand. */
  function RelativeTarget(returnRip: u64, rel: int, n: nat): u64 {
    MaskOffset(Wrap(returnRip + rel), 8 * n)
  }

  /** A near CALL with an operand of n bytes. */
  function CallNear(m: Machine, target: u64, returnRip: u64, n: nat): Machine {
    if !ValidCodeOffset(m.cpu, target, 8 * n) then m.(cpu := Raise(m.cpu, GP, 0))
    else
      var pushed := Push(m, n, MaskOffset(returnRip, 8 * n));
      if Pending(pushed.cpu) then pushed else pushed.(cpu := Jump(pushed.cpu, target))
  }

  // Descriptors.

  function DescriptorBase(low: nat, high: nat): u64 {
    (low / 0x1_0000 + high % 0x100 * 0x1_0000 + high / 0x100_0000 * 0x100_0000) % 0x1_0000_0000
  }

  function DescriptorLimit(low: nat, high: nat): nat {
    low % 0x1_0000 + high / 0x1_0000 % 0x10 * 0x1_0000
  }

  function DescriptorOf(low: nat, high: nat): Segment {
    var granular := high / 0x80_0000 % 2 == 1;
    var limit := DescriptorLimit(low, high);
    Segment(0, DescriptorBase(low, high), if granular then limit * 0x1000 + 0xFFF else limit, high / 0x100 % 0x10,
            high / 0x2000 % 4, high / 0x8000 % 2 == 1, granular, high / 0x40_0000 % 2 == 1, high / 0x20_0000 % 2 == 1)
  }

  const NO_SEGMENT := Segment(0, 0, 0, 0, 0, false, false, false, false)

  /** The selector without its privilege level. */
  function SelectorError(selector: nat): nat {
    selector / 4 * 4
  }

  function DescriptorOffset(selector: nat): nat {
    selector / 8 * 8
  }

  function TableBase(c: Cpu, selector: nat): u64 {
    if selector / 4 % 2 == 1 then c.scalar.tables.ldtrBase else c.scalar.tables.gdtrBase
  }

  function TableLimit(c: Cpu, selector: nat): nat {
    if selector / 4 % 2 == 1 then c.scalar.tables.ldtrLimit else c.scalar.tables.gdtrLimit
  }

  function DescriptorAddress(c: Cpu, selector: nat): u64 {
    Wrap(TableBase(c, selector) + DescriptorOffset(selector))
  }

  /** load_descriptor_from_table: #GP past the limit, else two dword reads. */
  function LoadDescriptor(m: Machine, selector: nat): (Machine, Segment) {
    if DescriptorOffset(selector) + 7 > TableLimit(m.cpu, selector) then
      (m.(cpu := Raise(m.cpu, GP, SelectorError(selector))), NO_SEGMENT)
    else
      var address := DescriptorAddress(m.cpu, selector);
      var m1 := Checked(m, address, 4, Read);
      var m2 := Checked(m1, Wrap(address + 4), 4, Read);
      (m2, DescriptorOf(LoadValue(m, address, 4), LoadValue(m1, Wrap(address + 4), 4)))
  }

  predicate CodeSegment(s: Segment) {
    s.kind / 8 % 2 == 1
  }

  predicate Conforming(s: Segment) {
    CodeSegment(s) && s.kind / 4 % 2 == 1
  }

  /** Why a descriptor may not be entered from this privilege level. The direct form does not look at L and D. */
  function Refusal(c: Cpu, s: Segment, selector: nat, indirect: bool): Option<ExceptionCode> {
    if !CodeSegment(s) then Some(GP)
    else if indirect && c.scalar.longModeActive && s.longMode && s.db then Some(GP)
    else if Conforming(s) && s.dpl > c.scalar.cpl then Some(GP)
    else if !Conforming(s) && (s.dpl != c.scalar.cpl || selector % 4 > c.scalar.cpl) then Some(GP)
    else if !s.present then Some(NP)
    else None
  }

  function LoadCs(c: Cpu, s: Segment, selector: nat, target: u64): Cpu {
    Cpu(c.scalar.(segments := c.scalar.segments.(cs := s.(selector := Or(SelectorError(selector), c.scalar.cpl))),
                  rip := target),
        c.vector, c.exception, c.modeKeyBits, false)
  }

  /** The slot size of a far return address. */
  function FarSlot(c: Cpu, operandSize: nat, indirect: bool): nat {
    if indirect && Is64BitCode(c) then 8 else if operandSize == 32 then 4 else 2
  }

  function FarTarget(s: Segment, offset: u64, operandSize: nat, indirect: bool): u64 {
    if indirect && s.longMode then offset
    else if operandSize == 16 then offset % 0x1_0000
    else if indirect then offset % 0x1_0000_0000
    else offset
  }

  /** What far CALLs have in common once selector and offset are known. */
  function EnterFar(m: Machine, selector: nat, offset: u64, operandSize: nat, returnRip: u64, indirect: bool): Machine {
    if SelectorError(selector) == 0 then m.(cpu := Raise(m.cpu, GP, 0))
    else
      var (loaded, s) := LoadDescriptor(m, selector);
      if Pending(loaded.cpu) then loaded
      else
        match Refusal(loaded.cpu, s, selector, indirect)
        case Some(code) => loaded.(cpu := Raise(loaded.cpu, code, SelectorError(selector)))
        case None =>
          var target := FarTarget(s, offset, operandSize, indirect);
          if !ValidCodeOffset(loaded.cpu, target, if indirect && s.longMode then 64 else operandSize) then
            loaded.(cpu := Raise(loaded.cpu, GP, 0))
          else
            var n := FarSlot(loaded.cpu, operandSize, indirect);
            var pushed := PushTwo(loaded, loaded.cpu.scalar.segments.cs.selector, MaskOffset(returnRip, 8 * n), n);
            if Pending(pushed.cpu) then pushed else pushed.(cpu := LoadCs(pushed.cpu, s, selector, target))
  }

  /** FF /3: the pointer comes from memory, offset first. */
  function CallFarMem(m: Machine, address: u64, operandSize: nat, returnRip: u64): Machine
    requires operandSize == 16 || operandSize == 32 || operandSize == 64
  {
    var n := operandSize / 8;
    var m1 := Checked(m, address, n, Read);
    var m2 := Checked(m1, Wrap(address + n), 2, Read);
    if Pending(m2.cpu) then m2
    else EnterFar(m2, LoadValue(m1, Wrap(address + n), 2), Wrap(LoadValue(m, address, n)), operandSize, returnRip, true)
  }

  /** 9A: the pointer is part of the instruction. */
  function CallFarPtr(m: Machine, selector: nat, offset: u64, operandSize: nat, returnRip: u64): Machine {
    EnterFar(m, selector, offset, operandSize, returnRip, false)
  }

  // The same, step by step.

  method CallNearValue(ctx: CpuContext, target: u64, returnRip: u64, n: nat)
    requires SlotSize(n)
    modifies ctx`scalar, ctx`exception, ctx.memMgr`host
    ensures ctx.Whole() == CallNear(old(ctx.Whole()), target, returnRip, n)
  {
    hide Push, ValidCodeOffset, MaskOffset, Pending;
    if !ValidCodeOffset(ctx.State(), target, 8 * n) {
      ctx.RaiseException(GP, 0);
      return;
    }
    PushValue(ctx, n, MaskOffset(returnRip, 8 * n));
    if Pending(ctx.State()) {
      return;
    }
    ctx.scalar := ctx.scalar.(rip := target);
  }

  method CallNearRelative(ctx: CpuContext, rel: int, returnRip: u64, n: nat)
    requires SlotSize(n)
    modifies ctx`scalar, ctx`exception, ctx.memMgr`host
    ensures ctx.Whole() == CallNear(old(ctx.Whole()), RelativeTarget(returnRip, rel, n), returnRip, n)
  {
    CallNearValue(ctx, MaskOffset(Wrap(returnRip + rel), 8 * n), returnRip, n);
  }

  method LoadDescriptorFromTable(ctx: CpuContext, selector: nat) returns (s: Segment)
    modifies ctx`scalar, ctx`exception
    ensures (ctx.Whole(), s) == LoadDescriptor(old(ctx.Whole()), selector)
  {
    hide Checked, LoadValue, DescriptorOf, Raise;
    if DescriptorOffset(selector) + 7 > TableLimit(ctx.State(), selector) {
      ctx.RaiseException(GP, SelectorError(selector));
      return NO_SEGMENT;
    }
    var address := DescriptorAddress(ctx.State(), selector);
    var low := ReadMemory4(ctx, address);
    var high := ReadMemory4(ctx, Wrap(address as int + 4));
    return DescriptorOf(low, high);
  }

  method ReadMemory4(ctx: CpuContext, address: u64) returns (value: nat)
    modifies ctx`scalar, ctx`exception
    ensures ctx.Whole() == Checked(old(ctx.Whole()), address, 4, Read)
    ensures value == LoadValue(old(ctx.Whole()), address, 4)
  {
    hide Checked, LoadValue;
    value := ReadMemory(ctx, address, 4);
  }

  method EnterFarSegment(ctx: CpuContext, selector: nat, offset: u64, operandSize: nat, returnRip: u64, indirect: bool)
    modifies ctx`scalar, ctx`exception, ctx`modeKeyValid, ctx.memMgr`host
    ensures ctx.Whole() == EnterFar(old(ctx.Whole()), selector, offset, operandSize, returnRip, indirect)
  {
    hide LoadDescriptor, Refusal, FarTarget, ValidCodeOffset, FarSlot, PushTwo, Pending, MaskOffset, Raise, Or;
    if SelectorError(selector) == 0 {
      ctx.RaiseException(GP, 0);
      return;
    }
    var s := LoadDescriptorFromTable(ctx, selector);
    if Pending(ctx.State()) {
      return;
    }
    var refusal := Refusal(ctx.State(), s, selector, indirect);
    if refusal.Some? {
      ctx.RaiseException(refusal.value, SelectorError(selector));
      return;
    }
    var target := FarTarget(s, offset, operandSize, indirect);
    if !ValidCodeOffset(ctx.State(), target, if indirect && s.longMode then 64 else operandSize) {
      ctx.RaiseException(GP, 0);
      return;
    }
    var n := FarSlot(ctx.State(), operandSize, indirect);
    PushTwoValues(ctx, ctx.scalar.segments.cs.selector, MaskOffset(returnRip, 8 * n), n);
    if Pending(ctx.State()) {
      return;
    }
    var cs := s.(selector := Or(SelectorError(selector), ctx.scalar.cpl));
    ctx.scalar := ctx.scalar.(segments := ctx.scalar.segments.(cs := cs));
    ctx.modeKeyValid := false;
    ctx.scalar := ctx.scalar.(rip := target);
  }

  method CallFarThroughMemory(ctx: CpuContext, address: u64, operandSize: nat, returnRip: u64)
    requires operandSize == 16 || operandSize == 32 || operandSize == 64
    modifies ctx`scalar, ctx`exception, ctx`modeKeyValid, ctx.memMgr`host
    ensures ctx.Whole() == CallFarMem(old(ctx.Whole()), address, operandSize, returnRip)
  {
    hide EnterFar, Checked, LoadValue, Pending, Wrap;
    var offset := ReadMemory(ctx, address, operandSize / 8);
    var selector := ReadMemory(ctx, Wrap(address + operandSize / 8), 2);
    if Pending(ctx.State()) {
      return;
    }
    EnterFarSegment(ctx, selector, Wrap(offset), operandSize, returnRip, true);
  }

  // What a descriptor says.

  /** The two dwords of a descriptor, field by field. */
  function DescriptorDwords(base: nat, limit20: nat, kind: nat, system: nat, dpl: nat, present: bool, available: nat,
                            longMode: bool, db: bool, granular: bool): (nat, nat) {
    (limit20 % 0x1_0000 + base % 0x1_0000 * 0x1_0000,
     base / 0x1_0000 % 0x100 + kind * 0x100 + system * 0x1000 + dpl * 0x2000 + BoolBit(present) * 0x8000
     + limit20 / 0x1_0000 * 0x1_0000 + available * 0x10_0000 + BoolBit(longMode) * 0x20_0000 + BoolBit(db) * 0x40_0000
     + BoolBit(granular) * 0x80_0000 + base / 0x100_0000 * 0x100_0000)
  }

  /** Reading the dwords back gives every field of the descriptor, and the limit in bytes. */
  lemma {:induction false} DescriptorRoundTrip(base: nat, limit20: nat, kind: nat, system: nat, dpl: nat, present: bool,
                                               available: nat, longMode: bool, db: bool, granular: bool)
    requires base < 0x1_0000_0000 && limit20 < 0x10_0000 && kind < 16 && system < 2 && dpl < 4 && available < 2
    ensures var (low, high) := DescriptorDwords(base, limit20, kind, system, dpl, present, available, longMode, db,
                                                granular);
            DescriptorOf(low, high)
            == Segment(0, base, if granular then (limit20 + 1) * 0x1000 - 1 else limit20, kind, dpl, present, granular,
                       db, longMode)
  {
    hide DescriptorOf, DescriptorBase, DescriptorLimit, BoolBit;
    var (low, high) := DescriptorDwords(base, limit20, kind, system, dpl, present, available, longMode, db, granular);
    var b2, b3, l4 := base / 0x1_0000 % 0x100, base / 0x100_0000, limit20 / 0x1_0000;
    SplitBase(base);
    BitRange(present);
    BitRange(longMode);
    BitRange(db);
    BitRange(granular);
    HighFields(b2, kind, system, dpl, BoolBit(present), l4, available, BoolBit(longMode), BoolBit(db),
               BoolBit(granular), b3);
    DivUnique(low, 0x1_0000, base % 0x1_0000, limit20 % 0x1_0000);
    AssembleBase(low, high, base);
    AssembleLimit(low, high, limit20);
    UnfoldDescriptor(low, high);
  }

  lemma {:induction false} SplitBase(base: nat)
    requires base < 0x1_0000_0000
    ensures base == base % 0x1_0000 + base / 0x1_0000 % 0x100 * 0x1_0000 + base / 0x100_0000 * 0x100_0000
    ensures base / 0x100_0000 < 0x100
  {
    DivUnique(base / 0x1_0000, 0x100, base / 0x100_0000, base / 0x1_0000 % 0x100);
  }

  lemma {:induction false} BitRange(b: bool)
    ensures BoolBit(b) < 2 && (BoolBit(b) == 1 <==> b)
  {
  }

  lemma {:induction false} UnfoldDescriptor(low: nat, high: nat)
    ensures var granular := high / 0x80_0000 % 2 == 1;
            DescriptorOf(low, high)
            == Segment(0, DescriptorBase(low, high),
                       if granular then DescriptorLimit(low, high) * 0x1000 + 0xFFF else DescriptorLimit(low, high),
                       high / 0x100 % 0x10, high / 0x2000 % 4, high / 0x8000 % 2 == 1, granular,
                           high / 0x40_0000 % 2 == 1,
                       high / 0x20_0000 % 2 == 1)
  {
    hide DescriptorBase, DescriptorLimit;
  }

  lemma {:induction false} AssembleBase(low: nat, high: nat, base: nat)
    requires base < 0x1_0000_0000 && low / 0x1_0000 == base % 0x1_0000
    requires high % 0x100 == base / 0x1_0000 % 0x100 && high / 0x100_0000 == base / 0x100_0000
    requires base == base % 0x1_0000 + base / 0x1_0000 % 0x100 * 0x1_0000 + base / 0x100_0000 * 0x100_0000
    ensures DescriptorBase(low, high) == base
  {
  }

  lemma {:induction false} AssembleLimit(low: nat, high: nat, limit20: nat)
    requires limit20 < 0x10_0000 && low % 0x1_0000 == limit20 % 0x1_0000 && high / 0x1_0000 % 0x10 == limit20 / 0x1_0000
    ensures DescriptorLimit(low, high) == limit20
  {
  }

  lemma {:induction false} HighFields(b2: nat, kind: nat, system: nat, dpl: nat, p: nat, l4: nat, avl: nat, l: nat,
      d: nat, g: nat, b3: nat)
    requires b2 < 0x100 && kind < 16 && system < 2 && dpl < 4 && p < 2 && l4 < 16 && avl < 2 && l < 2 && d < 2 && g < 2
             && b3 < 0x100
    ensures var high := b2 + kind * 0x100 + system * 0x1000 + dpl * 0x2000 + p * 0x8000 + l4 * 0x1_0000
            + avl * 0x10_0000
                        + l * 0x20_0000 + d * 0x40_0000 + g * 0x80_0000 + b3 * 0x100_0000;
            && high % 0x100 == b2 && high / 0x100 % 0x10 == kind && high / 0x2000 % 4 == dpl && high / 0x8000 % 2 == p
            && high / 0x1_0000 % 0x10 == l4 && high / 0x20_0000 % 2 == l && high / 0x40_0000 % 2 == d
            && high / 0x80_0000 % 2 == g && high / 0x100_0000 == b3
  {
    var high := b2 + kind * 0x100 + system * 0x1000 + dpl * 0x2000 + p * 0x8000 + l4 * 0x1_0000 + avl * 0x10_0000
                + l * 0x20_0000 + d * 0x40_0000 + g * 0x80_0000 + b3 * 0x100_0000;
    var h9 := g + 2 * b3;
    var h8 := d + 2 * h9;
    var h7 := l + 2 * h8;
    var h5 := l4 + 16 * (avl + 2 * h7);
    var h4 := p + 2 * h5;
    var h3 := dpl + 4 * h4;
    var h1 := kind + 16 * (system + 2 * h3);
    Field(high, 0x100, h1, b2, 16, system + 2 * h3, kind);
    Field(high, 0x2000, h3, b2 + kind * 0x100 + system * 0x1000, 4, h4, dpl);
    Field(high, 0x8000, h4, b2 + kind * 0x100 + system * 0x1000 + dpl * 0x2000, 2, h5, p);
    var below := b2 + kind * 0x100 + system * 0x1000 + dpl * 0x2000 + p * 0x8000;
    Field(high, 0x1_0000, h5, below, 16, avl + 2 * h7, l4);
    Field(high, 0x20_0000, h7, below + l4 * 0x1_0000 + avl * 0x10_0000, 2, h8, l);
    Field(high, 0x40_0000, h8, below + l4 * 0x1_0000 + avl * 0x10_0000 + l * 0x20_0000, 2, h9, d);
    Field(high, 0x80_0000, h9, below + l4 * 0x1_0000 + avl * 0x10_0000 + l * 0x20_0000 + d * 0x40_0000, 2, b3, g);
    DivUnique(high, 0x100_0000, b3, high - b3 * 0x100_0000);
  }

  lemma {:induction false} Field(x: nat, scale: nat, q: nat, r: nat, width: nat, rest: nat, field: nat)
    requires scale > 0 && width > 0 && x == scale * q + r && r < scale && q == width * rest + field && field < width
    ensures x / scale % width == field && x % scale == r
  {
    DivUnique(x, scale, q, r);
    DivUnique(q, width, rest, field);
  }

  // A CALL that faults.

  /** Only the exception and CR2 tell the states apart. */
  predicate FaultOnly(before: Machine, after: Machine) {
    && after.mem == before.mem
    && after.cpu == before.cpu.(
         exception := after.cpu.exception,
         scalar := before.cpu.scalar.(
           controlRegs := before.cpu.scalar.controlRegs[2 := after.cpu.scalar.controlRegs[2]]))
  }

  lemma {:induction false} CheckedFaultOnly(m: Machine, address: u64, n: nat, access: Access)
    ensures FaultOnly(m, Checked(m, address, n, access))
    ensures !Pending(Checked(m, address, n, access).cpu) ==> Checked(m, address, n, access) == m
  {
    hide FirstFault, FaultAt, Wrap;
    SameControl(m);
  }

  lemma {:induction false} SameControl(m: Machine)
    ensures FaultOnly(m, m)
    ensures m.cpu.scalar.controlRegs[2 := m.cpu.scalar.controlRegs[2]] == m.cpu.scalar.controlRegs
  {
    assert m.cpu.scalar.controlRegs[2 := m.cpu.scalar.controlRegs[2]] == m.cpu.scalar.controlRegs;
  }

  lemma {:induction false} FaultTwice(a: Machine, b: Machine, c: Machine)
    requires FaultOnly(a, b) && FaultOnly(b, c)
    ensures FaultOnly(a, c)
  {
    var regs := a.cpu.scalar.controlRegs;
    assert regs[2 := b.cpu.scalar.controlRegs[2]][2 := c.cpu.scalar.controlRegs[2]]
        == regs[2 := c.cpu.scalar.controlRegs[2]];
  }

  lemma {:induction false} RaiseFaultOnly(m: Machine, code: ExceptionCode, error: nat)
    ensures FaultOnly(m, m.(cpu := Raise(m.cpu, code, error)))
  {
    SameControl(m);
  }

  lemma {:induction false} PushFaultOnly(m: Machine, n: nat, value: nat)
    ensures Pending(Push(m, n, value).cpu) ==> FaultOnly(m, Push(m, n, value))
  {
    hide Checked, Accessible, StackAdd, StackPointer, SetStackPointer, Unsupported, StackModulus, StoreBytes,
      FaultOnly, Pending,
      Raise, Push;
    SameControl(m);
    if Pending(m.cpu) {
      PushPending(m, n, value);
    } else if Unsupported(m.cpu, n) {
      PushUnsupported(m, n, value);
      RaiseFaultOnly(m, GP, 0);
    } else {
      PushKinds(m, n, value);
      CheckedFaultOnly(m, PushSlot(m.cpu, n), n, Write);
      MovedPending(m.cpu, PushSlot(m.cpu, n));
    }
  }

  lemma {:induction false} MovedPending(c: Cpu, slot: u64)
    requires slot < StackModulus(c)
    ensures Pending(SetStackPointer(c, slot)) == Pending(c)
  {
    hide StackModulus, Wrap;
  }

  lemma {:induction false} PushTwoFaultOnly(m: Machine, first: nat, second: nat, n: nat)
    ensures Pending(PushTwo(m, first, second, n).cpu) ==> FaultOnly(m, PushTwo(m, first, second, n))
  {
    hide Checked, Accessible, StackAdd, StackPointer, SetStackPointer, Unsupported, StackModulus, StoreBytes,
      FaultOnly, Pending,
      Raise;
    SameControl(m);
    RaiseFaultOnly(m, GP, 0);
    var firstSlot := PushSlot(m.cpu, n);
    var secondSlot := StackAdd(m.cpu, firstSlot, -(n as int));
    CheckedFaultOnly(m, firstSlot, n, Write);
    CheckedFaultOnly(m, secondSlot, n, Write);
    MovedPending(m.cpu, secondSlot);
  }

  /** A near CALL that faults has changed no memory byte, no register, no segment and not RIP. */
  lemma {:induction false} NearFaultChangesNothing(m: Machine, target: u64, returnRip: u64, n: nat)
    ensures Pending(CallNear(m, target, returnRip, n).cpu) ==> FaultOnly(m, CallNear(m, target, returnRip, n))
  {
    hide Push, ValidCodeOffset, MaskOffset, FaultOnly, Pending, Raise;
    RaiseFaultOnly(m, GP, 0);
    PushFaultOnly(m, n, MaskOffset(returnRip, 8 * n));
    var pushed := Push(m, n, MaskOffset(returnRip, 8 * n));
    JumpPending(pushed.cpu, target);
  }

  lemma {:induction false} JumpPending(c: Cpu, target: u64)
    ensures Pending(Jump(c, target)) == Pending(c)
  {
  }

  lemma {:induction false} LoadFaultOnly(m: Machine, selector: nat)
    ensures FaultOnly(m, LoadDescriptor(m, selector).0)
    ensures !Pending(LoadDescriptor(m, selector).0.cpu) ==> LoadDescriptor(m, selector).0 == m
  {
    hide Checked, LoadValue, FaultOnly, DescriptorOf, Pending, Raise;
    RaisePends(m.cpu, GP, SelectorError(selector));
    RaiseFaultOnly(m, GP, SelectorError(selector));
    var address := DescriptorAddress(m.cpu, selector);
    CheckedFaultOnly(m, address, 4, Read);
    CheckedFaultOnly(Checked(m, address, 4, Read), Wrap(address as int + 4), 4, Read);
    FaultTwice(m, Checked(m, address, 4, Read),
               Checked(Checked(m, address, 4, Read), Wrap(address as int + 4), 4, Read));
  }

  lemma {:induction false} RaisePends(c: Cpu, code: ExceptionCode, error: nat)
    requires code != NoException
    ensures Pending(Raise(c, code, error))
  {
  }

  lemma {:induction false} LoadCsPending(c: Cpu, s: Segment, selector: nat, target: u64)
    ensures Pending(LoadCs(c, s, selector, target)) == Pending(c)
    ensures !LoadCs(c, s, selector, target).modeKeyValid
    ensures LoadCs(c, s, selector, target).scalar.longModeActive == c.scalar.longModeActive
  {
    hide Or;
  }

  lemma {:induction false} EnterFaultOnly(m: Machine, selector: nat, offset: u64, operandSize: nat, returnRip: u64,
      indirect: bool)
    ensures var after := EnterFar(m, selector, offset, operandSize, returnRip, indirect);
            Pending(after.cpu) ==> FaultOnly(m, after)
  {
    hide LoadDescriptor, Refusal, FarTarget, ValidCodeOffset, FarSlot, PushTwo, Pending, MaskOffset, Raise, LoadCs,
      FaultOnly;
    LoadFaultOnly(m, selector);
    RaiseFaultOnly(m, GP, 0);
    RaiseFaultOnly(m, GP, SelectorError(selector));
    RaiseFaultOnly(m, NP, SelectorError(selector));
    var s := LoadDescriptor(m, selector).1;
    RefusalCodes(m.cpu, s, selector, indirect);
    var target := FarTarget(s, offset, operandSize, indirect);
    var n := FarSlot(m.cpu, operandSize, indirect);
    PushTwoFaultOnly(m, m.cpu.scalar.segments.cs.selector, MaskOffset(returnRip, 8 * n), n);
    var pushed := PushTwo(m, m.cpu.scalar.segments.cs.selector, MaskOffset(returnRip, 8 * n), n);
    LoadCsPending(pushed.cpu, s, selector, target);
  }

  lemma {:induction false} RefusalCodes(c: Cpu, s: Segment, selector: nat, indirect: bool)
    ensures Refusal(c, s, selector, indirect) in {None, Some(GP), Some(NP)}
  {
  }

  /** So does a far CALL, through memory or direct. */
  lemma {:induction false} FarFaultChangesNothing(m: Machine, address: u64, selector: nat, offset: u64,
      operandSize: nat, returnRip: u64)
    requires operandSize == 16 || operandSize == 32 || operandSize == 64
    ensures var after := CallFarMem(m, address, operandSize, returnRip);
            Pending(after.cpu) ==> FaultOnly(m, after)
    ensures var after := CallFarPtr(m, selector, offset, operandSize, returnRip);
            Pending(after.cpu) ==> FaultOnly(m, after)
  {
    hide EnterFar, Checked, LoadValue, Pending, FaultOnly, Wrap;
    var n := operandSize / 8;
    var m1 := Checked(m, address, n, Read);
    var m2 := Checked(m1, Wrap(address + n), 2, Read);
    CheckedFaultOnly(m, address, n, Read);
    CheckedFaultOnly(m1, Wrap(address + n), 2, Read);
    FaultTwice(m, m1, m2);
    EnterFaultOnly(m2, LoadValue(m1, Wrap(address + n), 2), Wrap(LoadValue(m, address, n)), operandSize, returnRip,
                   true);
    EnterFaultOnly(m, selector, offset, operandSize, returnRip, false);
  }

  // A far CALL that goes through.

  lemma {:induction false} FaultOnlyCoherent(before: Machine, after: Machine)
    requires FaultOnly(before, after) && ModeKeyCoherent(before.cpu)
    ensures ModeKeyCoherent(after.cpu)
  {
  }

  lemma {:induction false} PushTwoMode(m: Machine, first: nat, second: nat, n: nat)
    requires !Pending(PushTwo(m, first, second, n).cpu)
    ensures var after := PushTwo(m, first, second, n);
            && after.cpu == m.cpu.(scalar := m.cpu.scalar.(regs := after.cpu.scalar.regs))
            && SlotSize(n) && Accessible(m, PushSlot(m.cpu, n), n, Write)
            && StackPointer(after.cpu) == StackAdd(m.cpu, PushSlot(m.cpu, n), -(n as int))
  {
    hide Checked, Accessible, StackAdd, StackPointer, SetStackPointer, Unsupported, StackModulus, StoreBytes, Pending,
      Raise, Wrap;
    RaisePends(m.cpu, GP, 0);
    var firstSlot := PushSlot(m.cpu, n);
    var secondSlot := StackAdd(m.cpu, firstSlot, -(n as int));
    if !Pending(m.cpu) {
      CheckedPends(m, firstSlot, n, Write);
      CheckedPends(m, secondSlot, n, Write);
      StackPointerMoved(m.cpu, secondSlot);
    }
  }

  /** A far CALL that does not fault enters a present code segment at the caller's privilege, with both halves
      of the return address pushed; and the cached mode key never lags behind the new segment. */
  lemma {:induction false} FarCallEnters(m: Machine, selector: nat, offset: u64, operandSize: nat, returnRip: u64,
      indirect: bool)
    ensures var after := EnterFar(m, selector, offset, operandSize, returnRip, indirect);
            && (ModeKeyCoherent(m.cpu) ==> ModeKeyCoherent(after.cpu))
            && (!Pending(after.cpu) ==>
                  var cs := after.cpu.scalar.segments.cs;
                  var n := FarSlot(m.cpu, operandSize, indirect);
                  && CodeSegment(cs) && cs.present && cs.selector == Or(SelectorError(selector), m.cpu.scalar.cpl)
                  && after.cpu.scalar.cpl == m.cpu.scalar.cpl && !after.cpu.modeKeyValid
                  && (if Conforming(cs) then cs.dpl <= m.cpu.scalar.cpl
                      else cs.dpl == m.cpu.scalar.cpl && selector % 4 <= m.cpu.scalar.cpl)
                  && (indirect && m.cpu.scalar.longModeActive ==> !(cs.longMode && cs.db))
                  && after.cpu.scalar.rip == FarTarget(LoadDescriptor(m, selector).1, offset, operandSize, indirect)
                  && after.mem == PushTwo(m, m.cpu.scalar.segments.cs.selector, MaskOffset(returnRip, 8 * n), n).mem
                  && after.cpu.scalar.regs
                     == PushTwo(m, m.cpu.scalar.segments.cs.selector, MaskOffset(returnRip, 8 * n), n).cpu.scalar.regs)
  {
    hide LoadDescriptor, FarTarget, ValidCodeOffset, FarSlot, PushTwo, Pending, MaskOffset, Raise, Or, ModeKeyCoherent;
    EnterFaultOnly(m, selector, offset, operandSize, returnRip, indirect);
    LoadFaultOnly(m, selector);
    RaisePends(m.cpu, GP, 0);
    RaisePends(m.cpu, GP, SelectorError(selector));
    RaisePends(m.cpu, NP, SelectorError(selector));
    var after := EnterFar(m, selector, offset, operandSize, returnRip, indirect);
    if Pending(after.cpu) {
      if ModeKeyCoherent(m.cpu) {
        FaultOnlyCoherent(m, after);
      }
    } else {
      var s := LoadDescriptor(m, selector).1;
      RefusalCodes(m.cpu, s, selector, indirect);
      var n := FarSlot(m.cpu, operandSize, indirect);
      var target := FarTarget(s, offset, operandSize, indirect);
      var pushed := PushTwo(m, m.cpu.scalar.segments.cs.selector, MaskOffset(returnRip, 8 * n), n);
      LoadCsPending(pushed.cpu, s, selector, target);
      PushTwoMode(m, m.cpu.scalar.segments.cs.selector, MaskOffset(returnRip, 8 * n), n);
      NewKey(m.cpu, after.cpu);
    }
  }

  /** The frame a far CALL leaves, as the caller's stack sees it: the masked return address on top, the selector of
      the old segment behind it, and RSP at the top. */
  lemma {:induction false} FarFrame(m: Machine, selector: nat, offset: u64, operandSize: nat, returnRip: u64,
      indirect: bool)
    requires var n, cs := FarSlot(m.cpu, operandSize, indirect), m.cpu.scalar.segments.cs.selector;
             var firstSlot := PushSlot(m.cpu, n);
             && cs < 0x1_0000 && Unaliased(m.mem)
             && Accessible(m, firstSlot, n, Read) && Accessible(m, StackAdd(m.cpu, firstSlot, -(n as int)), n, Read)
    requires !Pending(m.cpu) && !Pending(EnterFar(m, selector, offset, operandSize, returnRip, indirect).cpu)
    ensures var after := EnterFar(m, selector, offset, operandSize, returnRip, indirect);
            var n := FarSlot(m.cpu, operandSize, indirect);
            var firstSlot := PushSlot(m.cpu, n);
            var secondSlot := StackAdd(m.cpu, firstSlot, -(n as int));
            && StackPointer(m.cpu.(scalar := m.cpu.scalar.(regs := after.cpu.scalar.regs))) == secondSlot
            && LoadValue(m.(mem := after.mem), secondSlot, n) == MaskOffset(returnRip, 8 * n)
            && LoadValue(m.(mem := after.mem), firstSlot, n) == m.cpu.scalar.segments.cs.selector
  {
    hide LoadDescriptor, FarTarget, ValidCodeOffset, FarSlot, PushTwo, Pending, MaskOffset, Raise, Or, ModeKeyCoherent,
      Accessible, Unaliased, LoadValue, StackPointer, StackAdd, PushSlot, Pow2, EnterFar, StackModulus;
    var n, cs := FarSlot(m.cpu, operandSize, indirect), m.cpu.scalar.segments.cs.selector;
    FarCallEnters(m, selector, offset, operandSize, returnRip, indirect);
    FarSlotSize(m.cpu, operandSize, indirect);
    FarPushed(m, selector, offset, operandSize, returnRip, indirect);
    HalvesFit(n, cs, returnRip);
    PushTwoHolds(m, cs, MaskOffset(returnRip, 8 * n), n);
    PushTwoMode(m, cs, MaskOffset(returnRip, 8 * n), n);
  }

  lemma {:induction false} FarSlotSize(c: Cpu, operandSize: nat, indirect: bool)
    ensures SlotSize(FarSlot(c, operandSize, indirect))
  {
  }

  lemma {:induction false} FarPushed(m: Machine, selector: nat, offset: u64, operandSize: nat, returnRip: u64,
      indirect: bool)
    requires !Pending(EnterFar(m, selector, offset, operandSize, returnRip, indirect).cpu)
    ensures var n := FarSlot(m.cpu, operandSize, indirect);
            !Pending(PushTwo(m, m.cpu.scalar.segments.cs.selector, MaskOffset(returnRip, 8 * n), n).cpu)
  {
    hide LoadDescriptor, FarTarget, ValidCodeOffset, FarSlot, PushTwo, Pending, MaskOffset, Raise, Or, Refusal;
    LoadFaultOnly(m, selector);
    RaisePends(m.cpu, GP, 0);
    RaisePends(m.cpu, GP, SelectorError(selector));
    RaisePends(m.cpu, NP, SelectorError(selector));
    var s := LoadDescriptor(m, selector).1;
    RefusalCodes(m.cpu, s, selector, indirect);
    var n := FarSlot(m.cpu, operandSize, indirect);
    LoadCsPending(PushTwo(m, m.cpu.scalar.segments.cs.selector, MaskOffset(returnRip, 8 * n), n).cpu, s, selector,
                  FarTarget(s, offset, operandSize, indirect));
  }

  lemma {:induction false} HalvesFit(n: nat, selector: nat, returnRip: u64)
    requires SlotSize(n) && selector < 0x1_0000
    ensures selector < Pow2(8 * n) && MaskOffset(returnRip, 8 * n) < Pow2(8 * n)
  {
    WordIsPow2();
  }

  lemma {:induction false} NewKey(before: Cpu, after: Cpu)
    requires !after.modeKeyValid && after.scalar.longModeActive == before.scalar.longModeActive
    ensures ModeKeyCoherent(before) ==> ModeKeyCoherent(after)
  {
  }
}
