/** Far CALL from the bytes in memory on: which bytes are the pointer, which are the descriptor, and what they make
    of CS and RIP. */
module FarPointers {
  import opened Bits
  import opened MemoryManagement
  import opened CpuState
  import opened LinearMemory
  import opened Stack
  import opened Calls

  // Two reads in a row are one.

  lemma {:induction false} FirstOfTwo(m: Machine, address: u64, n: nat, k: nat)
    ensures var f, g := FirstFault(m, address, n, Read), FirstFault(m, Wrap(address + n), k, Read);
            FirstFault(m, address, n + k, Read) == if f < n then f else n + g
  {
    hide FaultAt, Wrap;
    var f, g := FirstFault(m, address, n, Read), FirstFault(m, Wrap(address + n), k, Read);
    if f < n {
      FirstFaultIs(m, address, n + k, Read, f);
    } else {
      forall i: nat | i < n + g
        ensures ByteFault(m, address, i, Read) == NoFault
      {
        if i >= n {
          WrapStep(address, n, i - n);
          assert ByteFault(m, Wrap(address + n), i - n, Read) == NoFault;
        }
      }
      WrapStep(address, n, g);
      FirstFaultIs(m, address, n + k, Read, n + g);
    }
  }

  /** The second of two reads finds the machine as the first left it, so that the pair faults like one read. */
  lemma {:induction false} TwoReads(m: Machine, address: u64, n: nat, k: nat)
    requires !Pending(m.cpu)
    ensures var first := Checked(m, address, n, Read);
            && Checked(first, Wrap(address + n), k, Read) == Checked(m, address, n + k, Read)
            && (Accessible(m, address, n + k, Read) <==>
                Accessible(m, address, n, Read) && Accessible(m, Wrap(address + n), k, Read))
            && (Accessible(m, address, n, Read) ==> first == m)
  {
    hide FaultAt, Wrap, FirstFault, RaiseFault;
    FirstOfTwo(m, address, n, k);
    CheckedPends(m, address, n, Read);
    if FirstFault(m, address, n, Read) == n {
      WrapStep(address, n, FirstFault(m, Wrap(address + n), k, Read));
    }
  }

  lemma {:induction false} BytesOfTwo(mem: Mem, address: u64, n: nat, k: nat)
    ensures BytesAt(mem, address, n + k) == BytesAt(mem, address, n) + BytesAt(mem, Wrap(address + n), k)
  {
    hide Wrap, ByteAt;
    var all, rest := BytesAt(mem, address, n + k), BytesAt(mem, Wrap(address + n), k);
    forall j | 0 <= j < k
      ensures all[n + j] == rest[j]
    {
      WrapStep(address, n, j);
    }
  }

  /** Two numbers that lie in memory one behind the other, as two reads find them. */
  lemma {:induction false} PairInMemory(m: Machine, address: u64, n: nat, k: nat, x: nat, y: nat)
    requires x < Pow2(8 * n) && y < Pow2(8 * k)
    requires Accessible(m, address, n + k, Read) && BytesAt(m.mem, address, n + k) == Bytes(x, n) + Bytes(y, k)
    ensures LoadValue(m, address, n) == x && LoadValue(m, Wrap(address + n), k) == y
    ensures Accessible(m, address, n, Read) && Accessible(m, Wrap(address + n), k, Read)
  {
    hide Wrap, BytesAt, Bytes, FirstFault, LittleEndian, Pow2, Pending, Checked;
    TwoReads(m, address, n, k);
    BytesOfTwo(m.mem, address, n, k);
    assert BytesAt(m.mem, address, n + k)[..n] == Bytes(x, n);
    assert BytesAt(m.mem, address, n + k)[n..] == Bytes(y, k);
    ValueOfBytes(x, n);
    ValueOfBytes(y, k);
  }

  // A near CALL.

  /** A relative CALL goes to the sum of the return address and the displacement, at the operand size, and leaves the
      return address below the stack pointer; it faults on a target outside the canonical range, and as its push
      does. */
  lemma {:induction false} NearCallLands(m: Machine, rel: int, returnRip: u64, n: nat)
    requires SlotSize(n) && !Pending(m.cpu) && (Is64BitCode(m.cpu) || n != 8)
    ensures var to := (returnRip + rel) % 0x1_0000_0000_0000_0000 % Pow2(8 * n);
            var pushed := Push(m, n, returnRip % Pow2(8 * n));
            var after := CallNear(m, RelativeTarget(returnRip, rel, n), returnRip, n);
            if Is64BitCode(m.cpu) && !Canonical(Wrap(to)) then
              after == m.(cpu := m.cpu.(exception := Exception(GP, 0)))
            else if Pending(pushed.cpu) then after == pushed
            else after == pushed.(cpu := pushed.cpu.(scalar := pushed.cpu.scalar.(rip := Wrap(to))))
  {
    hide Push, Canonical, Pow2, MaskOffset, Is64BitCode;
    SlotOffset(Wrap(returnRip + rel), n);
    SlotOffset(returnRip, n);
    SlotOffset(MaskOffset(Wrap(returnRip + rel), 8 * n), n);
  }

  lemma {:induction false} SlotOffset(x: u64, n: nat)
    requires SlotSize(n)
    ensures MaskOffset(x, 8 * n) == x % Pow2(8 * n) == Wrap(x % Pow2(8 * n))
    ensures MaskOffset(MaskOffset(x, 8 * n), 8 * n) == MaskOffset(x, 8 * n)
  {
    hide Pow2;
    WordIsPow2();
    if n == 2 {
      assert x % 0x1_0000 % 0x1_0000 == x % 0x1_0000;
    } else if n == 4 {
      assert x % 0x1_0000_0000 % 0x1_0000_0000 == x % 0x1_0000_0000;
    }
  }

  // The pointer.

  /** The operand of a far CALL is the offset, in as many bytes as the operand size says, with the selector in the
      two bytes behind it; when one of those bytes cannot be read, the first such byte faults. */
  lemma {:induction false} PointerInMemory(m: Machine, address: u64, operandSize: nat, returnRip: u64, offset: u64,
      selector: nat)
    requires operandSize == 16 || operandSize == 32 || operandSize == 64
    requires !Pending(m.cpu) && offset < Pow2(operandSize) && selector < 0x1_0000
    requires BytesAt(m.mem, address, operandSize / 8 + 2) == Bytes(offset, operandSize / 8) + Bytes(selector, 2)
    ensures Accessible(m, address, operandSize / 8 + 2, Read) ==>
              CallFarMem(m, address, operandSize, returnRip)
              == EnterFar(m, selector, offset, operandSize, returnRip, true)
    ensures !Accessible(m, address, operandSize / 8 + 2, Read) ==>
              CallFarMem(m, address, operandSize, returnRip) == Checked(m, address, operandSize / 8 + 2, Read)
  {
    hide EnterFar, Checked, Accessible, LoadValue, Pending, Wrap, Pow2, Bytes, BytesAt;
    var n := operandSize / 8;
    TwoReads(m, address, n, 2);
    CheckedPends(m, address, n + 2, Read);
    assert 8 * n == operandSize;
    WordIsPow2();
    if Accessible(m, address, n + 2, Read) {
      PairInMemory(m, address, n, 2, offset, selector);
      UnfoldWrap(offset);
    }
  }

  lemma {:induction false} UnfoldWrap(x: u64)
    ensures Wrap(x) == x
  {
  }

  // The descriptor.

  /** A segment descriptor by its fields; the limit is the 20-bit field. */
  datatype Descriptor = Descriptor(
    base: u64, limit: nat, kind: nat, system: nat, dpl: nat, present: bool, available: nat, longMode: bool, db: bool,
    granular: bool)

  predicate Fits(d: Descriptor) {
    d.base < 0x1_0000_0000 && d.limit < 0x10_0000 && d.kind < 16 && d.system < 2 && d.dpl < 4 && d.available < 2
  }

  /** The segment it describes, but for the selector. */
  function Described(d: Descriptor): Segment {
    Segment(0, d.base, if d.granular then (d.limit + 1) * 0x1000 - 1 else d.limit, d.kind, d.dpl, d.present,
            d.granular, d.db, d.longMode)
  }

  /** Entry number selector / 8 of the GDT, or of the LDT when bit 2 of the selector is set. */
  function EntryAddress(c: Cpu, selector: nat): u64 {
    var table: int := if selector / 4 % 2 == 1 then c.scalar.tables.ldtrBase else c.scalar.tables.gdtrBase;
    Wrap(table + selector / 8 * 8)
  }

  predicate WithinTable(c: Cpu, selector: nat) {
    selector / 8 * 8 + 7 <= if selector / 4 % 2 == 1 then c.scalar.tables.ldtrLimit else c.scalar.tables.gdtrLimit
  }

  /** The eight bytes there are those of the descriptor. */
  predicate HoldsDescriptor(m: Machine, selector: nat, d: Descriptor) {
    var (low, high) := DescriptorDwords(d.base, d.limit, d.kind, d.system, d.dpl, d.present, d.available, d.longMode,
                                        d.db, d.granular);
    BytesAt(m.mem, EntryAddress(m.cpu, selector), 8) == Bytes(low, 4) + Bytes(high, 4)
  }

  lemma {:induction false} DwordsFit(d: Descriptor)
    requires Fits(d)
    ensures var (low, high) := DescriptorDwords(d.base, d.limit, d.kind, d.system, d.dpl, d.present, d.available,
                                                d.longMode, d.db, d.granular);
            low < 0x1_0000_0000 && high < 0x1_0000_0000
  {
  }

  /** Loading gives what the descriptor describes, or the fault of its first unreadable byte; past the limit of the
      table it raises #GP with the selector. */
  lemma {:induction false} DescriptorInMemory(m: Machine, selector: nat, d: Descriptor)
    requires !Pending(m.cpu) && Fits(d) && HoldsDescriptor(m, selector, d)
    ensures var (after, s) := LoadDescriptor(m, selector);
            if !WithinTable(m.cpu, selector) then
              after == m.(cpu := m.cpu.(exception := Exception(GP, selector / 4 * 4)))
            else if !Accessible(m, EntryAddress(m.cpu, selector), 8, Read) then
              after == Checked(m, EntryAddress(m.cpu, selector), 8, Read) && Pending(after.cpu)
            else after == m && s == Described(d)
  {
    hide Checked, Accessible, LoadValue, Wrap, Pow2, Bytes, BytesAt, DescriptorOf, DescriptorDwords;
    var address := EntryAddress(m.cpu, selector);
    assert address == DescriptorAddress(m.cpu, selector);
    TwoReads(m, address, 4, 4);
    CheckedPends(m, address, 8, Read);
    if WithinTable(m.cpu, selector) && Accessible(m, address, 8, Read) {
      var (low, high) := DescriptorDwords(d.base, d.limit, d.kind, d.system, d.dpl, d.present, d.available,
                                          d.longMode, d.db, d.granular);
      DwordsFit(d);
      WordIsPow2();
      PairInMemory(m, address, 4, 4, low, high);
      DescriptorRoundTrip(d.base, d.limit, d.kind, d.system, d.dpl, d.present, d.available, d.longMode, d.db,
                          d.granular);
    }
  }

  // Through the call.

  /** #GP or #NP where the segment may not be entered. */
  function Denied(c: Cpu, d: Descriptor, selector: nat, indirect: bool): Option<ExceptionCode> {
    var code, conforming := d.kind / 8 == 1, d.kind / 4 % 2 == 1;
    if !code || (indirect && c.scalar.longModeActive && d.longMode && d.db) then Some(GP)
    else if (if conforming then d.dpl > c.scalar.cpl else d.dpl != c.scalar.cpl || selector % 4 > c.scalar.cpl) then
      Some(GP)
    else if !d.present then Some(NP)
    else None
  }

  /** Where execution goes on: the offset, cut to the operand size outside 64-bit segments. */
  function Destination(d: Descriptor, offset: u64, operandSize: nat, indirect: bool): u64 {
    if indirect && d.longMode then offset
    else if operandSize == 16 then offset % 0x1_0000
    else if indirect then offset % 0x1_0000_0000
    else offset
  }

  /** Eight bytes a slot for the indirect form in 64-bit code, else four for 32-bit operands and two for others. */
  function SlotBytes(c: Cpu, operandSize: nat, indirect: bool): nat {
    if indirect && Is64BitCode(c) then 8 else if operandSize == 32 then 4 else 2
  }

  lemma {:induction false} DenialIsRefusal(c: Cpu, d: Descriptor, selector: nat, indirect: bool)
    requires Fits(d)
    ensures Refusal(c, Described(d), selector, indirect) == Denied(c, d, selector, indirect)
  {
  }

  lemma {:induction false} OrLowBits(x: nat, low: nat)
    requires low < 4
    ensures Or(x / 4 * 4, low) == x / 4 * 4 + low
  {
    var a := x / 4;
    OrZero(a);
    assert Or(2 * a, low / 2) == low / 2 + 2 * Or(a, 0);
    assert Or(4 * a, low) == low % 2 + 2 * Or(2 * a, low / 2);
  }

  lemma {:induction false} OrZero(x: nat)
    ensures Or(x, 0) == x
  {
    if x > 0 { OrZero(x / 2); }
  }

  /** The return address at the slot size is the low part of RIP. */
  lemma {:induction false} ReturnSlot(returnRip: u64, n: nat)
    requires n == 2 || n == 4 || n == 8
    ensures MaskOffset(returnRip, 8 * n) == returnRip % Pow2(8 * n)
  {
    WordIsPow2();
  }

  /** A far CALL to a descriptor in memory, from the selector to CS and RIP: which table, which entry, who may enter,
      where it goes, what is pushed, and which exception each refusal raises with which error. */
  lemma {:induction false} FarCallLands(m: Machine, selector: nat, offset: u64, d: Descriptor, operandSize: nat,
      returnRip: u64, indirect: bool)
    requires operandSize == 16 || operandSize == 32 || (operandSize == 64 && indirect)
    requires !indirect ==> offset < 0x1_0000_0000
    requires !Pending(m.cpu) && selector / 4 != 0 && Fits(d) && HoldsDescriptor(m, selector, d)
    requires WithinTable(m.cpu, selector) && Accessible(m, EntryAddress(m.cpu, selector), 8, Read)
    ensures var after := EnterFar(m, selector, offset, operandSize, returnRip, indirect);
            var n, to := SlotBytes(m.cpu, operandSize, indirect), Destination(d, offset, operandSize, indirect);
            var pushed := PushTwo(m, m.cpu.scalar.segments.cs.selector, returnRip % Pow2(8 * n), n);
            match Denied(m.cpu, d, selector, indirect)
            case Some(code) => after == m.(cpu := m.cpu.(exception := Exception(code, selector / 4 * 4)))
            case None =>
              if Is64BitCode(m.cpu) && !Canonical(to) then
                after == m.(cpu := m.cpu.(exception := Exception(GP, 0)))
              else if Pending(pushed.cpu) then after == pushed
              else
                && after.mem == pushed.mem && !Pending(after.cpu)
                && after.cpu.scalar == pushed.cpu.scalar.(
                     rip := to,
                     segments := m.cpu.scalar.segments.(cs := after.cpu.scalar.segments.cs))
                && after.cpu.scalar.segments.cs
                   == Described(d).(selector := after.cpu.scalar.segments.cs.selector)
                && (m.cpu.scalar.cpl < 4 ==>
                      after.cpu.scalar.segments.cs.selector == selector / 4 * 4 + m.cpu.scalar.cpl)
  {
    hide LoadDescriptor, Refusal, Denied, ValidCodeOffset, PushTwo, MaskOffset, Or, Canonical, Accessible, Pow2,
      HoldsDescriptor, Described, Pending, EntryAddress, FarTarget, FarSlot, Destination, SlotBytes, Is64BitCode,
      LoadCs, WithinTable, EnterFar;
    DescriptorInMemory(m, selector, d);
    DenialIsRefusal(m.cpu, d, selector, indirect);
    DeniedKinds(m.cpu, d, selector, indirect);
    Entered(m, selector, offset, Described(d), operandSize, returnRip, indirect);
    SameTarget(m.cpu, d, offset, operandSize, indirect);
    var n, to := SlotBytes(m.cpu, operandSize, indirect), Destination(d, offset, operandSize, indirect);
    ReturnSlot(returnRip, n);
    PushedSegments(m, m.cpu.scalar.segments.cs.selector, returnRip % Pow2(8 * n), n);
    LoadedCs(PushTwo(m, m.cpu.scalar.segments.cs.selector, returnRip % Pow2(8 * n), n).cpu, Described(d), selector,
             to);
  }

  lemma {:induction false} DeniedKinds(c: Cpu, d: Descriptor, selector: nat, indirect: bool)
    ensures Denied(c, d, selector, indirect) in {None, Some(GP), Some(NP)}
  {
  }

  lemma {:induction false} SameTarget(c: Cpu, d: Descriptor, offset: u64, operandSize: nat, indirect: bool)
    requires operandSize == 16 || operandSize == 32 || (operandSize == 64 && indirect)
    requires !indirect ==> offset < 0x1_0000_0000
    ensures FarTarget(Described(d), offset, operandSize, indirect) == Destination(d, offset, operandSize, indirect)
    ensures FarSlot(c, operandSize, indirect) == SlotBytes(c, operandSize, indirect)
    ensures SlotBytes(c, operandSize, indirect) in {2, 4, 8}
    ensures ValidCodeOffset(c, Destination(d, offset, operandSize, indirect),
                            if indirect && d.longMode then 64 else operandSize)
            == !(Is64BitCode(c) && !Canonical(Destination(d, offset, operandSize, indirect)))
    ensures Described(d).longMode == d.longMode
  {
    hide Canonical, Is64BitCode;
    var to := Destination(d, offset, operandSize, indirect);
    assert MaskOffset(to, if indirect && d.longMode then 64 else operandSize) == to;
  }

  /** EnterFar behind a descriptor that was loaded. */
  lemma {:induction false} Entered(m: Machine, selector: nat, offset: u64, s: Segment, operandSize: nat, returnRip: u64,
      indirect: bool)
    requires !Pending(m.cpu) && selector / 4 != 0 && LoadDescriptor(m, selector) == (m, s)
    ensures var after := EnterFar(m, selector, offset, operandSize, returnRip, indirect);
            var to, n := FarTarget(s, offset, operandSize, indirect), FarSlot(m.cpu, operandSize, indirect);
            var pushed := PushTwo(m, m.cpu.scalar.segments.cs.selector, MaskOffset(returnRip, 8 * n), n);
            match Refusal(m.cpu, s, selector, indirect)
            case Some(code) => after == m.(cpu := m.cpu.(exception := Exception(code, selector / 4 * 4)))
            case None =>
              if !ValidCodeOffset(m.cpu, to, if indirect && s.longMode then 64 else operandSize) then
                after == m.(cpu := m.cpu.(exception := Exception(GP, 0)))
              else if Pending(pushed.cpu) then after == pushed
              else after == pushed.(cpu := LoadCs(pushed.cpu, s, selector, to))
  {
    hide LoadDescriptor, Refusal, ValidCodeOffset, PushTwo, MaskOffset, FarTarget, FarSlot, LoadCs;
  }

  lemma {:induction false} PushedSegments(m: Machine, first: nat, second: nat, n: nat)
    ensures !Pending(PushTwo(m, first, second, n).cpu) ==>
              var after := PushTwo(m, first, second, n);
              after.cpu.scalar.segments == m.cpu.scalar.segments && after.cpu.scalar.cpl == m.cpu.scalar.cpl
  {
    hide PushTwo, Pending, Accessible, PushSlot, StackPointer, StackAdd;
    if !Pending(PushTwo(m, first, second, n).cpu) {
      PushTwoMode(m, first, second, n);
    }
  }

  lemma {:induction false} LoadedCs(c: Cpu, s: Segment, selector: nat, to: u64)
    ensures var after := LoadCs(c, s, selector, to);
            && after.scalar == c.scalar.(rip := to,
                                         segments := c.scalar.segments.(cs := after.scalar.segments.cs))
            && after.scalar.segments.cs == s.(selector := after.scalar.segments.cs.selector)
            && (c.scalar.cpl < 4 ==> after.scalar.segments.cs.selector == selector / 4 * 4 + c.scalar.cpl)
            && Pending(after) == Pending(c)
  {
    hide Or;
    if c.scalar.cpl < 4 {
      OrLowBits(selector, c.scalar.cpl);
    }
  }

  /** What keeps a far CALL from its descriptor: a null selector, an entry past the limit of the table, or an entry
      that cannot be read. */
  lemma {:induction false} DescriptorOutOfReach(m: Machine, selector: nat, offset: u64, d: Descriptor,
      operandSize: nat, returnRip: u64, indirect: bool)
    requires !Pending(m.cpu) && Fits(d) && HoldsDescriptor(m, selector, d)
    ensures var after := EnterFar(m, selector, offset, operandSize, returnRip, indirect);
            && (selector / 4 == 0 ==> after == m.(cpu := m.cpu.(exception := Exception(GP, 0))))
            && (selector / 4 != 0 && !WithinTable(m.cpu, selector) ==>
                  after == m.(cpu := m.cpu.(exception := Exception(GP, selector / 4 * 4))))
            && (selector / 4 != 0 && WithinTable(m.cpu, selector)
                && !Accessible(m, EntryAddress(m.cpu, selector), 8, Read) ==>
                  after == Checked(m, EntryAddress(m.cpu, selector), 8, Read))
  {
    hide LoadDescriptor, Refusal, ValidCodeOffset, PushTwo, MaskOffset, FarTarget, FarSlot, LoadCs, Accessible,
      HoldsDescriptor, EntryAddress, WithinTable, Checked;
    DescriptorInMemory(m, selector, d);
  }

  /** A far CALL through memory, whole: the bytes of the pointer and the eight of the descriptor decide CS and RIP. */
  lemma {:induction false} CallThroughMemoryLands(m: Machine, address: u64, selector: nat, offset: u64, d: Descriptor,
      operandSize: nat, returnRip: u64)
    requires operandSize == 16 || operandSize == 32 || operandSize == 64
    requires !Pending(m.cpu) && offset < Pow2(operandSize) && selector < 0x1_0000 && m.cpu.scalar.cpl < 4
    requires BytesAt(m.mem, address, operandSize / 8 + 2) == Bytes(offset, operandSize / 8) + Bytes(selector, 2)
    requires Fits(d) && HoldsDescriptor(m, selector, d)
    requires !Pending(CallFarMem(m, address, operandSize, returnRip).cpu)
    ensures var after := CallFarMem(m, address, operandSize, returnRip);
            && selector / 4 != 0 && WithinTable(m.cpu, selector)
            && Accessible(m, address, operandSize / 8 + 2, Read)
            && Accessible(m, EntryAddress(m.cpu, selector), 8, Read)
            && after.cpu.scalar.segments.cs == Described(d).(selector := selector / 4 * 4 + m.cpu.scalar.cpl)
            && after.cpu.scalar.rip == Destination(d, offset, operandSize, true)
            && after.cpu.scalar.cpl == m.cpu.scalar.cpl && Denied(m.cpu, d, selector, true) == None
  {
    hide EnterFar, HoldsDescriptor, Denied, Destination, Accessible, WithinTable, EntryAddress, Described, PushTwo,
      Checked, BytesAt, Pow2, Bytes, CallFarMem, Canonical, Pending;
    PointerInMemory(m, address, operandSize, returnRip, offset, selector);
    CheckedPends(m, address, operandSize / 8 + 2, Read);
    DescriptorOutOfReach(m, selector, offset, d, operandSize, returnRip, true);
    CheckedPends(m, EntryAddress(m.cpu, selector), 8, Read);
    RaisedPends(m.cpu, GP, 0);
    RaisedPends(m.cpu, GP, selector / 4 * 4);
    RaisedPends(m.cpu, NP, selector / 4 * 4);
    DeniedKinds(m.cpu, d, selector, true);
    DescriptorInMemory(m, selector, d);
    FarCallLands(m, selector, offset, d, operandSize, returnRip, true);
    PushedSegments(m, m.cpu.scalar.segments.cs.selector,
                   returnRip % Pow2(8 * SlotBytes(m.cpu, operandSize, true)), SlotBytes(m.cpu, operandSize, true));
  }

  lemma {:induction false} RaisedPends(c: Cpu, code: ExceptionCode, error: nat)
    requires code != NoException
    ensures Pending(c.(exception := Exception(code, error)))
  {
  }
}
