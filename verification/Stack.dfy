/** The stack helpers at the three stack widths. */
module Stack {
  import opened Bits
  import opened MemoryManagement
  import opened CpuState
  import opened LinearMemory

  /** The stack width: 64 bits in 64-bit code, else as SS.B says. */
  function StackSize(c: Cpu): nat {
    if Is64BitCode(c) then 64 else if c.scalar.segments.ss.db then 32 else 16
  }

  function StackModulus(c: Cpu): (m: nat)
    ensures m == 0x1_0000 || m == 0x1_0000_0000 || m == 0x1_0000_0000_0000_0000
  {
    if StackSize(c) == 64 then 0x1_0000_0000_0000_0000 else if StackSize(c) == 32 then 0x1_0000_0000 else 0x1_0000
  }

  /** The stack pointer, as wide as the stack. */
  function StackPointer(c: Cpu): (sp: u64)
    ensures sp < StackModulus(c)
  {
    c.scalar.regs[4] % StackModulus(c)
  }

  function StackAdd(c: Cpu, pointer: int, delta: int): (sp: u64)
    ensures sp < StackModulus(c)
  {
    (pointer + delta) % StackModulus(c)
  }

  /** The bits of RSP above the stack width stay. */
  function SetStackPointer(c: Cpu, pointer: u64): Cpu
    requires pointer < StackModulus(c)
  {
    var rsp := c.scalar.regs[4];
    c.(scalar := c.scalar.(regs := c.scalar.regs[4 := Wrap(rsp - rsp % StackModulus(c) + pointer)]))
  }

  predicate Unsupported(c: Cpu, n: nat) {
    StackSize(c) == 16 && n == 8
  }

  predicate SlotSize(n: nat) {
    n == 2 || n == 4 || n == 8
  }

  function PushSlot(c: Cpu, n: nat): (slot: u64)
    ensures slot < StackModulus(c)
  {
    StackAdd(c, StackPointer(c), -(n as int))
  }

  function Push(m: Machine, n: nat, value: nat): Machine {
    if Pending(m.cpu) then m
    else if Unsupported(m.cpu, n) then m.(cpu := Raise(m.cpu, GP, 0))
    else
      var stored := Store(m, PushSlot(m.cpu, n), n, value);
      if Pending(stored.cpu) then stored
      else stored.(cpu := SetStackPointer(stored.cpu, PushSlot(m.cpu, n)))
  }

  function Pop(m: Machine, n: nat): (Machine, nat) {
    if Unsupported(m.cpu, n) then (m.(cpu := Raise(m.cpu, GP, 0)), 0)
    else
      var slot := StackPointer(m.cpu);
      var loaded := Checked(m, slot, n, Read);
      if Pending(loaded.cpu) then (loaded, 0)
      else (loaded.(cpu := SetStackPointer(loaded.cpu, StackAdd(m.cpu, slot, n))), LoadValue(m, slot, n))
  }

  // The helpers.

  method PushValue(ctx: CpuContext, n: nat, value: nat)
    requires SlotSize(n)
    modifies ctx`scalar, ctx`exception, ctx.memMgr`host
    ensures ctx.Whole() == Push(old(ctx.Whole()), n, value)
  {
    hide Pending, Store, Checked, Accessible, StackAdd, StackPointer, SetStackPointer, Wrap, Is64BitCode, StackModulus;
    if Pending(ctx.State()) {
      return;
    }
    if Unsupported(ctx.State(), n) {
      ctx.RaiseException(GP, 0);
      return;
    }
    var slot := StackAdd(ctx.State(), StackPointer(ctx.State()), -(n as int));
    WriteMemory(ctx, slot, n, value);
    if !Pending(ctx.State()) {
      StoreKeepsModulus(old(ctx.Whole()), slot, n, value);
      MoveStackPointer(ctx, slot);
    }
  }

  lemma {:induction false} StoreKeepsModulus(m: Machine, address: u64, n: nat, value: nat)
    requires !Pending(m.cpu) && !Pending(Store(m, address, n, value).cpu)
    ensures Store(m, address, n, value).cpu == m.cpu && Accessible(m, address, n, Write)
  {
    hide Canonical, FaultAt, FirstFault, Put, Pointers, Bytes;
    StoreFaults(m, address, n, value);
  }

  /** An access that is refused leaves an exception. */
  lemma {:induction false} CheckedPends(m: Machine, address: u64, n: nat, access: Access)
    requires !Pending(m.cpu)
    ensures Accessible(m, address, n, access) ==> Checked(m, address, n, access) == m
    ensures !Accessible(m, address, n, access) ==> Pending(Checked(m, address, n, access).cpu)
    ensures Checked(m, address, n, access).mem == m.mem
  {
    hide FirstFault;
    if !Accessible(m, address, n, access) {
      FaultReport(m, address, n, access);
    }
  }

  lemma {:induction false} StoreFaults(m: Machine, address: u64, n: nat, value: nat)
    requires !Pending(m.cpu)
    ensures !Accessible(m, address, n, Write) ==> Pending(Store(m, address, n, value).cpu)
                                                  && Store(m, address, n, value) == Checked(m, address, n, Write)
    ensures Accessible(m, address, n, Write) ==> Store(m, address, n, value).cpu == m.cpu
  {
    hide Checked, FirstFault, Put, Pointers, Bytes, Pending, Accessible;
    CheckedPends(m, address, n, Write);
  }

  method MoveStackPointer(ctx: CpuContext, pointer: u64)
    requires pointer < StackModulus(ctx.State())
    modifies ctx`scalar
    ensures ctx.State() == SetStackPointer(old(ctx.State()), pointer)
  {
    hide StackModulus;
    var rsp := ctx.scalar.regs[4];
    ctx.scalar := ctx.scalar.(regs := ctx.scalar.regs[4 := Wrap(rsp - rsp % StackModulus(ctx.State()) + pointer)]);
  }

  method PopValue(ctx: CpuContext, n: nat) returns (value: nat)
    requires SlotSize(n)
    modifies ctx`scalar, ctx`exception
    ensures (ctx.Whole(), value) == Pop(old(ctx.Whole()), n)
  {
    hide Pending, Store, Checked, Accessible, LoadValue, StackAdd, StackPointer, SetStackPointer, Wrap, Is64BitCode,
      StackModulus;
    if Unsupported(ctx.State(), n) {
      ctx.RaiseException(GP, 0);
      return 0;
    }
    var slot := StackPointer(ctx.State());
    value := ReadMemory(ctx, slot, n);
    if Pending(ctx.State()) {
      return 0;
    }
    CheckedKeeps(old(ctx.Whole()), slot, n, Read);
    MoveStackPointer(ctx, StackAdd(ctx.State(), slot, n));
  }

  lemma {:induction false} CheckedKeeps(m: Machine, address: u64, n: nat, access: Access)
    requires !Pending(Checked(m, address, n, access).cpu)
    ensures Checked(m, address, n, access) == m && !Pending(m.cpu)
  {
    hide FirstFault;
    if !Pending(m.cpu) && !Accessible(m, address, n, access) {
      FaultReport(m, address, n, access);
    }
  }

  /** Both values go out, or neither: every byte of both slots is resolved before any is written. */
  function PushTwo(m: Machine, first: nat, second: nat, n: nat): Machine {
    if Pending(m.cpu) then m
    else if !SlotSize(n) || Unsupported(m.cpu, n) then m.(cpu := Raise(m.cpu, GP, 0))
    else
      var firstSlot := PushSlot(m.cpu, n);
      var secondSlot := StackAdd(m.cpu, firstSlot, -(n as int));
      if !Accessible(m, firstSlot, n, Write) then Checked(m, firstSlot, n, Write)
      else if !Accessible(m, secondSlot, n, Write) then Checked(m, secondSlot, n, Write)
      else
        var mem1 := StoreBytes(m.mem, firstSlot, Bytes(first, n));
        Machine(SetStackPointer(m.cpu, secondSlot), StoreBytes(mem1, secondSlot, Bytes(second, n)))
  }

  method PushTwoValues(ctx: CpuContext, first: nat, second: nat, n: nat)
    modifies ctx`scalar, ctx`exception, ctx.memMgr`host
    ensures ctx.Whole() == PushTwo(old(ctx.Whole()), first, second, n)
  {
    hide Pending, Checked, Accessible, StackAdd, StackPointer, SetStackPointer, Is64BitCode, StackModulus, Put,
      Pointers, Bytes, FirstFault;
    if Pending(ctx.State()) {
      return;
    }
    if !SlotSize(n) {
      ctx.RaiseException(GP, 0);
      return;
    }
    if Unsupported(ctx.State(), n) {
      ctx.RaiseException(GP, 0);
      return;
    }
    var firstSlot := PushSlot(ctx.State(), n);
    var secondSlot := StackAdd(ctx.State(), firstSlot, -(n as int));
    var ok, firstPtrs := ResolveWrite(ctx, firstSlot, n);
    if !ok {
      return;
    }
    var ok2, secondPtrs := ResolveWrite(ctx, secondSlot, n);
    if !ok2 {
      return;
    }
    CommitBytes(ctx.memMgr, firstPtrs, Bytes(first, n));
    SamePointers(old(ctx.memMgr.View()), ctx.memMgr.View(), secondSlot, n);
    CommitBytes(ctx.memMgr, secondPtrs, Bytes(second, n));
    MoveStackPointer(ctx, secondSlot);
  }

  lemma {:induction false} SamePointers(before: Mem, after: Mem, address: u64, n: nat)
    requires after == before.(host := after.host)
    ensures Pointers(after, address, n) == Pointers(before, address, n)
    decreases n
  {
    hide Ptr, Wrap;
    if n > 0 {
      SamePointers(before, after, address, n - 1);
      SamePtr(before, after, Wrap(address + (n - 1)));
    }
  }

  // Pushing two values is pushing one after the other, except that a fault undoes both.

  lemma {:induction false} PushKinds(m: Machine, n: nat, value: nat)
    requires !Pending(m.cpu) && !Unsupported(m.cpu, n)
    ensures var slot := PushSlot(m.cpu, n);
            if Accessible(m, slot, n, Write) then
              Push(m, n, value) == Machine(SetStackPointer(m.cpu, slot), StoreBytes(m.mem, slot, Bytes(value, n)))
            else Push(m, n, value) == Checked(m, slot, n, Write) && Pending(Push(m, n, value).cpu)
  {
    hide Checked, Accessible, StackAdd, StackPointer, SetStackPointer, Unsupported, StackModulus, StoreBytes;
    StoreFaults(m, PushSlot(m.cpu, n), n, value);
  }

  lemma {:induction false} StackPointerMoved(c: Cpu, pointer: u64)
    requires pointer < StackModulus(c)
    ensures var after := SetStackPointer(c, pointer);
            && StackPointer(after) == pointer && StackModulus(after) == StackModulus(c)
               && StackSize(after) == StackSize(c)
            && Pending(after) == Pending(c)
            && after == c.(scalar := c.scalar.(regs := c.scalar.regs[4 := after.scalar.regs[4]]))
            && after.scalar.regs[4] - after.scalar.regs[4] % StackModulus(c)
               == c.scalar.regs[4] - c.scalar.regs[4] % StackModulus(c)
  {
    hide Is64BitCode, StackModulus, StackSize, Pending;
    var m, rsp := StackModulus(c), c.scalar.regs[4];
    var after := SetStackPointer(c, pointer);
    SameRegistersApart(c, after);
    TopDivides(m);
    ReplaceLow(rsp, pointer, m, 0x1_0000_0000_0000_0000 / m);
  }

  lemma {:induction false} SameRegistersApart(c: Cpu, after: Cpu)
    requires after == c.(scalar := c.scalar.(regs := after.scalar.regs))
    ensures Is64BitCode(after) == Is64BitCode(c) && StackSize(after) == StackSize(c)
    ensures StackModulus(after) == StackModulus(c) && Pending(after) == Pending(c)
  {
  }

  lemma {:induction false} TopDivides(m: nat)
    requires m == 0x1_0000 || m == 0x1_0000_0000 || m == 0x1_0000_0000_0000_0000
    ensures m * (0x1_0000_0000_0000_0000 / m) == 0x1_0000_0000_0000_0000
  {
  }

  /** The low part of a word can be replaced without touching the high part. */
  lemma {:induction false} ReplaceLow(x: u64, low: nat, m: nat, k: nat)
    requires low < m && m * k == 0x1_0000_0000_0000_0000
    ensures Wrap(x - x % m + low) == x - x % m + low
    ensures Wrap(x - x % m + low) % m == low
  {
    var q := x / m;
    assert x == m * q + x % m;
    MulMonotone(m, k, q);
    MulMonotone(m, q + 1, k);
    assert m * (q + 1) == m * q + m;
    DivUnique(m * q + low, m, q, low);
  }

  lemma {:induction false} MulMonotone(m: nat, a: nat, b: nat)
    ensures a <= b ==> m * a <= m * b
  {
  }

  lemma {:induction false} SetTwice(c: Cpu, a: u64, b: u64)
    requires a < StackModulus(c) && b < StackModulus(c)
    ensures StackModulus(SetStackPointer(c, a)) == StackModulus(c)
    ensures SetStackPointer(SetStackPointer(c, a), b) == SetStackPointer(c, b)
    ensures SetStackPointer(c, StackPointer(c)) == c
  {
    hide Is64BitCode, StackModulus;
    StackPointerMoved(c, a);
    var regs := c.scalar.regs;
    assert regs[4 := SetStackPointer(c, a).scalar.regs[4]][4 := SetStackPointer(c, b).scalar.regs[4]]
        == regs[4 := SetStackPointer(c, b).scalar.regs[4]];
    assert regs[4 := regs[4]] == regs;
  }

  /** Faults look at the mode, the privilege and the page table, not at the registers. */
  lemma {:induction false} SameFaults(m: Machine, other: Machine, address: u64, n: nat, access: Access)
    requires other.mem == m.mem.(host := other.mem.host)
    requires Pending(other.cpu) == Pending(m.cpu) && other.cpu.scalar.cpl == m.cpu.scalar.cpl
             && Is64BitCode(other.cpu) == Is64BitCode(m.cpu)
    ensures FirstFault(other, address, n, access) == FirstFault(m, address, n, access)
    ensures Accessible(other, address, n, access) == Accessible(m, address, n, access)
    ensures forall i: nat :: ByteFault(other, address, i, access) == ByteFault(m, address, i, access)
  {
    hide Canonical, Lookup, FirstFault, Wrap, Pending;
    forall i: nat
      ensures ByteFault(other, address, i, access) == ByteFault(m, address, i, access)
    {
      SamePtr(m.mem, other.mem, Wrap(address + i));
    }
    FirstFaultIs(other, address, n, access, FirstFault(m, address, n, access));
  }

  /** The same machine but for its registers and its host bytes. */
  predicate SameApartFromRegisters(m: Machine, other: Machine) {
    && other.mem == m.mem.(host := other.mem.host)
    && other.cpu == m.cpu.(scalar := m.cpu.scalar.(regs := other.cpu.scalar.regs))
  }

  lemma {:induction false} SameStack(m: Machine, other: Machine)
    requires SameApartFromRegisters(m, other)
    ensures Pending(other.cpu) == Pending(m.cpu) && Is64BitCode(other.cpu) == Is64BitCode(m.cpu)
    ensures StackSize(other.cpu) == StackSize(m.cpu) && StackModulus(other.cpu) == StackModulus(m.cpu)
    ensures other.cpu.scalar.cpl == m.cpu.scalar.cpl
  {
  }

  lemma {:induction false} SameChecked(m: Machine, other: Machine, address: u64, n: nat, access: Access)
    requires SameApartFromRegisters(m, other)
    ensures Accessible(other, address, n, access) == Accessible(m, address, n, access)
    ensures SameApartFromRegisters(Checked(m, address, n, access), Checked(other, address, n, access))
  {
    hide FaultAt, FirstFault, Is64BitCode, Wrap, ByteFault;
    SameStack(m, other);
    SameFaults(m, other, address, n, access);
    UnfoldByteFault(m, address, FirstFault(m, address, n, access), access);
    UnfoldByteFault(other, address, FirstFault(m, address, n, access), access);
  }

  /** A push that goes through moves the stack pointer and writes the slot below it. */
  lemma {:induction false} AfterPush(m: Machine, n: nat, value: nat)
    requires !Pending(m.cpu) && !Unsupported(m.cpu, n) && Accessible(m, PushSlot(m.cpu, n), n, Write)
    ensures var mid := Push(m, n, value);
            && SameApartFromRegisters(m, mid)
            && mid == Machine(SetStackPointer(m.cpu, PushSlot(m.cpu, n)),
                              StoreBytes(m.mem, PushSlot(m.cpu, n), Bytes(value, n)))
            && StackPointer(mid.cpu) == PushSlot(m.cpu, n)
            && PushSlot(mid.cpu, n) == StackAdd(m.cpu, PushSlot(m.cpu, n), -(n as int))
  {
    hide Accessible, Unsupported, StackModulus, Is64BitCode, SetStackPointer, Pending, StackPointer, Push, Put,
      Pointers, Bytes;
    PushKinds(m, n, value);
    StackPointerMoved(m.cpu, PushSlot(m.cpu, n));
  }

  /** push_two_stack_values is two pushes when neither faults. When one would fault, it changes no byte
      and no general register, and raises what that push would raise. */
  lemma {:induction false} PushTwoIsTwoPushes(m: Machine, first: nat, second: nat, n: nat)
    requires SlotSize(n)
    ensures var both := PushTwo(m, first, second, n);
            var two := Push(Push(m, n, first), n, second);
            && Pending(both.cpu) == Pending(two.cpu)
            && (!Pending(both.cpu) ==> both == two)
            && (Pending(both.cpu) ==>
                  && both.mem == m.mem
                  && both.cpu.scalar.regs == m.cpu.scalar.regs
                  && two.cpu == both.cpu.(scalar := both.cpu.scalar.(regs := two.cpu.scalar.regs)))
  {
    hide Accessible, StackModulus, StackAdd, Is64BitCode, SetStackPointer, Pending, StackPointer, Checked, StoreBytes,
      SameApartFromRegisters, PushSlot, Push, Unsupported;
    if Pending(m.cpu) {
      PushPending(m, n, first);
      PushPending(m, n, second);
    } else if Unsupported(m.cpu, n) {
      PushUnsupported(m, n, first);
      PushPending(Push(m, n, first), n, second);
    } else {
      var firstSlot := PushSlot(m.cpu, n);
      var secondSlot := StackAdd(m.cpu, firstSlot, -(n as int));
      PushKinds(m, n, first);
      CheckedScalar(m, firstSlot, n);
      if !Accessible(m, firstSlot, n, Write) {
        PushPending(Push(m, n, first), n, second);
      } else {
        var mid := Push(m, n, first);
        AfterPush(m, n, first);
        SameSupport(m, mid, n);
        PushKinds(mid, n, second);
        CheckedScalar(m, secondSlot, n);
        SameChecked(m, mid, secondSlot, n, Write);
        UnfoldSame(Checked(m, secondSlot, n, Write), Checked(mid, secondSlot, n, Write));
        SetTwice(m.cpu, firstSlot, secondSlot);
        StackPointerMoved(m.cpu, secondSlot);
      }
    }
  }

  lemma {:induction false} UnfoldPop(m: Machine, n: nat)
    requires !Pending(m.cpu) && !Unsupported(m.cpu, n) && Checked(m, StackPointer(m.cpu), n, Read) == m
    ensures Pop(m, n) == (m.(cpu := SetStackPointer(m.cpu, StackAdd(m.cpu, StackPointer(m.cpu), n))),
                          LoadValue(m, StackPointer(m.cpu), n))
  {
    hide Pending, Unsupported, Checked, StackPointer, SetStackPointer, StackAdd, LoadValue, StackModulus;
  }

  lemma {:induction false} UnfoldSame(m: Machine, other: Machine)
    requires SameApartFromRegisters(m, other)
    ensures Pending(other.cpu) == Pending(m.cpu)
    ensures other.cpu == m.cpu.(scalar := m.cpu.scalar.(regs := other.cpu.scalar.regs))
  {
  }

  lemma {:induction false} SameSupport(m: Machine, other: Machine, n: nat)
    requires SameApartFromRegisters(m, other)
    ensures Unsupported(other.cpu, n) == Unsupported(m.cpu, n) && Pending(other.cpu) == Pending(m.cpu)
  {
    hide SameApartFromRegisters;
    SameStack(m, other);
  }

  lemma {:induction false} PushPending(m: Machine, n: nat, value: nat)
    requires Pending(m.cpu)
    ensures Push(m, n, value) == m
  {
  }

  lemma {:induction false} PushUnsupported(m: Machine, n: nat, value: nat)
    requires !Pending(m.cpu) && Unsupported(m.cpu, n)
    ensures Push(m, n, value) == m.(cpu := Raise(m.cpu, GP, 0)) && Pending(Push(m, n, value).cpu)
  {
    hide StackSize;
  }

  lemma {:induction false} CheckedScalar(m: Machine, address: u64, n: nat)
    requires !Pending(m.cpu)
    ensures var after := Checked(m, address, n, Write);
            after.mem == m.mem && after.cpu.scalar.regs == m.cpu.scalar.regs
    ensures !Accessible(m, address, n, Write) ==> Pending(Checked(m, address, n, Write).cpu)
  {
    hide FaultAt, FirstFault;
    CheckedPends(m, address, n, Write);
  }

  /** A value pushed is the value popped, and RSP returns to what it was, upper bits included. */
  lemma {:induction false} PopAfterPush(m: Machine, n: nat, value: nat)
    requires SlotSize(n) && value < Pow2(8 * n)
    requires Unaliased(m.mem) && Accessible(m, PushSlot(m.cpu, n), n, Read)
    requires !Pending(Push(m, n, value).cpu)
    ensures Pop(Push(m, n, value), n) == (Machine(m.cpu, Push(m, n, value).mem), value)
  {
    hide Accessible, StackModulus, StackAdd, Is64BitCode, SetStackPointer, Pending, StackPointer, StoreBytes,
      SameApartFromRegisters, PushSlot, Push, Unsupported, LoadValue, Checked, Pow2, Unaliased;
    var slot := PushSlot(m.cpu, n);
    if Pending(m.cpu) {
      PushPending(m, n, value);
    } else if Unsupported(m.cpu, n) {
      PushUnsupported(m, n, value);
    } else {
      PushKinds(m, n, value);
      AfterPush(m, n, value);
      var mid := Push(m, n, value);
      SameSupport(m, mid, n);
      var stored := Store(m, slot, n, value);
      AccessibleStore(m, slot, n, value);
      LoadAfterStore(m, slot, n, value);
      StoreKeepsAccess(m, slot, n, value, slot, n, Read);
      UnfoldRegisters(stored, mid, m.cpu, slot);
      SameLoad(stored, mid, slot, n);
      ReadableChecked(mid, slot, n);
      BackUp(m.cpu, n);
      UnfoldPop(mid, n);
      SameAdd(m.cpu, mid.cpu, slot, n);
      SetTwice(m.cpu, slot, StackPointer(m.cpu));
    }
  }

  lemma {:induction false} SlotBelow(c: Cpu, slot: u64, n: nat)
    requires n <= 8 && slot < StackModulus(c)
    ensures StackAdd(c, slot, -(n as int)) == if slot >= n then slot - n else StackModulus(c) + slot - n
  {
    hide StackModulus;
    if slot >= n {
      ModUnique(slot - n, StackModulus(c), 0, slot - n);
    } else {
      ModUnique(slot - n, StackModulus(c), -1, StackModulus(c) + slot - n);
    }
  }

  lemma {:induction false} ModUnique(x: int, d: nat, q: int, r: nat)
    requires d > 0 && x == q * d + r && r < d && -1 <= q <= 0
    ensures x % d == r
  {
  }

  lemma {:induction false} BytesApart(below: u64, slot: u64, gap: nat, n: nat, k: nat)
    requires k < n <= 8 && 0x1_0000 <= gap <= WORD && below == (if slot >= n then slot - n else gap + slot - n)
    ensures (Wrap(below + k) - slot) % WORD >= n
  {
    var d := below + k - slot;
    assert d == k - n || d == gap + k - n;
    var x := Wrap(below + k);
    assert x == below + k || x == below + k - WORD;
  }

  lemma {:induction false} SlotsApart(c: Cpu, slot: u64, n: nat)
    requires n <= 8 && slot < StackModulus(c)
    ensures Disjoint(StackAdd(c, slot, -(n as int)), n, slot, n)
  {
    hide StackModulus, StackAdd, Wrap;
    var below := StackAdd(c, slot, -(n as int));
    SlotBelow(c, slot, n);
    forall i: nat, x: u64 | i < n && IsByte(below, i, x)
      ensures (x - slot) % 0x1_0000_0000_0000_0000 >= n
    {
      BytesApart(below, slot, StackModulus(c), n, i);
    }
  }

  /** What a pair of pushes leaves on the stack: the second value on top, the first behind it, and RSP at the top. */
  lemma {:induction false} PushTwoHolds(m: Machine, first: nat, second: nat, n: nat)
    requires SlotSize(n) && first < Pow2(8 * n) && second < Pow2(8 * n) && Unaliased(m.mem)
    requires !Pending(m.cpu) && !Pending(PushTwo(m, first, second, n).cpu)
    requires var firstSlot := PushSlot(m.cpu, n);
             Accessible(m, firstSlot, n, Read) && Accessible(m, StackAdd(m.cpu, firstSlot, -(n as int)), n, Read)
    ensures var after, firstSlot := PushTwo(m, first, second, n), PushSlot(m.cpu, n);
            var secondSlot := StackAdd(m.cpu, firstSlot, -(n as int));
            && StackPointer(after.cpu) == secondSlot
            && LoadValue(m.(mem := after.mem), secondSlot, n) == second
            && LoadValue(m.(mem := after.mem), firstSlot, n) == first
  {
    hide Accessible, StackModulus, StackAdd, SetStackPointer, StackPointer, StoreBytes, PushSlot, Unsupported,
      LoadValue,
      Checked, Pow2, Unaliased, Disjoint, Store, Pending, Raise, Bytes;
    var firstSlot := PushSlot(m.cpu, n);
    var secondSlot := StackAdd(m.cpu, firstSlot, -(n as int));
    PushTwoKinds(m, first, second, n);
    AccessibleStore(m, firstSlot, n, first);
    var s1 := Store(m, firstSlot, n, first);
    StoreKeepsAccess(m, firstSlot, n, first, secondSlot, n, Write);
    StoreKeepsAccess(m, firstSlot, n, first, secondSlot, n, Read);
    StoreKeepsUnaliased(m, firstSlot, n, first);
    AccessibleStore(s1, secondSlot, n, second);
    LoadAfterStore(m, firstSlot, n, first);
    LoadAfterStore(s1, secondSlot, n, second);
    SlotsApart(m.cpu, firstSlot, n);
    LoadAfterOther(s1, secondSlot, n, second, firstSlot, n);
    StackPointerMoved(m.cpu, secondSlot);
  }

  lemma {:induction false} PushTwoKinds(m: Machine, first: nat, second: nat, n: nat)
    requires SlotSize(n) && !Pending(m.cpu) && !Pending(PushTwo(m, first, second, n).cpu)
    ensures var firstSlot := PushSlot(m.cpu, n);
            var secondSlot := StackAdd(m.cpu, firstSlot, -(n as int));
            && Accessible(m, firstSlot, n, Write) && Accessible(m, secondSlot, n, Write)
            && PushTwo(m, first, second, n)
               == Machine(SetStackPointer(m.cpu, secondSlot),
                          StoreBytes(StoreBytes(m.mem, firstSlot, Bytes(first, n)), secondSlot, Bytes(second, n)))
  {
    hide Accessible, StackAdd, StackPointer, SetStackPointer, Unsupported, StackModulus, StoreBytes, Checked, Bytes,
      PushSlot;
    var firstSlot := PushSlot(m.cpu, n);
    CheckedPends(m, firstSlot, n, Write);
    CheckedPends(m, StackAdd(m.cpu, firstSlot, -(n as int)), n, Write);
  }

  lemma {:induction false} AccessibleStore(m: Machine, address: u64, n: nat, value: nat)
    requires Accessible(m, address, n, Write)
    ensures Store(m, address, n, value) == Machine(m.cpu, StoreBytes(m.mem, address, Bytes(value, n)))
  {
    hide Accessible, StoreBytes, Bytes;
  }

  lemma {:induction false} UnfoldRegisters(stored: Machine, mid: Machine, c: Cpu, slot: u64)
    requires stored.cpu == c && slot < StackModulus(c) && mid == Machine(SetStackPointer(c, slot), stored.mem)
    ensures SameApartFromRegisters(stored, mid) && mid.mem == stored.mem
    ensures mid.cpu == c.(scalar := c.scalar.(regs := mid.cpu.scalar.regs))
  {
    hide Wrap, StackModulus;
  }

  lemma {:induction false} SameLoad(m: Machine, other: Machine, address: u64, n: nat)
    requires SameApartFromRegisters(m, other) && other.mem == m.mem
    ensures LoadValue(other, address, n) == LoadValue(m, address, n)
    ensures Accessible(other, address, n, Read) == Accessible(m, address, n, Read)
  {
    hide Accessible, BytesAt, LittleEndian, SameApartFromRegisters;
    SameChecked(m, other, address, n, Read);
  }

  lemma {:induction false} SameAdd(c: Cpu, other: Cpu, pointer: u64, n: nat)
    requires other == c.(scalar := c.scalar.(regs := other.scalar.regs))
    ensures StackAdd(other, pointer, n) == StackAdd(c, pointer, n)
  {
    hide StackModulus;
    SameRegistersApart(c, other);
  }

  lemma {:induction false} ReadableChecked(m: Machine, address: u64, n: nat)
    requires Accessible(m, address, n, Read)
    ensures Checked(m, address, n, Read) == m && !Pending(m.cpu)
  {
    hide FirstFault;
  }

  lemma {:induction false} BackUp(c: Cpu, n: nat)
    requires n <= 8
    ensures StackAdd(c, PushSlot(c, n), n) == StackPointer(c)
  {
    hide StackModulus, StackPointer;
    AddMod(StackPointer(c), -(n as int), n, StackModulus(c));
    ModSmall(StackPointer(c), StackModulus(c));
  }

  lemma {:induction false} ModSmall(x: nat, m: nat)
    requires x < m
    ensures x % m == x
  {
  }

  lemma {:induction false} AddMod(x: int, a: int, b: int, m: nat)
    requires m > 0
    ensures ((x + a) % m + b) % m == (x + (a + b)) % m
  {
    var q := (x + a) / m;
    var y := (x + a) % m + b;
    assert x + a + b == m * q + y;
    assert y == m * (y / m) + y % m;
    assert m * (q + y / m) == m * q + m * (y / m);
    DivUnique(x + a + b, m, q + y / m, y % m);
  }

  // Reading ahead of the stack pointer.

  datatype Peeked = Peeked(machine: Machine, values: seq<nat>, ok: bool, finalPointer: u64)

  function Address(c: Cpu, n: nat, index: nat): u64 {
    StackAdd(c, StackPointer(c), index * n)
  }

  /** Values index.. to count of the stack, stopping at the first fault. */
  function PeekFrom(m: Machine, n: nat, index: nat, count: nat): Peeked
    requires index <= count
    decreases count - index
  {
    if index == count then Peeked(m, [], true, Address(m.cpu, n, count))
    else
      var slot := Address(m.cpu, n, index);
      var loaded := Checked(m, slot, n, Read);
      if Pending(loaded.cpu) then Peeked(loaded, [], false, 0)
      else
        var rest := PeekFrom(loaded, n, index + 1, count);
        rest.(values := [LoadValue(m, slot, n)] + rest.values)
  }

  function Peek(m: Machine, n: nat, count: nat): Peeked {
    if Pending(m.cpu) then Peeked(m, [], false, 0)
    else if !SlotSize(n) || Unsupported(m.cpu, n) then Peeked(m.(cpu := Raise(m.cpu, GP, 0)), [], false, 0)
    else PeekFrom(m, n, 0, count)
  }

  method PeekValues(ctx: CpuContext, n: nat, count: nat) returns (ok: bool, values: seq<nat>, finalPointer: u64)
    modifies ctx`scalar, ctx`exception
    ensures Peek(old(ctx.Whole()), n, count) == Peeked(ctx.Whole(), values, ok, finalPointer)
  {
    hide Pending, Checked, StackPointer, StackAdd, Unsupported, LoadValue, Address, Raise;
    if Pending(ctx.State()) {
      return false, [], 0;
    }
    if !SlotSize(n) {
      ctx.RaiseException(GP, 0);
      return false, [], 0;
    }
    if Unsupported(ctx.State(), n) {
      ctx.RaiseException(GP, 0);
      return false, [], 0;
    }
    ghost var m := ctx.Whole();
    values := [];
    var index := 0;
    while index < count
      invariant 0 <= index <= count
      invariant ctx.Whole() == m
      invariant Prepend(values, PeekFrom(m, n, index, count)) == PeekFrom(m, n, 0, count)
    {
      var value := ReadMemory(ctx, Address(ctx.State(), n, index), n);
      if Pending(ctx.State()) {
        return false, values, 0;
      }
      CheckedKeeps(m, Address(m.cpu, n, index), n, Read);
      values := values + [value];
      index := index + 1;
    }
    return true, values, Address(ctx.State(), n, count);
  }

  function Prepend(values: seq<nat>, rest: Peeked): Peeked {
    rest.(values := values + rest.values)
  }

  /** count pops in a row, stopping at the first fault. */
  function Pops(m: Machine, n: nat, count: nat): (Machine, seq<nat>)
    decreases count
  {
    if count == 0 then (m, [])
    else
      var (after, value) := Pop(m, n);
      if Pending(after.cpu) then (after, [])
      else
        var (last, values) := Pops(after, n, count - 1);
        (last, [value] + values)
  }

  /** The outcome of a peek and that of the pops it stands for. */
  predicate Agree(m: Machine, peeked: Peeked, last: Machine, values: seq<nat>) {
    && peeked.values == values
    && peeked.ok == !Pending(last.cpu)
    && last.mem == m.mem && peeked.machine.mem == m.mem
    && peeked.finalPointer < StackModulus(m.cpu)
    && (peeked.ok ==> peeked.machine == m && last.cpu == SetStackPointer(m.cpu, peeked.finalPointer))
    && last.cpu == peeked.machine.cpu.(scalar := peeked.machine.cpu.scalar.(regs := last.cpu.scalar.regs))
  }

  lemma {:induction false} PeekStep(m: Machine, moved: Machine, n: nat, index: nat, count: nat)
    requires !Pending(m.cpu) && SlotSize(n) && !Unsupported(m.cpu, n) && index < count
    requires moved == m.(cpu := SetStackPointer(m.cpu, Address(m.cpu, n, index)))
    ensures var slot := Address(m.cpu, n, index);
            var (after, value) := Pop(moved, n);
            && !Pending(moved.cpu)
            && (Accessible(m, slot, n, Read) ==>
                  && Checked(m, slot, n, Read) == m && value == LoadValue(m, slot, n)
                  && after == m.(cpu := SetStackPointer(m.cpu, Address(m.cpu, n, index + 1)))
                  && Pending(after.cpu) == Pending(m.cpu))
            && (!Accessible(m, slot, n, Read) ==>
                  && Pending(Checked(m, slot, n, Read).cpu) && Checked(m, slot, n, Read).mem == m.mem
                  && Pending(after.cpu) && SameApartFromRegisters(Checked(m, slot, n, Read), after)
                     && after.mem == m.mem)
  {
    hide Pending, Checked, StackPointer, StackAdd, Unsupported, LoadValue, Address, SetStackPointer, Pop,
      SameApartFromRegisters,
      StackModulus, Accessible;
    AddressRange(m.cpu, n, index);
    StackPointerMoved(m.cpu, Address(m.cpu, n, index));
    var slot := Address(m.cpu, n, index);
    MovedApart(m, moved, slot);
    SameSupport(m, moved, n);
    SameLoad(m, moved, slot, n);
    SameChecked(m, moved, slot, n, Read);
    UnfoldSame(Checked(m, slot, n, Read), Checked(moved, slot, n, Read));
    CheckedPends(m, slot, n, Read);
    CheckedPends(moved, slot, n, Read);
    PopKinds(moved, n);
    if Accessible(m, slot, n, Read) {
      NextAddress(m.cpu, n, index);
      SameAdd(m.cpu, moved.cpu, slot, n);
      AddressRange(m.cpu, n, index + 1);
      SetTwice(m.cpu, slot, Address(m.cpu, n, index + 1));
      StackPointerMoved(m.cpu, Address(m.cpu, n, index + 1));
    }
  }

  lemma {:induction false} UnfoldPeek(m: Machine, n: nat, index: nat, count: nat)
    requires index <= count
    ensures index == count ==> PeekFrom(m, n, index, count) == Peeked(m, [], true, Address(m.cpu, n, count))
    ensures index < count && Pending(Checked(m, Address(m.cpu, n, index), n, Read).cpu) ==>
              PeekFrom(m, n, index, count) == Peeked(Checked(m, Address(m.cpu, n, index), n, Read), [], false, 0)
    ensures index < count && !Pending(m.cpu) && Checked(m, Address(m.cpu, n, index), n, Read) == m ==>
              PeekFrom(m, n, index, count)
                == Prepend([LoadValue(m, Address(m.cpu, n, index), n)], PeekFrom(m, n, index + 1, count))
  {
    hide Pending, Checked, Address, LoadValue;
  }

  lemma {:induction false} UnfoldPops(m: Machine, n: nat, count: nat)
    ensures Pops(m, n, 0) == (m, [])
    ensures count > 0 && Pending(Pop(m, n).0.cpu) ==> Pops(m, n, count) == (Pop(m, n).0, [])
    ensures count > 0 && !Pending(Pop(m, n).0.cpu) ==>
              Pops(m, n, count) == (Pops(Pop(m, n).0, n, count - 1).0,
                                    [Pop(m, n).1] + Pops(Pop(m, n).0, n, count - 1).1)
  {
    hide Pending, Pop;
  }

  lemma {:induction false} AgreePrepend(m: Machine, peeked: Peeked, last: Machine, values: seq<nat>, value: nat)
    requires Agree(m, peeked, last, values)
    ensures Agree(m, Prepend([value], peeked), last, [value] + values)
  {
    hide Pending, StackModulus, SetStackPointer;
  }

  lemma {:induction false} AgreeDone(m: Machine, pointer: u64)
    requires !Pending(m.cpu) && pointer < StackModulus(m.cpu)
    ensures Agree(m, Peeked(m, [], true, pointer), m.(cpu := SetStackPointer(m.cpu, pointer)), [])
  {
    hide StackModulus, Pending;
    StackPointerMoved(m.cpu, pointer);
  }

  lemma {:induction false} AgreeFault(m: Machine, loaded: Machine, after: Machine)
    requires Pending(after.cpu) && SameApartFromRegisters(loaded, after) && loaded.mem == m.mem == after.mem
    ensures Agree(m, Peeked(loaded, [], false, 0), after, [])
  {
    hide StackModulus, Pending, SetStackPointer;
  }

  /** Peeking n values is popping them: the same values, the same fault at the same point, and the stack
      pointer it reports is the one the pops arrive at. */
  lemma {:induction false} PeekIsPops(m: Machine, moved: Machine, n: nat, index: nat, count: nat)
    requires !Pending(m.cpu) && SlotSize(n) && !Unsupported(m.cpu, n) && index <= count
    requires moved == m.(cpu := SetStackPointer(m.cpu, Address(m.cpu, n, index)))
    ensures Agree(m, PeekFrom(m, n, index, count), Pops(moved, n, count - index).0, Pops(moved, n, count - index).1)
    decreases count - index
  {
    hide *;
    UnfoldPeek(m, n, index, count);
    UnfoldPops(moved, n, count - index);
    AddressRange(m.cpu, n, index);
    if index == count {
      AgreeDone(m, Address(m.cpu, n, count));
    } else {
      PeekStep(m, moved, n, index, count);
      var slot := Address(m.cpu, n, index);
      if Accessible(m, slot, n, Read) {
        var next := Pop(moved, n).0;
        PeekIsPops(m, next, n, index + 1, count);
        AgreePrepend(m, PeekFrom(m, n, index + 1, count), Pops(next, n, count - index - 1).0,
                     Pops(next, n, count - index - 1).1, Pop(moved, n).1);
      } else {
        AgreeFault(m, Checked(m, slot, n, Read), Pop(moved, n).0);
      }
    }
  }

  lemma {:induction false} AddressRange(c: Cpu, n: nat, index: nat)
    ensures Address(c, n, index) < StackModulus(c)
  {
    hide StackModulus;
  }

  lemma {:induction false} MovedApart(m: Machine, moved: Machine, slot: u64)
    requires slot < StackModulus(m.cpu) && moved == m.(cpu := SetStackPointer(m.cpu, slot))
    ensures SameApartFromRegisters(m, moved)
    ensures moved.cpu == m.cpu.(scalar := m.cpu.scalar.(regs := moved.cpu.scalar.regs))
  {
    hide StackModulus, Wrap;
  }

  lemma {:induction false} PopKinds(m: Machine, n: nat)
    requires !Pending(m.cpu) && !Unsupported(m.cpu, n)
    ensures var slot := StackPointer(m.cpu);
            var (after, value) := Pop(m, n);
            && (Pending(Checked(m, slot, n, Read).cpu) ==> after == Checked(m, slot, n, Read))
            && (!Pending(Checked(m, slot, n, Read).cpu) ==>
                  after == m.(cpu := SetStackPointer(m.cpu, StackAdd(m.cpu, slot, n)))
                      && value == LoadValue(m, slot, n))
  {
    hide Pending, Checked, StackPointer, StackAdd, Unsupported, LoadValue, SetStackPointer, StackModulus;
    if !Pending(Checked(m, StackPointer(m.cpu), n, Read).cpu) {
      CheckedKeeps(m, StackPointer(m.cpu), n, Read);
    }
  }

  lemma {:induction false} NextAddress(c: Cpu, n: nat, index: nat)
    ensures StackAdd(c, Address(c, n, index), n) == Address(c, n, index + 1)
  {
    hide StackModulus, StackPointer;
    AddMod(StackPointer(c), index * n, n, StackModulus(c));
    assert (index + 1) * n == index * n + n;
  }

  lemma {:induction false} PopsCount(m: Machine, n: nat, count: nat)
    ensures !Pending(Pops(m, n, count).0.cpu) ==> |Pops(m, n, count).1| == count
    decreases count
  {
    hide Pending, Pop;
    if count > 0 { PopsCount(Pop(m, n).0, n, count - 1); }
  }

  /** The same from the current stack pointer on, as callers see it. */
  lemma {:induction false} PeekAllIsPops(m: Machine, n: nat, count: nat)
    requires !Pending(m.cpu) && SlotSize(n) && !Unsupported(m.cpu, n)
    ensures var peeked := Peek(m, n, count);
            var (last, values) := Pops(m, n, count);
            && peeked.values == values && peeked.ok == !Pending(last.cpu)
            && (peeked.ok ==> peeked.machine == m && peeked.finalPointer == StackPointer(last.cpu) && |values| == count)
            && (!peeked.ok ==> peeked.machine.cpu.exception == last.cpu.exception && peeked.machine.mem == m.mem)
  {
    hide Pending, Unsupported, Address, SetStackPointer, StackPointer, Pop, StackModulus, PeekFrom, Pops;
    FirstAddress(m.cpu, n);
    SetTwice(m.cpu, StackPointer(m.cpu), StackPointer(m.cpu));
    PeekIsPops(m, m, n, 0, count);
    PopsCount(m, n, count);
    if Peek(m, n, count).ok {
      StackPointerMoved(m.cpu, Peek(m, n, count).finalPointer);
    }
  }

  lemma {:induction false} FirstAddress(c: Cpu, n: nat)
    ensures Address(c, n, 0) == StackPointer(c)
  {
    hide StackModulus;
    ModSmall(StackPointer(c), StackModulus(c));
  }
}
