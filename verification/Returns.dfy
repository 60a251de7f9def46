/** CALL and RET against a shadow stack of return addresses that the guest cannot touch. */
module Returns {
  import opened Bits
  import opened MemoryManagement
  import opened CpuState
  import opened LinearMemory
  import opened Stack
  import opened AluDecode
  import opened Decoder
  import opened Executor
  import opened Calls

  /** What a 64-bit near CALL leaves: where the return address went, and what it is. */
  datatype Frame = Frame(slot: u64, ret: u64)

  /** A near CALL of an instruction of some size, a near RET, or anything else the guest or the host may do. */
  datatype Flow = Call(target: u64, size: nat) | Return(e: Entry) | Between(effect: Machine -> Machine)

  function ReturnAddress(m: Machine, size: nat): u64 {
    Wrap(m.cpu.scalar.rip + size)
  }

  function Take(m: Machine, flow: Flow): Machine {
    match flow
    case Call(target, size) => CallNear(m, target, ReturnAddress(m, size), 8)
    case Return(e) => RunRet(m, e)
    case Between(effect) => effect(m)
  }

  /** 64-bit code, nothing pending, and no host byte seen at two addresses. */
  ghost predicate Live(m: Machine) {
    Is64BitCode(m.cpu) && !Pending(m.cpu) && Unaliased(m.mem)
  }

  ghost predicate Held(m: Machine, f: Frame) {
    Accessible(m, f.slot, 8, Read) && LoadValue(m, f.slot, 8) == f.ret
  }

  ghost predicate AllHeld(m: Machine, shadow: seq<Frame>) {
    forall i :: 0 <= i < |shadow| ==> Held(m, shadow[i])
  }

  ghost predicate Apart(slot: u64, shadow: seq<Frame>) {
    forall i :: 0 <= i < |shadow| ==> Disjoint(slot, 8, shadow[i].slot, 8)
  }

  predicate NearReturn(e: Entry) {
    e.retSize == 64 && (e.inline == RetPlain || e.inline == RetImmediate)
  }

  function Released(e: Entry): nat {
    if e.inline == RetImmediate then e.retImmediate else 0
  }

  function Below(shadow: seq<Frame>): seq<Frame>
    requires shadow != []
  {
    shadow[..|shadow| - 1]
  }

  function Top(shadow: seq<Frame>): Frame
    requires shadow != []
  {
    shadow[|shadow| - 1]
  }

  // One event.

  lemma {:induction false} SameSight(m: Machine, other: Machine, f: Frame)
    requires other.mem == m.mem && Pending(other.cpu) == Pending(m.cpu) && other.cpu.scalar.cpl == m.cpu.scalar.cpl
    requires Is64BitCode(other.cpu) == Is64BitCode(m.cpu)
    ensures Held(other, f) == Held(m, f)
  {
    hide Accessible, BytesAt, LittleEndian, Pending, Is64BitCode;
    SameFaults(m, other, f.slot, 8, Read);
  }

  lemma {:induction false} Wide(c: Cpu)
    requires Is64BitCode(c)
    ensures StackModulus(c) == 0x1_0000_0000_0000_0000 && StackPointer(c) == c.scalar.regs[4] && !Unsupported(c, 8)
  {
  }

  lemma {:induction false} WholeTarget(value: u64)
    ensures MaskOffset(value, 64) == value && Wrap(value) == value
  {
  }

  /** A near CALL that goes through pushes the return address and jumps. */
  lemma {:induction false} CallPushes(m: Machine, target: u64, ret: u64)
    requires Live(m) && !Pending(CallNear(m, target, ret, 8).cpu)
    ensures var after := CallNear(m, target, ret, 8);
            var slot := PushSlot(m.cpu, 8);
            && Accessible(m, slot, 8, Write) && after.mem == Store(m, slot, 8, ret).mem
               && after.cpu.scalar.rip == target
            && after.cpu == Jump(SetStackPointer(m.cpu, slot), target)
  {
    hide Push, Accessible, Store, Unaliased, SetStackPointer, StackAdd, StackPointer, Checked, Pending, Unsupported,
      Is64BitCode,
      StoreBytes, Raise, StackModulus, ValidCodeOffset;
    Wide(m.cpu);
    WholeTarget(ret);
    Calls.RaisePends(m.cpu, GP, 0);
    PushKinds(m, 8, ret);
    if Accessible(m, PushSlot(m.cpu, 8), 8, Write) {
      AccessibleStore(m, PushSlot(m.cpu, 8), 8, ret);
    }
  }

  lemma {:induction false} JumpKeeps(c: Cpu, slot: u64, target: u64)
    requires slot < StackModulus(c)
    ensures var after := Jump(SetStackPointer(c, slot), target);
            && Pending(after) == Pending(c) && Is64BitCode(after) == Is64BitCode(c) && after.scalar.cpl == c.scalar.cpl
            && StackPointer(after) == slot
  {
    hide StackModulus, Wrap;
    StackPointerMoved(c, slot);
    SameRegistersApart(c, SetStackPointer(c, slot));
    JumpSame(SetStackPointer(c, slot), target);
  }

  lemma {:induction false} JumpSame(c: Cpu, target: u64)
    ensures Pending(Jump(c, target)) == Pending(c) && Is64BitCode(Jump(c, target)) == Is64BitCode(c)
    ensures StackPointer(Jump(c, target)) == StackPointer(c)
  {
  }

  lemma {:induction false} CallHolds(m: Machine, target: u64, ret: u64, shadow: seq<Frame>)
    requires Live(m) && !Pending(CallNear(m, target, ret, 8).cpu) && AllHeld(m, shadow)
    requires Apart(PushSlot(m.cpu, 8), shadow) && Accessible(m, PushSlot(m.cpu, 8), 8, Read)
    ensures var after := CallNear(m, target, ret, 8);
            && Live(after) && AllHeld(after, shadow + [Frame(PushSlot(m.cpu, 8), ret)])
            && StackPointer(after.cpu) == PushSlot(m.cpu, 8)
  {
    hide Held, CallNear, Store, Accessible, Disjoint, Unaliased, Jump, SetStackPointer, StackPointer, PushSlot,
      Pending, Is64BitCode,
      StackModulus;
    var after, slot := CallNear(m, target, ret, 8), PushSlot(m.cpu, 8);
    CallPushes(m, target, ret);
    JumpKeeps(m.cpu, slot, target);
    StoreKeepsUnaliased(m, slot, 8, ret);
    StoreSame(m, slot, ret);
    forall i | 0 <= i < |shadow + [Frame(slot, ret)]|
      ensures Held(after, (shadow + [Frame(slot, ret)])[i])
    {
      var f := (shadow + [Frame(slot, ret)])[i];
      if i < |shadow| {
        HeldApart(m, slot, ret, f);
      } else {
        HeldNew(m, slot, ret);
      }
      SameSight(Store(m, slot, 8, ret), after, f);
    }
  }

  lemma {:induction false} StoreSame(m: Machine, slot: u64, ret: u64)
    requires Accessible(m, slot, 8, Write)
    ensures Store(m, slot, 8, ret).cpu == m.cpu
  {
    hide Accessible, StoreBytes, Bytes;
  }

  lemma {:induction false} HeldApart(m: Machine, slot: u64, ret: u64, f: Frame)
    requires Unaliased(m.mem) && Accessible(m, slot, 8, Write) && Held(m, f) && Disjoint(slot, 8, f.slot, 8)
    ensures Held(Store(m, slot, 8, ret), f)
  {
    hide Unaliased, Accessible, Disjoint, Store, LoadValue;
    LoadAfterOther(m, slot, 8, ret, f.slot, 8);
    StoreKeepsAccess(m, slot, 8, ret, f.slot, 8, Read);
  }

  lemma {:induction false} HeldNew(m: Machine, slot: u64, ret: u64)
    requires Unaliased(m.mem) && Accessible(m, slot, 8, Write) && Accessible(m, slot, 8, Read)
    ensures Held(Store(m, slot, 8, ret), Frame(slot, ret))
  {
    hide Unaliased, Accessible, Store, LoadValue, Pow2;
    WordIsPow2();
    LoadAfterStore(m, slot, 8, ret);
    StoreKeepsAccess(m, slot, 8, ret, slot, 8, Read);
  }

  lemma {:induction false} SizeSame(c: Cpu, size: nat)
    ensures var after := StampSize(c, size);
            && Pending(after) == Pending(c) && Is64BitCode(after) == Is64BitCode(c) && after.scalar.cpl == c.scalar.cpl
            && after.scalar.regs == c.scalar.regs
  {
  }

  lemma {:induction false} AssignSame(c: Cpu, target: u64)
    requires !Pending(c) && !Pending(AssignRip(c, target, 64))
    ensures AssignRip(c, target, 64) == Jump(c, target)
  {
    hide Canonical;
  }

  lemma {:induction false} ReleaseSame(c: Cpu, amount: nat)
    requires Is64BitCode(c)
    ensures var after := AddToStackPointer(c, amount);
            && Is64BitCode(after) && Pending(after) == Pending(c)
               && StackPointer(after) == Wrap(StackPointer(c) + amount)
            && after == c.(scalar := c.scalar.(regs := after.scalar.regs))
  {
    hide Is64BitCode, SetStackPointer;
    Wide(c);
    StackPointerMoved(c, StackAdd(c, StackPointer(c), amount));
    SameRegistersApart(c, AddToStackPointer(c, amount));
  }

  lemma {:induction false} PopHeld(m: Machine, f: Frame)
    requires Is64BitCode(m.cpu) && Held(m, f) && StackPointer(m.cpu) == f.slot
    ensures Pop(m, 8) == (m.(cpu := AddToStackPointer(m.cpu, 8)), f.ret)
  {
    hide Accessible, LoadValue, StackPointer, SetStackPointer, Checked, Is64BitCode, StackModulus, Unsupported, Pending;
    Wide(m.cpu);
    ReadableChecked(m, f.slot, 8);
    UnfoldPop(m, 8);
  }

  /** A near RET with the stack pointer at a held frame goes where the CALL came from, if it goes anywhere. */
  lemma {:induction false} ReturnsTo(m: Machine, e: Entry, f: Frame)
    requires Live(m) && Held(m, f) && StackPointer(m.cpu) == f.slot && NearReturn(e) && !Pending(RunRet(m, e).cpu)
    ensures var after := RunRet(m, e);
            && after.mem == m.mem && after.cpu.scalar.rip == f.ret && Live(after)
            && StackPointer(after.cpu) == Wrap(f.slot + 8 + Released(e)) && after.cpu.scalar.cpl == m.cpu.scalar.cpl
  {
    hide Held, Pop, StackPointer, AddToStackPointer, Is64BitCode, Pending, Unaliased, AssignRip, StampSize, Jump, Wrap;
    var sized := m.(cpu := StampSize(m.cpu, e.retPrefix + (if e.inline == RetImmediate then 3 else 1)));
    SizeSame(m.cpu, e.retPrefix + (if e.inline == RetImmediate then 3 else 1));
    SameSight(m, sized, f);
    Wide(m.cpu);
    Wide(sized.cpu);
    PopHeld(sized, f);
    ReleaseSame(sized.cpu, 8);
    WholeTarget(f.ret);
    var popped := AddToStackPointer(sized.cpu, 8);
    SizeCpl(m.cpu, popped, e.retPrefix + (if e.inline == RetImmediate then 3 else 1));
    if Pending(AssignRip(popped, f.ret, 64)) {
      assert false;
    } else {
      AssignSame(popped, f.ret);
      JumpSame(popped, f.ret);
      JumpRip(popped, f.ret);
      ReleaseSame(Jump(popped, f.ret), e.retImmediate);
      WrapTwice(f.slot + 8, Released(e));
    }
  }

  lemma {:induction false} SizeCpl(c: Cpu, popped: Cpu, size: nat)
    requires popped == StampSize(c, size).(scalar := StampSize(c, size).scalar.(regs := popped.scalar.regs))
    ensures popped.scalar.cpl == c.scalar.cpl
  {
  }

  lemma {:induction false} JumpRip(c: Cpu, target: u64)
    ensures Jump(c, target).scalar.rip == target && Jump(c, target).scalar.cpl == c.scalar.cpl
  {
  }

  lemma {:induction false} WrapTwice(x: nat, y: nat)
    ensures Wrap(Wrap(x) + y) == Wrap(x + y)
    ensures Wrap(x) == Wrap(x + 0)
  {
  }

  // Whole runs.

  /** Runs whose CALLs and RETs go through, whose return slots are readable, do not overlap and are left alone, and
      whose RETs start with the stack pointer where the matching CALL left it. Nothing is asked of the values. */
  ghost predicate Disciplined(m: Machine, shadow: seq<Frame>, flows: seq<Flow>)
    decreases |flows|
  {
    flows != [] ==>
      var after := Take(m, flows[0]);
      && !Pending(after.cpu)
      && match flows[0]
         case Call(_, size) =>
           var slot := PushSlot(m.cpu, 8);
           && Accessible(m, slot, 8, Read) && Apart(slot, shadow)
           && Disciplined(after, shadow + [Frame(slot, ReturnAddress(m, size))], flows[1..])
         case Return(e) =>
           && NearReturn(e) && shadow != [] && StackPointer(m.cpu) == Top(shadow).slot
           && Disciplined(after, Below(shadow), flows[1..])
         case Between(_) =>
           && Live(after) && (forall f: Frame :: f in shadow && Held(m, f) ==> Held(after, f))
           && Disciplined(after, shadow, flows[1..])
  }

  /** Every RET of the run lands on the return address of its CALL, and releases exactly its slot and immediate. */
  ghost predicate Matched(m: Machine, shadow: seq<Frame>, flows: seq<Flow>)
    decreases |flows|
  {
    flows != [] ==>
      var after := Take(m, flows[0]);
      match flows[0]
      case Call(_, size) => Matched(after, shadow + [Frame(PushSlot(m.cpu, 8), ReturnAddress(m, size))], flows[1..])
      case Return(e) =>
        && shadow != [] && after.cpu.scalar.rip == Top(shadow).ret
        && StackPointer(after.cpu) == Wrap(Top(shadow).slot + 8 + Released(e))
        && Matched(after, Below(shadow), flows[1..])
      case Between(_) => Matched(after, shadow, flows[1..])
  }

  lemma {:induction false} HeldBelow(m: Machine, after: Machine, shadow: seq<Frame>)
    requires Live(m) && Live(after) && AllHeld(m, shadow) && shadow != [] && after.mem == m.mem
             && after.cpu.scalar.cpl == m.cpu.scalar.cpl
    ensures AllHeld(after, Below(shadow)) && Held(m, Top(shadow))
  {
    hide Held, Pending, Is64BitCode, Unaliased;
    forall i | 0 <= i < |Below(shadow)|
      ensures Held(after, Below(shadow)[i])
    {
      SameSight(m, after, shadow[i]);
    }
  }

  /** Over every disciplined run, whatever happens between, each RET returns to the matching CALL. */
  lemma {:induction false} ReturnsMatchCalls(m: Machine, shadow: seq<Frame>, flows: seq<Flow>)
    requires Live(m) && AllHeld(m, shadow) && Disciplined(m, shadow, flows)
    ensures Matched(m, shadow, flows)
    decreases |flows|
  {
    hide Live, Held, Apart, CallNear, RunRet, StackPointer, PushSlot, Accessible, Pending, NearReturn, Released,
      ReturnAddress, Wrap;
    if flows != [] {
      var after := Take(m, flows[0]);
      match flows[0]
      case Call(target, size) =>
        CallHolds(m, target, ReturnAddress(m, size), shadow);
        ReturnsMatchCalls(after, shadow + [Frame(PushSlot(m.cpu, 8), ReturnAddress(m, size))], flows[1..]);
      case Return(e) =>
        HeldTop(m, shadow);
        ReturnsTo(m, e, Top(shadow));
        HeldBelow(m, after, shadow);
        ReturnsMatchCalls(after, Below(shadow), flows[1..]);
      case Between(_) =>
        ReturnsMatchCalls(after, shadow, flows[1..]);
    }
  }

  lemma {:induction false} HeldTop(m: Machine, shadow: seq<Frame>)
    requires AllHeld(m, shadow) && shadow != []
    ensures Held(m, Top(shadow))
  {
    hide Held;
  }

  // Runs of nothing but CALLs and plain RETs.

  /** The slots of a run that began with the stack pointer at start: eight bytes a level. */
  predicate Ladder(start: u64, shadow: seq<Frame>) {
    forall i :: 0 <= i < |shadow| ==> shadow[i].slot == Wrap(start - 8 * (i + 1))
  }

  /** What remains to ask of such a run: nothing faults, slots are readable, and the stack does not meet itself. */
  ghost predicate Plain(m: Machine, depth: nat, flows: seq<Flow>)
    decreases |flows|
  {
    flows != [] ==>
      var after := Take(m, flows[0]);
      && !Pending(after.cpu)
      && match flows[0]
         case Call(_, _) =>
           Accessible(m, PushSlot(m.cpu, 8), 8, Read) && depth < 0x1000_0000_0000_0000
               && Plain(after, depth + 1, flows[1..])
         case Return(e) => NearReturn(e) && e.inline == RetPlain && depth > 0 && Plain(after, depth - 1, flows[1..])
         case Between(_) => false
  }

  function RunFlows(m: Machine, flows: seq<Flow>): Machine
    decreases |flows|
  {
    if flows == [] then m else RunFlows(Take(m, flows[0]), flows[1..])
  }

  function DepthAfter(depth: int, flows: seq<Flow>): int
    decreases |flows|
  {
    if flows == [] then depth
    else DepthAfter(if flows[0].Call? then depth + 1 else if flows[0].Return? then depth - 1 else depth, flows[1..])
  }

  lemma {:induction false} LevelsApart(start: u64, i: nat, d: nat)
    requires i < d < 0x1000_0000_0000_0000
    ensures Disjoint(Wrap(start - 8 * (d + 1)), 8, Wrap(start - 8 * (i + 1)), 8)
  {
    hide Wrap;
    var a, b := Wrap(start - 8 * (d + 1)), Wrap(start - 8 * (i + 1));
    forall k: nat, x: u64 | k < 8 && IsByte(a, k, x)
      ensures (x - b) % 0x1_0000_0000_0000_0000 >= 8
    {
      WrapGap(start, 8 * (d + 1), 8 * (i + 1), k);
    }
  }

  lemma {:induction false} WrapGap(s: u64, p: nat, q: nat, k: nat)
    requires q + 8 <= p <= 0x8000_0000_0000_0008 && k < 8
    ensures (Wrap(Wrap(s - p) + k) - Wrap(s - q)) % 0x1_0000_0000_0000_0000 >= 8
  {
  }

  lemma {:induction false} LadderApart(start: u64, shadow: seq<Frame>, slot: u64)
    requires Ladder(start, shadow) && |shadow| < 0x1000_0000_0000_0000 && slot == Wrap(start - 8 * (|shadow| + 1))
    ensures Apart(slot, shadow)
    ensures forall ret: u64 :: Ladder(start, shadow + [Frame(slot, ret)])
  {
    hide Disjoint, Wrap;
    forall i | 0 <= i < |shadow|
      ensures Disjoint(slot, 8, shadow[i].slot, 8)
    {
      LevelsApart(start, i, |shadow|);
    }
  }

  lemma {:induction false} SlotBelow(m: Machine, start: u64, depth: nat)
    requires Is64BitCode(m.cpu) && StackPointer(m.cpu) == Wrap(start - 8 * depth)
    ensures PushSlot(m.cpu, 8) == Wrap(start - 8 * (depth + 1))
  {
    hide Is64BitCode, StackPointer;
    Wide(m.cpu);
  }

  lemma {:induction false} SlotAbove(start: u64, depth: nat)
    ensures Wrap(Wrap(start - 8 * (depth + 1)) + 8 + 0) == Wrap(start - 8 * depth)
  {
  }

  lemma {:induction false} LadderBelow(start: u64, shadow: seq<Frame>)
    requires Ladder(start, shadow) && shadow != []
    ensures Ladder(start, Below(shadow)) && Top(shadow).slot == Wrap(start - 8 * |shadow|)
  {
    hide Wrap;
  }

  lemma {:induction false} LiveParts(m: Machine)
    requires Live(m)
    ensures Is64BitCode(m.cpu) && !Pending(m.cpu)
  {
    hide Is64BitCode, Pending, Unaliased;
  }

  /** A run of CALLs and plain RETs needs no discipline of its own: its slots cannot collide, each RET finds the
      slot of its CALL, and RSP is always eight bytes per open call below where it began. */
  lemma {:induction false} CallsAndReturnsBalance(m: Machine, start: u64, shadow: seq<Frame>, flows: seq<Flow>)
    requires Live(m) && AllHeld(m, shadow) && Ladder(start, shadow) && StackPointer(m.cpu) == Wrap(start - 8 * |shadow|)
    requires Plain(m, |shadow|, flows)
    ensures Matched(m, shadow, flows)
    ensures DepthAfter(|shadow|, flows) >= 0
    ensures StackPointer(RunFlows(m, flows).cpu) == Wrap(start - 8 * DepthAfter(|shadow|, flows))
    decreases |flows|
  {
    hide Live, Held, Apart, CallNear, RunRet, StackPointer, PushSlot, Accessible, Pending, ReturnAddress, Wrap,
      Ladder, Is64BitCode;
    if flows != [] {
      LiveParts(m);
      var after := Take(m, flows[0]);
      match flows[0]
      case Call(target, size) =>
        SlotBelow(m, start, |shadow|);
        LadderApart(start, shadow, PushSlot(m.cpu, 8));
        CallHolds(m, target, ReturnAddress(m, size), shadow);
        CallsAndReturnsBalance(after, start, shadow + [Frame(PushSlot(m.cpu, 8), ReturnAddress(m, size))], flows[1..]);
      case Return(e) =>
        LadderBelow(start, shadow);
        HeldTop(m, shadow);
        ReturnsTo(m, e, Top(shadow));
        SlotAbove(start, |shadow| - 1);
        HeldBelow(m, after, shadow);
        CallsAndReturnsBalance(after, start, Below(shadow), flows[1..]);
    }
  }
}
