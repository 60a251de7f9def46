/** The stack in numbers, and the forms the executor runs itself, from their bytes: RET and the short and near Jcc. */
module InlineSteps {
  import opened Bits
  import opened MemoryManagement
  import opened CpuState
  import opened LinearMemory
  import opened Stack
  import opened Flags
  import opened Addressing
  import opened RegisterParts
  import opened AluDecode
  import opened Decoder
  import opened Executor
  import opened Replay
  import opened Encodings
  import opened Meanings

  // The stack.

  /** 64 bits in 64-bit code, else as SS.B says. */
  function PointerWidth(c: Cpu): (w: Width)
    ensures w != 8
  {
    if Is64BitCode(c) then 64 else if c.scalar.segments.ss.db then 32 else 16
  }

  lemma {:induction false} SameModulus(c: Cpu)
    ensures StackModulus(c) == Modulus(PointerWidth(c)) && StackPointer(c) == Low(PointerWidth(c), c.scalar.regs[4])
    ensures forall pointer: int, delta: int :: StackAdd(c, pointer, delta) == Low(PointerWidth(c), pointer + delta)
  {
  }

  lemma {:induction false} PointerSet(c: Cpu, pointer: u64)
    requires pointer < StackModulus(c)
    ensures SetStackPointer(c, pointer).scalar.regs[4] == LowReplaced(c.scalar.regs[4], PointerWidth(c), pointer)
    ensures SetStackPointer(c, pointer) == WithReg(c, 4, SetStackPointer(c, pointer).scalar.regs[4])
  {
    hide Modulus, StackModulus, LowReplaced, Wrap;
    SameModulus(c);
    LowReplacedIs(c.scalar.regs[4], PointerWidth(c), pointer);
  }

  /** A push writes below the stack pointer and moves it there: the slot is the pointer less the size, at the width of
      the stack, and the bits of RSP above that width stay. */
  lemma {:induction false} PushMoves(m: Machine, n: nat, value: nat)
    requires !Pending(m.cpu) && !(PointerWidth(m.cpu) == 16 && n == 8)
    ensures var w, rsp := PointerWidth(m.cpu), m.cpu.scalar.regs[4];
            var slot := Low(w, Low(w, rsp) - n);
            var after := Push(m, n, value);
            if Accessible(m, slot, n, Write) then
              && after.cpu.scalar.regs[4] == LowReplaced(rsp, w, slot)
              && after == Machine(WithReg(m.cpu, 4, after.cpu.scalar.regs[4]),
                                  StoreBytes(m.mem, slot, Bytes(value, n)))
            else after == Checked(m, slot, n, Write)
  {
    hide Accessible, Checked, StoreBytes, Bytes, LowReplaced, Low, Modulus, StackModulus, StackPointer, StackAdd,
      SetStackPointer, Push, Pending;
    SameModulus(m.cpu);
    UnfoldSupport(m.cpu, n);
    PushKinds(m, n, value);
    PointerSet(m.cpu, PushSlot(m.cpu, n));
  }

  lemma {:induction false} UnfoldSupport(c: Cpu, n: nat)
    ensures Unsupported(c, n) == (PointerWidth(c) == 16 && n == 8)
  {
  }

  /** A pop reads there and moves the pointer up. */
  lemma {:induction false} PopMoves(m: Machine, n: nat)
    requires !Pending(m.cpu) && !(PointerWidth(m.cpu) == 16 && n == 8)
    ensures var w, rsp := PointerWidth(m.cpu), m.cpu.scalar.regs[4];
            var slot := Low(w, rsp);
            var (after, value) := Pop(m, n);
            if Accessible(m, slot, n, Read) then
              && value == LittleEndian(BytesAt(m.mem, slot, n))
              && after.cpu.scalar.regs[4] == LowReplaced(rsp, w, Low(w, slot + n))
              && after == m.(cpu := WithReg(m.cpu, 4, after.cpu.scalar.regs[4]))
            else after == Checked(m, slot, n, Read)
  {
    hide Accessible, Checked, LittleEndian, BytesAt, LowReplaced, Low, Modulus, StackModulus, StackPointer, StackAdd,
      SetStackPointer, Pending;
    SameModulus(m.cpu);
    UnfoldSupport(m.cpu, n);
    CheckedPends(m, StackPointer(m.cpu), n, Read);
    PointerSet(m.cpu, StackAdd(m.cpu, StackPointer(m.cpu), n));
  }

  // Jumps.

  /** The short form 70 to 7F and the near form 0F 80 to 0F 8F of a condition. */
  function JumpBytes(condition: nat, displacement: int, near: bool): seq<byte>
    requires condition < 16
  {
    if near then [0x0F, 0x80 + condition] + Bytes(displacement % 0x1_0000_0000, 4)
    else [0x70 + condition, displacement % 0x100]
  }

  lemma {:induction false} NoPrefix(mode: nat, code: seq<byte>)
    requires code != [] && (code[0] == 0x0F || 0x70 <= code[0] <= 0x7F)
    ensures PrefixLength(mode, code, 0) == 0
  {
  }

  lemma {:induction false} ShortFields(isa: Isa, mode: nat, code: seq<byte>, condition: nat)
    requires |code| >= 2 && condition < 16 && code[0] == 0x70 + condition && isa.special(code) == None
    requires LongCodeBit(mode)
    ensures var e := StaticEntry(isa, mode, code);
            && e.inline == JccShort && e.condition == condition && e.displacement == SignedByte(code[1])
            && !e.ud && !e.bp && !e.db && e.handler == NoHandler && e.segmentOverride == NoOverride
  {
    hide SignedByte, LongCodeBit, PrefixLength, EscapeCandidate, ClassifyNoFault;
    NoPrefix(mode, code);
  }

  lemma {:induction false} NearFields(isa: Isa, mode: nat, code: seq<byte>, condition: nat)
    requires |code| >= 6 && condition < 16 && code[0] == 0x0F && code[1] == 0x80 + condition
    requires isa.special(code) == None && LongCodeBit(mode)
    ensures var e := StaticEntry(isa, mode, code);
            && e.inline == JccNear && e.condition == condition
            && e.displacement == SignedDword(LittleEndian(code[2..6]))
            && !e.ud && !e.bp && !e.db && e.handler == NoHandler && e.segmentOverride == NoOverride
  {
    hide SignedDword, LongCodeBit, PrefixLength, EscapeCandidate, ClassifyNoFault, LittleEndian;
    NoPrefix(mode, code);
  }

  lemma {:induction false} NoHandlerStays(isa: Isa, e: Entry, c: Cpu)
    ensures e.handler == NoHandler ==> Attach(isa, e, c) == e
  {
  }

  lemma {:induction false} SignedBack(displacement: int)
    ensures -0x80 <= displacement < 0x80 ==> SignedByte(displacement % 0x100) == displacement
    ensures -0x8000_0000 <= displacement < 0x8000_0000 ==>
              SignedDword(displacement % 0x1_0000_0000) == displacement
  {
  }

  lemma {:induction false} JumpEntry(isa: Isa, c: Cpu, condition: nat, displacement: int, near: bool, rest: seq<byte>)
    requires condition < 16 && c.scalar.segments.cs.longMode
    requires if near then -0x8000_0000 <= displacement < 0x8000_0000 else -0x80 <= displacement < 0x80
    requires isa.special(JumpBytes(condition, displacement, near) + rest) == None
    ensures var e := DecodeAt(isa, c, JumpBytes(condition, displacement, near) + rest);
            && e.inline == (if near then JccNear else JccShort) && e.condition == condition
            && e.displacement == displacement && !e.ud && !e.bp && !e.db && e.segmentOverride == NoOverride
  {
    hide StaticEntry, Attach, Bytes, LittleEndian, SignedByte, SignedDword, ModeBits;
    var code := JumpBytes(condition, displacement, near) + rest;
    SignedBack(displacement);
    LongBit(c);
    if near {
      assert code[2..6] == Bytes(displacement % 0x1_0000_0000, 4);
      WordIsPow2();
      ValueOfBytes(displacement % 0x1_0000_0000, 4);
      NearFields(isa, ModeBits(c), code, condition);
    } else {
      ShortFields(isa, ModeBits(c), code, condition);
    }
    NoHandlerStays(isa, StaticEntry(isa, ModeBits(c), code), c);
  }

  lemma {:induction false} LongBit(c: Cpu)
    ensures LongCodeBit(ModeBits(c)) == c.scalar.segments.cs.longMode
  {
  }

  /** A Jcc of 64-bit code from its bytes: behind them when the condition does not hold, the displacement further when
      it does, or #GP if that is not canonical. Apart from RIP and the size nothing changes. */
  lemma {:induction false} JumpSteps(isa: Isa, m: Machine, c: Cpu, condition: nat, displacement: int, near: bool,
      rest: seq<byte>)
    requires condition < 16 && ReadyToDecode(m.cpu) && Is64BitCode(m.cpu) && c.scalar.segments.cs.longMode
    requires if near then -0x8000_0000 <= displacement < 0x8000_0000 else -0x80 <= displacement < 0x80
    requires isa.special(JumpBytes(condition, displacement, near) + rest) == None
    ensures var size := if near then 6 else 2;
            var to: u64 := (m.cpu.scalar.rip + size
                            + if EvalJcc(m.cpu.scalar.rflags, condition) then displacement else 0)
                           % 0x1_0000_0000_0000_0000;
            var (after, code) := Dispatch(isa, m, DecodeAt(isa, c, JumpBytes(condition, displacement, near) + rest));
            if Canonical(to) then
              code == StepOk
              && after == m.(cpu := m.cpu.(scalar := m.cpu.scalar.(rip := to, lastInstSize := size)))
            else code == StepException && after.cpu.exception == Exception(GP, 0) && after.mem == m.mem
  {
    hide EvalJcc, DecodeAt, Dispatch, JumpBytes, Canonical, Is64BitCode, RunJcc, JumpTarget;
    var e := DecodeAt(isa, c, JumpBytes(condition, displacement, near) + rest);
    JumpEntry(isa, c, condition, displacement, near, rest);
    var size := if near then 6 else 2;
    NoOverrideSame(m);
    JumpLands(m, e, size);
    TargetIs(m, e, size, EvalJcc(m.cpu.scalar.rflags, condition));
    JumpEnds(isa, m, e, size);
  }

  lemma {:induction false} NoOverrideSame(m: Machine)
    requires m.cpu.scalar.segmentOverride == NoOverride
    ensures m.(cpu := WithOverride(m.cpu, NoOverride)) == m
  {
  }

  lemma {:induction false} TargetIs(m: Machine, e: Entry, size: nat, taken: bool)
    ensures JumpTarget(m, e, size, taken)
            == (m.cpu.scalar.rip + size + if taken then e.displacement else 0) % 0x1_0000_0000_0000_0000
  {
  }

  /** How a step of an inline jump ends. */
  lemma {:induction false} JumpEnds(isa: Isa, m: Machine, e: Entry, size: nat)
    requires m.cpu.scalar.segmentOverride == NoOverride && e.segmentOverride == NoOverride
    requires !e.ud && !e.bp && !e.db
    requires (e.inline == JccShort && size == 2) || (e.inline == JccNear && size == 6)
    ensures var ran := RunJcc(m, e, size);
            && (!Pending(ran.cpu) ==>
                  Dispatch(isa, m, e) == (ran.(cpu := WithOverride(ran.cpu, NoOverride)), StepOk))
            && (Pending(ran.cpu) ==>
                  Dispatch(isa, m, e).1 == StepException && Dispatch(isa, m, e).0.mem == ran.mem
                  && Dispatch(isa, m, e).0.cpu.exception == ran.cpu.exception)
  {
    hide RunJcc, Pending;
    NoOverrideSame(m);
  }

  // Returns.

  /** C3, or C2 with the number of bytes to release. */
  function ReturnBytes(release: Option<nat>): (bs: seq<byte>)
    ensures bs != []
  {
    if release.Some? then [0xC2] + Bytes(release.value, 2) else [0xC3]
  }

  /** Two bytes with 66, else eight in 64-bit code and four outside it. */
  function ReturnSlot(pre: seq<byte>, long: bool): (n: nat)
    ensures n in {2, 4, 8}
  {
    if 0x66 in pre then 2 else if long then 8 else 4
  }

  lemma {:induction false} ClassifiedReturn(isa: Isa, mode: nat, code: seq<byte>, n: nat, release: Option<nat>)
    requires n + |ReturnBytes(release)| <= |code| && code[n] == (if release.Some? then 0xC2 else 0xC3)
    ensures Classify(isa, mode, code, n, OpcodeAt(code, n))
            == InlineRet(StartEntry(isa, mode, code, n, code[n]), n, RetOperandSize(mode, code, n),
                         if release.Some? then LittleEndian(code[n + 1..n + 3]) else 0, release.Some?)
  {
    hide EscapeCandidate, ClassifyNoFault, LittleEndian, StartEntry, InlineRet, RetOperandSize, Ladder, Install;
  }

  lemma {:induction false} StartedReturn(isa: Isa, mode: nat, code: seq<byte>, n: nat, opc: nat)
    requires n <= |code|
    ensures var e := StartEntry(isa, mode, code, n, opc);
            && e.handler == NoHandler && !e.ud && !e.bp && !e.db && e.segmentOverride == PeekSegment(code, n)
  {
    hide PeekSegment, BranchOpcode, EscapeCandidate;
  }

  lemma {:induction false} ReturnLayout(pre: seq<byte>, release: Option<nat>, rest: seq<byte>)
    requires release.Some? ==> release.value < 0x1_0000
    ensures var bytes := ReturnBytes(release);
            var code, n := pre + bytes + rest, |pre|;
            && code == pre + (bytes + rest) && n + |bytes| <= |code| && (bytes + rest)[0] == code[n]
            && code[n] == (if release.Some? then 0xC2 else 0xC3)
            && (release.Some? ==> LittleEndian(code[n + 1..n + 3]) == release.value)
  {
    hide Bytes, LittleEndian;
    var code := pre + ReturnBytes(release) + rest;
    assert code[|pre|] == ReturnBytes(release)[0];
    if release.Some? {
      assert code[|pre| + 1..|pre| + 3] == Bytes(release.value, 2);
      WordIsPow2();
      ValueOfBytes(release.value, 2);
    }
  }

  lemma {:induction false} NoPrefixByte()
    ensures !PrefixByte(0xC2) && !PrefixByte(0xC3)
  {
  }

  lemma {:induction false} ReturnFields(isa: Isa, mode: nat, pre: seq<byte>, release: Option<nat>, rest: seq<byte>)
    requires PrefixRunFor(pre, RexAllowed(mode)) && (release.Some? ==> release.value < 0x1_0000)
    requires isa.special(pre + ReturnBytes(release) + rest) == None
    ensures var e := StaticEntry(isa, mode, pre + ReturnBytes(release) + rest);
            && e.inline == (if release.Some? then RetImmediate else RetPlain)
            && e.retPrefix == |pre| && e.retSize == 8 * ReturnSlot(pre, RexAllowed(mode))
            && (release.Some? ==> e.retImmediate == release.value)
            && !e.ud && !e.bp && !e.db && e.handler == NoHandler && e.segmentOverride == SegmentIn(pre)
  {
    hide PrefixLength, LittleEndian, PrefixRunFor, RexAllowed, PeekSegment, SegmentIn, Classify, StaticEntry,
      StartEntry, ReturnBytes, RetOperandSize, OpcodeAt, PrefixByte, ReturnSlot;
    var code := pre + ReturnBytes(release) + rest;
    ReturnLayout(pre, release, rest);
    NoPrefixByte();
    PeekStops(mode, pre, ReturnBytes(release) + rest);
    SegmentPeeked(pre, ReturnBytes(release) + rest);
    SizeIn(mode, pre, ReturnBytes(release) + rest);
    StaticIs(isa, mode, code);
    ClassifiedReturn(isa, mode, code, |pre|, release);
    StartedReturn(isa, mode, code, |pre|, code[|pre|]);
  }

  lemma {:induction false} SizeIn(mode: nat, pre: seq<byte>, rest: seq<byte>)
    ensures RetOperandSize(mode, pre + rest, |pre|) == 8 * ReturnSlot(pre, RexAllowed(mode))
  {
    hide RexAllowed;
    var code := pre + rest;
    if 0x66 in pre {
      var i :| 0 <= i < |pre| && pre[i] == 0x66;
      assert code[i] == 0x66;
    } else {
      forall i | 0 <= i < |pre| ensures code[i] != 0x66 {
        assert code[i] == pre[i] && pre[i] in pre;
      }
    }
  }

  lemma {:induction false} Masked(target: nat, n: nat)
    requires n in {2, 4, 8} && target < Pow2(8 * n)
    ensures Wrap(target) == target && MaskOffset(Wrap(target), 8 * n) == target
  {
    WordIsPow2();
    if n == 2 {
    } else if n == 4 {
    }
  }

  lemma {:induction false} WholeOffset(c: Cpu, target: nat, n: nat)
    requires n in {2, 4, 8} && target < Pow2(8 * n)
    requires Is64BitCode(c) ==> Canonical(Wrap(target))
    ensures Wrap(target) == target && AssignRip(c, Wrap(target), 8 * n) == c.(scalar := c.scalar.(rip := target))
  {
    hide Canonical, Pow2, MaskOffset, Is64BitCode, Wrap;
    Masked(target, n);
  }

  lemma {:induction false} ReleaseMoves(c: Cpu, amount: nat)
    ensures var w, rsp := PointerWidth(c), c.scalar.regs[4];
            var after := AddToStackPointer(c, amount);
            && after.scalar.regs[4] == LowReplaced(rsp, w, Low(w, Low(w, rsp) + amount))
            && after == WithReg(c, 4, after.scalar.regs[4])
  {
    hide LowReplaced, Low, Modulus, StackModulus, StackPointer, StackAdd, SetStackPointer, PointerWidth;
    SameModulus(c);
    PointerSet(c, StackAdd(c, StackPointer(c), amount));
  }

  /** Moving a pointer twice is moving it once by both amounts. */
  lemma {:induction false} MovedTwice(rsp: u64, once: u64, w: Width, a: int, amount: nat)
    requires w != 8 && once == LowReplaced(rsp, w, Low(w, a))
    ensures LowReplaced(once, w, Low(w, Low(w, once) + amount)) == LowReplaced(rsp, w, Low(w, a + amount))
  {
    hide Modulus;
    DivUnique(once, Modulus(w), rsp / Modulus(w), Low(w, a));
    AddLow(w, a, amount);
  }

  lemma {:induction false} AddLow(w: Width, a: int, amount: nat)
    ensures Low(w, Low(w, a) + amount) == Low(w, a + amount)
  {
    hide Modulus;
    var m := Modulus(w);
    var q := a / m;
    assert a == m * q + Low(w, a);
    SumOfRests(m, q, Low(w, a) + amount);
  }

  lemma {:induction false} SumOfRests(m: nat, q: int, x: int)
    requires m > 0
    ensures (m * q + x) % m == x % m
  {
    Spread(m, q, x);
    DivUnique(m * q + x, m, q + x / m, x % m);
  }

  lemma {:induction false} Spread(m: nat, q: int, x: int)
    requires m > 0
    ensures m * q + x == m * (q + x / m) + x % m
  {
  }

  /** RET by its parts: pop, jump, release. */
  lemma {:induction false} UnfoldReturn(m: Machine, e: Entry, n: nat)
    requires e.retSize == 8 * n
    ensures var size := e.retPrefix + if e.inline == RetImmediate then 3 else 1;
            var (popped, target) := Pop(m.(cpu := StampSize(m.cpu, size)), n);
            var returned := AssignRip(popped.cpu, Wrap(target), 8 * n);
            RunRet(m, e)
            == if Pending(popped.cpu) then popped
               else if e.inline == RetPlain || Pending(returned) then popped.(cpu := returned)
               else popped.(cpu := AddToStackPointer(returned, e.retImmediate))
  {
    hide Pop, AssignRip, Pending, AddToStackPointer, Wrap;
  }

  lemma {:induction false} SizedSame(m: Machine, size: nat, address: u64, n: nat)
    ensures var sized := m.(cpu := StampSize(m.cpu, size));
            && Pending(sized.cpu) == Pending(m.cpu) && PointerWidth(sized.cpu) == PointerWidth(m.cpu)
            && sized.cpu.scalar.regs == m.cpu.scalar.regs && Is64BitCode(sized.cpu) == Is64BitCode(m.cpu)
            && Accessible(sized, address, n, Read) == Accessible(m, address, n, Read)
  {
    hide FirstFault, FaultAt;
    var sized := m.(cpu := StampSize(m.cpu, size));
    SameFaults(m, sized, address, n, Read);
  }

  lemma {:induction false} WithRegSame(c: Cpu, value: u64, target: u64)
    ensures var d := WithReg(c, 4, value);
            var e := d.(scalar := d.scalar.(rip := target));
            && d.scalar.regs[4] == value && Pending(d) == Pending(c) && Is64BitCode(d) == Is64BitCode(c)
            && PointerWidth(e) == PointerWidth(c) && Pending(e) == Pending(c) && e.scalar.regs == d.scalar.regs
  {
  }

  /** The state behind a RET: RIP, RSP and the size are new. */
  function Returned(c: Cpu, rsp: u64, rip: u64, size: nat): Cpu {
    var d := WithReg(c, 4, rsp);
    d.(scalar := d.scalar.(rip := rip, lastInstSize := size))
  }

  lemma {:induction false} ReturnedIs(c: Cpu, a: u64, b: u64, target: u64, size: nat)
    ensures var d := WithReg(StampSize(c, size), 4, a);
            var e := d.(scalar := d.scalar.(rip := target));
            && e == Returned(c, a, target, size) && WithReg(e, 4, b) == Returned(c, b, target, size)
  {
    var regs := c.scalar.regs;
    assert regs[4 := a][4 := b] == regs[4 := b];
  }

  /** The inline RET on a machine whose return address can be read. */
  lemma {:induction false} ReturnRuns(m: Machine, e: Entry, n: nat)
    requires !Pending(m.cpu) && n in {2, 4, 8} && e.retSize == 8 * n && (n == 8 ==> Is64BitCode(m.cpu))
    requires (n == 4 ==> !Is64BitCode(m.cpu)) && e.inline in {RetPlain, RetImmediate}
    requires var slot := Low(PointerWidth(m.cpu), m.cpu.scalar.regs[4]);
             Accessible(m, slot, n, Read)
             && (Is64BitCode(m.cpu) ==> Canonical(Wrap(LittleEndian(BytesAt(m.mem, slot, n)))))
    ensures var w, rsp := PointerWidth(m.cpu), m.cpu.scalar.regs[4];
            var slot := Low(w, rsp);
            var release := if e.inline == RetPlain then 0 else e.retImmediate;
            var after := RunRet(m, e);
            && after.cpu.scalar.rip == LittleEndian(BytesAt(m.mem, slot, n))
            && after.cpu.scalar.regs[4] == LowReplaced(rsp, w, Low(w, slot + n + release))
            && after == m.(cpu := Returned(m.cpu, after.cpu.scalar.regs[4], after.cpu.scalar.rip,
                                           e.retPrefix + if e.inline == RetImmediate then 3 else 1))
  {
    hide *;
    var size := e.retPrefix + if e.inline == RetImmediate then 3 else 1;
    var w, rsp := PointerWidth(m.cpu), m.cpu.scalar.regs[4];
    var slot := Low(w, rsp);
    var target := LittleEndian(BytesAt(m.mem, slot, n));
    var sized := m.(cpu := StampSize(m.cpu, size));
    SizedSame(m, size, slot, n);
    WideNotShort(m.cpu);
    PopMoves(sized, n);
    LittleEndianWidth(BytesAt(m.mem, slot, n));
    var once := Pop(sized, n).0.cpu.scalar.regs[4];
    WithRegSame(sized.cpu, once, 0);
    WholeOffset(WithReg(sized.cpu, 4, once), target, n);
    WithRegSame(sized.cpu, once, Wrap(target));
    UnfoldReturn(m, e, n);
    ReturnedIs(m.cpu, once, once, Wrap(target), size);
    RegisterFour(m.cpu, once, Wrap(target), size);
    if e.inline == RetImmediate {
      var returned := Returned(m.cpu, once, Wrap(target), size);
      ReleaseMoves(returned, e.retImmediate);
      MovedTwice(rsp, once, w, slot + n, e.retImmediate);
      var last := AddToStackPointer(returned, e.retImmediate).scalar.regs[4];
      ReturnedIs(m.cpu, once, last, Wrap(target), size);
      RegisterFour(m.cpu, last, Wrap(target), size);
    }
  }

  lemma {:induction false} RegisterFour(c: Cpu, rsp: u64, rip: u64, size: nat)
    ensures var d := Returned(c, rsp, rip, size);
            && d.scalar.regs[4] == rsp && d.scalar.rip == rip && PointerWidth(d) == PointerWidth(c)
            && Pending(d) == Pending(c)
  {
  }

  lemma {:induction false} WideNotShort(c: Cpu)
    ensures Is64BitCode(c) ==> PointerWidth(c) == 64
  {
  }

  /** RET from its bytes, behind any prefixes: RIP becomes what the stack holds, at the size that 66 and the mode give,
      and the stack pointer moves past it and past the bytes to release. */
  lemma {:induction false} ReturnSteps(isa: Isa, m: Machine, c: Cpu, pre: seq<byte>, release: Option<nat>,
      rest: seq<byte>)
    requires ReadyToDecode(m.cpu) && SameMode(c, m.cpu) && PrefixRunFor(pre, Is64BitCode(m.cpu))
    requires release.Some? ==> release.value < 0x1_0000
    requires isa.special(pre + ReturnBytes(release) + rest) == None
    requires var slot, n := Low(PointerWidth(m.cpu), m.cpu.scalar.regs[4]), ReturnSlot(pre, Is64BitCode(m.cpu));
             Accessible(m, slot, n, Read)
             && (Is64BitCode(m.cpu) ==> Canonical(Wrap(LittleEndian(BytesAt(m.mem, slot, n)))))
    ensures var w, rsp := PointerWidth(m.cpu), m.cpu.scalar.regs[4];
            var slot, n := Low(w, rsp), ReturnSlot(pre, Is64BitCode(m.cpu));
            var (after, code) := Dispatch(isa, m, DecodeAt(isa, c, pre + ReturnBytes(release) + rest));
            && code == StepOk && after.cpu.scalar.rip == LittleEndian(BytesAt(m.mem, slot, n))
            && after.cpu.scalar.regs[4]
               == LowReplaced(rsp, w, Low(w, slot + n + if release.Some? then release.value else 0))
            && after == m.(cpu := Returned(m.cpu, after.cpu.scalar.regs[4], after.cpu.scalar.rip,
                                           |pre| + if release.Some? then 3 else 1))
  {
    hide *;
    var code := pre + ReturnBytes(release) + rest;
    var e, n := StaticEntry(isa, ModeBits(c), code), ReturnSlot(pre, Is64BitCode(m.cpu));
    SameModeBits(c, m.cpu);
    ReturnFields(isa, ModeBits(c), pre, release, rest);
    NoHandlerStays(isa, e, c);
    DecodedFrom(isa, c, code);
    UnfoldReadyIn(m.cpu);
    var s := m.(cpu := WithOverride(m.cpu, e.segmentOverride));
    var slot := Low(PointerWidth(m.cpu), m.cpu.scalar.regs[4]);
    OverriddenSame(m, e.segmentOverride, slot, n);
    SlotFits(pre, Is64BitCode(m.cpu));
    ReturnRuns(s, e, n);
    ReturnEnds(isa, m, e, |pre| + if release.Some? then 3 else 1);
    RegisterFour(m.cpu, RunRet(s, e).cpu.scalar.regs[4], RunRet(s, e).cpu.scalar.rip,
                 |pre| + if release.Some? then 3 else 1);
  }

  lemma {:induction false} SlotFits(pre: seq<byte>, long: bool)
    ensures var n := ReturnSlot(pre, long); n in {2, 4, 8} && (n == 8 ==> long) && (n == 4 ==> !long)
  {
  }

  lemma {:induction false} UnfoldReadyIn(c: Cpu)
    requires ReadyToDecode(c)
    ensures !Pending(c) && c.scalar.segmentOverride == NoOverride
  {
  }

  lemma {:induction false} OverriddenSame(m: Machine, segment: Override, address: u64, n: nat)
    ensures var s := m.(cpu := WithOverride(m.cpu, segment));
            && Pending(s.cpu) == Pending(m.cpu) && PointerWidth(s.cpu) == PointerWidth(m.cpu)
            && s.cpu.scalar.regs == m.cpu.scalar.regs && Is64BitCode(s.cpu) == Is64BitCode(m.cpu)
            && Accessible(s, address, n, Read) == Accessible(m, address, n, Read)
  {
    hide FirstFault, FaultAt;
    var s := m.(cpu := WithOverride(m.cpu, segment));
    SameFaults(m, s, address, n, Read);
  }

  /** How a step of an inline RET ends. */
  lemma {:induction false} ReturnEnds(isa: Isa, m: Machine, e: Entry, size: nat)
    requires m.cpu.scalar.segmentOverride == NoOverride && !Pending(m.cpu)
    requires !e.ud && !e.bp && !e.db && e.inline in {RetPlain, RetImmediate}
    requires var s := m.(cpu := WithOverride(m.cpu, e.segmentOverride));
             var ran := RunRet(s, e);
             ran == s.(cpu := Returned(s.cpu, ran.cpu.scalar.regs[4], ran.cpu.scalar.rip, size))
    ensures var ran := RunRet(m.(cpu := WithOverride(m.cpu, e.segmentOverride)), e);
            Dispatch(isa, m, e)
            == (m.(cpu := Returned(m.cpu, ran.cpu.scalar.regs[4], ran.cpu.scalar.rip, size)), StepOk)
  {
    hide RunRet;
  }
}
