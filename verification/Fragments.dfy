/** Steps whose fetch window is not wholly fetchable: what they leave in the machine, and in the cache. */
module Fragments {
  import opened Bits
  import opened MemoryManagement
  import opened CpuState
  import opened LinearMemory
  import opened Stack
  import opened Fetch
  import opened Decoder
  import opened Executor
  import opened Replay
  import opened InstCache
  import opened Transparency
  import opened LoopRefinement
  import opened ObservedRuns
  import opened Witnesses

  // Faults with a cache and without.

  /** What the rollback brings back: everything a scalar snapshot holds, but CR2. */
  predicate ScalarKept(before: Cpu, after: Cpu) {
    after.scalar == before.scalar.(controlRegs := before.scalar.controlRegs[2 := after.scalar.controlRegs[2]])
  }

  /** The entry has no bytes, or a snapshot that brings everything back. */
  predicate RolledBack(e: Entry) {
    e.bytes == [] || (!e.noFault && !e.partial)
  }

  /** The entry an uncached engine makes of what it could fetch. */
  function Fragment(isa: Isa, m: Machine): Entry {
    var k := Keyed(m);
    DecodeAt(isa, Fetched(k, k.cpu.scalar.rip).cpu, FetchedBytes(k, k.cpu.scalar.rip))
  }

  lemma {:induction false} PendingRolledBack(isa: Isa, m: Machine, e: Entry)
    requires Civil(isa) && Pending(m.cpu) && m.cpu.scalar.segmentOverride == NoOverride && RolledBack(e)
    ensures ScalarKept(m.cpu, RunDecoded(isa, m, e).0.cpu)
  {
    hide Body, Civil;
    assert m.cpu.scalar.controlRegs[2 := m.cpu.scalar.controlRegs[2]] == m.cpu.scalar.controlRegs;
    BodyPending(isa, m.(cpu := WithOverride(m.cpu, e.segmentOverride)), e);
  }

  lemma {:induction false} KeptTwice(a: Cpu, b: Cpu, c: Cpu)
    requires ScalarKept(a, b) && ScalarKept(b, c)
    ensures ScalarKept(a, c)
  {
  }

  lemma {:induction false} FetchKeeps(m: Machine, address: u64)
    ensures ScalarKept(m.cpu, Fetched(m, address).cpu)
    ensures Fetched(m, address).cpu.scalar.segmentOverride == m.cpu.scalar.segmentOverride
  {
    hide FirstFault, FaultAt, Wrap, PageFaultError;
    assert m.cpu.scalar.controlRegs[2 := m.cpu.scalar.controlRegs[2]] == m.cpu.scalar.controlRegs;
  }

  /** A hit that faults under a window that cannot be fetched, and the uncached step: where both entries are rolled
      back, neither has moved a scalar field but CR2. What can differ is CR2 and the exception, memory and vector state
      that open handlers wrote, and the cached key. */
  lemma {:induction false} FaultingHitKeeps(isa: Isa, m: Machine, slots: seq<Slot>)
    requires Civil(isa) && Resting(m.cpu) && !Pending(m.cpu) && !WindowFetchable(m, m.cpu.scalar.rip)
    requires var hit := Find(slots, m.mem.codeVersion, m.cpu.scalar.rip, ModeBits(m.cpu));
             hit.Some? && RolledBack(hit.value) && hit.value.bytes != []
    requires Step(isa, m, slots, []).code != StepOk && RolledBack(Fragment(isa, m))
    ensures ScalarKept(m.cpu, Step(isa, m, slots, []).machine.cpu)
    ensures ScalarKept(m.cpu, Step(isa, m, [], []).machine.cpu)
  {
    hide *;
    var k, rip := Keyed(m), m.cpu.scalar.rip;
    var e := Find(slots, m.mem.codeVersion, rip, ModeBits(m.cpu)).value;
    KeyedReady(m);
    UnfoldRolled(e);
    UnfoldWindow(m, rip);
    UnfoldWindow(k, rip);
    UnfoldStep(isa, m, slots, []);
    HitKeeps(isa, k, e);
    UncachedStep(isa, m, []);
    UnfoldFragment(isa, m);
    FetchKeeps(k, rip);
    RestingOverride(k.cpu);
    UnfetchedPends(k, rip);
    PendingRolledBack(isa, Fetched(k, rip), Fragment(isa, m));
    KeptTwice(k.cpu, Fetched(k, rip).cpu, Step(isa, m, [], []).machine.cpu);
    SameScalar(m.cpu, k.cpu, Step(isa, m, slots, []).machine.cpu);
    SameScalar(m.cpu, k.cpu, Step(isa, m, [], []).machine.cpu);
  }

  lemma {:induction false} SameScalar(a: Cpu, b: Cpu, c: Cpu)
    requires a.scalar == b.scalar
    ensures ScalarKept(a, c) == ScalarKept(b, c)
  {
  }

  lemma {:induction false} UnfoldRolled(e: Entry)
    requires RolledBack(e) && e.bytes != []
    ensures !e.noFault && !e.partial
  {
  }

  lemma {:induction false} RestingOverride(c: Cpu)
    requires Resting(c)
    ensures c.scalar.segmentOverride == NoOverride
  {
  }

  lemma {:induction false} HitKeeps(isa: Isa, k: Machine, e: Entry)
    requires Resting(k.cpu) && !Pending(k.cpu) && e.bytes != [] && !e.noFault && !e.partial
    ensures RunDecoded(isa, k, e).1 != StepOk ==> ScalarKept(k.cpu, RunDecoded(isa, k, e).0.cpu)
  {
    hide Dispatch, Pending, ModeKeyCoherent;
    if RunDecoded(isa, k, e).1 != StepOk {
      PreciseFaults(isa, k, e);
    }
  }

  lemma {:induction false} UnfetchedPends(k: Machine, rip: u64)
    requires !Pending(k.cpu) && !Accessible(k, rip, 15, Exec)
    ensures Pending(Fetched(k, rip).cpu)
  {
    hide Accessible, Checked, Pending;
    CheckedPends(k, rip, 15, Exec);
  }

  lemma {:induction false} UnfoldFragment(isa: Isa, m: Machine)
    requires Resting(m.cpu) && !Pending(m.cpu)
    ensures var k, rip := Keyed(m), m.cpu.scalar.rip;
            && Fragment(isa, m) == DecodeAt(isa, Fetched(k, rip).cpu, FetchedBytes(k, rip))
            && (forall slots ::
                  Miss(isa, k, slots, [])
                  == Outcome(RunDecoded(isa, Fetched(k, rip), Fragment(isa, m)).0,
                             if Fragment(isa, m).bytes == [] then slots
                             else Fill(slots, k.mem.codeVersion, rip, k.cpu.modeKeyBits, Fragment(isa, m)),
                             RunDecoded(isa, Fetched(k, rip), Fragment(isa, m)).1))
  {
    hide DecodeAt, RunDecoded, Fill, FetchedBytes, Fetched, Pending;
    PrimeKeepsRip(m.cpu);
  }

  // The fragment in the cache.

  /** A miss whose fetch faults behind the first bytes, and the bytes there are decode to something. */
  ghost predicate FragmentMiss(isa: Isa, m: Machine, slots: seq<Slot>) {
    && Resting(m.cpu) && !Pending(m.cpu) && |slots| == 0x8000 && !WindowFetchable(m, m.cpu.scalar.rip)
    && Find(slots, m.mem.codeVersion, m.cpu.scalar.rip, ModeBits(m.cpu)) == None
    && Fragment(isa, m).bytes != []
  }

  lemma {:induction false} UnfoldMiss(isa: Isa, m: Machine, slots: seq<Slot>)
    requires FragmentMiss(isa, m, slots)
    ensures Resting(m.cpu) && !Pending(m.cpu) && |slots| == 0x8000 && !WindowFetchable(m, m.cpu.scalar.rip)
    ensures Find(slots, m.mem.codeVersion, m.cpu.scalar.rip, ModeBits(m.cpu)) == None && Fragment(isa, m).bytes != []
  {
    hide Resting, Pending, WindowFetchable, Find, Fragment, ModeBits;
  }

  lemma {:induction false} FragmentFiled(isa: Isa, m: Machine, slots: seq<Slot>)
    requires FragmentMiss(isa, m, slots)
    ensures Step(isa, m, slots, []).slots
            == Fill(slots, m.mem.codeVersion, m.cpu.scalar.rip, ModeBits(m.cpu), Fragment(isa, m))
  {
    hide *;
    UnfoldMiss(isa, m, slots);
    KeyedReady(m);
    UnfoldStep(isa, m, slots, []);
    UnfoldFragment(isa, m);
  }

  lemma {:induction false} FragmentShort(isa: Isa, m: Machine)
    requires Resting(m.cpu) && !Pending(m.cpu) && !WindowFetchable(m, m.cpu.scalar.rip)
    ensures |Fragment(isa, m).bytes| < 15
  {
    hide *;
    var k, rip := Keyed(m), m.cpu.scalar.rip;
    KeyedReady(m);
    UnfoldWindow(m, rip);
    UnfoldWindow(k, rip);
    UnfoldFragment(isa, m);
    ShortFetch(k, rip);
    EntryHoldsCode(isa, Fetched(k, rip).cpu, FetchedBytes(k, rip));
  }

  lemma {:induction false} ShortFetch(k: Machine, rip: u64)
    requires !Pending(k.cpu) && !Accessible(k, rip, 15, Exec)
    ensures |FetchedBytes(k, rip)| < 15
  {
    hide BytesAt, FirstFault;
  }

  /** The step raises the fault of the fetch, and still files what it made of the fragment: no state ever decoded the
      window to that, and the cache is sound no more. */
  lemma {:induction false} FragmentUnsound(isa: Isa, m: Machine, past: set<Cpu>, slots: seq<Slot>)
    requires Civil(isa) && FragmentMiss(isa, m, slots)
    ensures Step(isa, m, slots, []).code == StepException
    ensures !Sound(isa, m.mem, past, Step(isa, m, slots, []).slots)
  {
    hide *;
    var rip, e := m.cpu.scalar.rip, Fragment(isa, m);
    UnfoldMiss(isa, m, slots);
    KeyedReady(m);
    FragmentFiled(isa, m, slots);
    FragmentShort(isa, m);
    FilledSlot(slots, m.mem.codeVersion, rip, ModeBits(m.cpu), e);
    WindowHead(m.mem, rip);
    WrongEntryUnsound(isa, m.mem, past, Slot(rip, m.mem.codeVersion, ModeBits(m.cpu), e), e.bytes);
    var after := Step(isa, m, slots, []).slots;
    if Sound(isa, m.mem, past, after) {
      UnfoldSound(isa, m.mem, past, after, Index(rip));
    }
    UnfoldStep(isa, m, slots, []);
    UnfoldWindow(m, rip);
    UnfoldWindow(Keyed(m), rip);
    MissFaults(isa, Keyed(m), slots);
  }

  lemma {:induction false} MissFaults(isa: Isa, k: Machine, slots: seq<Slot>)
    requires Civil(isa) && !Pending(k.cpu) && !Accessible(k, k.cpu.scalar.rip, 15, Exec)
    ensures Miss(isa, k, slots, []).code == StepException
  {
    hide DecodeAt, FetchedBytes, RunDecoded, Civil, Fill, Checked, Accessible, Pending;
    CheckedPends(k, k.cpu.scalar.rip, 15, Exec);
    var fetched := Fetched(k, k.cpu.scalar.rip);
    PendingRun(isa, fetched, DecodeAt(isa, fetched.cpu, FetchedBytes(k, k.cpu.scalar.rip)));
  }

  /** What comes of it: whoever reaches the address later in this mode and under this code version, at whatever
      privilege, runs the fragment. */
  lemma {:induction false} FragmentIsRun(isa: Isa, m: Machine, slots: seq<Slot>, later: Machine)
    requires FragmentMiss(isa, m, slots)
    requires Resting(later.cpu) && !Pending(later.cpu) && later.cpu.scalar.rip == m.cpu.scalar.rip
    requires ModeBits(later.cpu) == ModeBits(m.cpu) && later.mem.codeVersion == m.mem.codeVersion
    ensures var out := Step(isa, later, Step(isa, m, slots, []).slots, []);
            (out.machine, out.code) == RunDecoded(isa, Keyed(later), Fragment(isa, m))
  {
    hide *;
    UnfoldMiss(isa, m, slots);
    KeyedReady(later);
    FragmentFiled(isa, m, slots);
    FilledHit(slots, m.mem.codeVersion, m.cpu.scalar.rip, ModeBits(m.cpu), Fragment(isa, m));
    UnfoldStep(isa, later, Step(isa, m, slots, []).slots, []);
  }

  // A jump whose second byte lies on a supervisor page.

  function TwoPages(): Mem {
    Mem(map[0 := Page(0, true, true, true, true), 1 := Page(0x1000, true, true, true, false)], [], false,
        map[0xFFF := 0x70], 1)
  }

  function Straddler(cpl: nat): Machine {
    Machine(Idle(0xFFF, cpl), TwoPages())
  }

  lemma {:induction false} StraddlerFetch(c: Cpu)
    requires !Pending(c)
    ensures var m := Machine(c, TwoPages());
            FirstFault(m, 0xFFF, 15, Exec) == (if c.scalar.cpl == 3 then 1 else 15)
            && ByteAt(m.mem, 0xFFF) == 0x70
  {
    var m := Machine(c, TwoPages());
    forall i: nat | i < 15 ensures ByteFault(m, 0xFFF, i, Exec) == NoFault <==> i == 0 || c.scalar.cpl != 3 {
      CanonicalRange(0xFFF + i);
    }
    FirstFaultIs(m, 0xFFF, 15, Exec, if c.scalar.cpl == 3 then 1 else 15);
  }

  lemma {:induction false} StraddlerBytes()
    ensures var k := Keyed(Straddler(3));
            FetchedBytes(k, 0xFFF) == [0x70] && !WindowFetchable(Straddler(3), 0xFFF)
    ensures WindowFetchable(Straddler(0), 0xFFF) && Window(TwoPages(), 0xFFF)[0] == 0x70
  {
    hide FirstFault, ByteAt, Wrap, PrimeModeKey;
    IdleRests(0xFFF, 3);
    IdleRests(0xFFF, 0);
    KeyedReady(Straddler(3));
    StraddlerFetch(Straddler(3).cpu);
    StraddlerFetch(Keyed(Straddler(3)).cpu);
    StraddlerFetch(Straddler(0).cpu);
    WindowHead(TwoPages(), 0xFFF);
    WrapStart();
  }

  lemma {:induction false} WrapStart()
    ensures Wrap(0xFFF + 0) == 0xFFF
  {
  }

  lemma {:induction false} HeadClass(mode: nat)
    ensures PrefixLength(mode, [0x70], 0) == 0 && OpcodeAt([0x70], 0) == 0x70
    ensures var e := Classify(Plain(), mode, [0x70], 0, 0x70); e.bytes == [0x70] && e.ud && e.handler == NoHandler
  {
    hide ClassifyNoFault, PeekSegment, EscapeCandidate, RetOperandSize, LittleEndian, LongCodeBit, Branches;
  }

  /** Of the jump alone the decoder makes an undefined opcode. */
  lemma {:induction false} HeadIsUndefined(c: Cpu)
    ensures var e := DecodeAt(Plain(), c, [0x70]); e.bytes == [0x70] && e.ud
  {
    hide *;
    HeadClass(ModeBits(c));
    NothingSpecial([0x70]);
    StaticIs(Plain(), c, [0x70]);
  }

  lemma {:induction false} NothingSpecial(code: seq<byte>)
    ensures Plain().special(code) == None
  {
  }

  lemma {:induction false} UndefinedRun(isa: Isa, k: Machine, e: Entry)
    requires !Pending(k.cpu) && e.bytes != [] && e.ud
    ensures RunDecoded(isa, k, e).0.cpu.exception.code == UD
  {
    hide Body;
  }

  lemma {:induction false} UnfoldStraddler(cpl: nat)
    ensures Straddler(cpl) == Machine(Idle(0xFFF, cpl), TwoPages()) && Straddler(cpl).cpu.scalar.rip == 0xFFF
    ensures ModeBits(Straddler(cpl).cpu) == 3 && LongCodeBit(3)
  {
  }

  /** User code runs off its page into the middle of the jump; supervisor code that comes to the same jump later gets
      #UD from the cache, where an engine without a cache jumps. */
  lemma {:induction false} FragmentIsSeen()
    ensures var isa, m, later := Plain(), Straddler(3), Straddler(0);
            var after := Step(isa, m, FreshSlots(), []).slots;
            && FragmentMiss(isa, m, FreshSlots()) && WindowFetchable(later, later.cpu.scalar.rip)
            && Step(isa, later, after, []).machine.cpu.exception.code == UD
            && Step(isa, later, [], []).machine.cpu.exception.code in {NoException, GP}
  {
    hide *;
    var isa, m, later := Plain(), Straddler(3), Straddler(0);
    UnfoldStraddler(3);
    UnfoldStraddler(0);
    IdleRests(0xFFF, 3);
    IdleRests(0xFFF, 0);
    PlainIsWellBehaved();
    StraddlerBytes();
    KeyedReady(m);
    KeyedReady(later);
    UnfoldFragment(isa, m);
    HeadIsUndefined(Fetched(Keyed(m), 0xFFF).cpu);
    FreshMisses(m);
    FoldMiss(isa, m);
    FragmentIsRun(isa, m, FreshSlots(), later);
    UndefinedRun(isa, Keyed(later), Fragment(isa, m));
    var l := Keyed(later);
    WindowHead(later.mem, 0xFFF);
    UnfoldWindow(later, 0xFFF);
    UnfoldWindow(l, 0xFFF);
    UncachedStep(isa, later, []);
    MissDecodes(isa, l, [], []);
    JumpEntry(isa, l.cpu, Window(later.mem, 0xFFF));
    JumpRun(isa, l, DecodeAt(isa, l.cpu, Window(later.mem, 0xFFF)));
  }

  lemma {:induction false} FoldMiss(isa: Isa, m: Machine)
    requires Resting(m.cpu) && !Pending(m.cpu) && !WindowFetchable(m, m.cpu.scalar.rip)
    requires Find(FreshSlots(), m.mem.codeVersion, m.cpu.scalar.rip, ModeBits(m.cpu)) == None
    requires Fragment(isa, m).bytes != []
    ensures FragmentMiss(isa, m, FreshSlots())
  {
    hide Resting, Pending, WindowFetchable, Find, Fragment, ModeBits;
  }
}
