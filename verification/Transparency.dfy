/** The instruction cache is transparent: over whole runs it changes no state and no result. */
module Transparency {
  import opened Bits
  import opened MemoryManagement
  import opened CpuState
  import opened LinearMemory
  import opened Stack
  import opened Fetch
  import opened Flags
  import opened Addressing
  import opened AluDecode
  import opened AluExecute
  import opened Decoder
  import opened Executor
  import opened Replay
  import opened InstCache

  // What a slot promises.

  /** Byte i of the fetch window. */
  function WindowByte(mem: Mem, address: u64, i: nat): Option<byte> {
    CodeByte(mem, Wrap(address + i))
  }

  ghost predicate Visible(mem: Mem, address: u64) {
    forall i: nat :: i < 15 ==> WindowByte(mem, address, i) != None
  }

  function Window(mem: Mem, address: u64): seq<byte> {
    BytesAt(mem, address, 15)
  }

  /** The slot holds what decoding the current bytes at its tag gave in some state of its mode. */
  ghost predicate DecodedBy(isa: Isa, mem: Mem, slot: Slot, c: Cpu) {
    && ReadyToDecode(c) && c.scalar.rip == slot.tag && ModeBits(c) == slot.mode
    && Visible(mem, slot.tag)
    && slot.entry == DecodeAt(isa, c, Window(mem, slot.tag)) && slot.entry.bytes != []
  }

  /** The slot invariant: what a live slot holds was decoded in one of the states passed so far. Bit 0 of every mode
      key is set, so a slot that was never filled is exempt. */
  ghost predicate SlotSound(isa: Isa, mem: Mem, past: set<Cpu>, slot: Slot) {
    && slot.version <= mem.codeVersion
    && (slot.version == mem.codeVersion && slot.mode % 2 == 1 ==>
          exists c: Cpu :: c in past && DecodedBy(isa, mem, slot, c))
  }

  ghost predicate Sound(isa: Isa, mem: Mem, past: set<Cpu>, slots: seq<Slot>) {
    forall i :: 0 <= i < |slots| ==> SlotSound(isa, mem, past, slots[i])
  }

  /** An empty cache promises nothing. */
  lemma {:induction false} EmptySound(isa: Isa, mem: Mem, n: nat)
    ensures Sound(isa, mem, {}, seq(n, _ => EMPTY_SLOT))
  {
    hide DecodedBy;
  }

  /** A slot that was never filled hits nowhere, not even at RIP 0 with version 0. */
  lemma {:induction false} EmptyNeverHits(c: Cpu, version: u64, rip: u64)
    requires ModeKeyCoherent(c)
    ensures !Hits(EMPTY_SLOT, version, rip, PrimeModeKey(c).modeKeyBits)
  {
    PrimeKeepsRip(c);
  }

  // Changes of the executable view.

  ghost predicate SameCode(before: Mem, after: Mem) {
    forall a: u64 :: CodeByte(after, a) == CodeByte(before, a)
  }

  /** The contract of the code version: it never goes back, and while it stays, fetch sees the same bytes. */
  ghost predicate CodeKept(before: Mem, after: Mem) {
    && before.codeVersion <= after.codeVersion
    && (before.codeVersion == after.codeVersion ==> SameCode(before, after))
  }

  lemma {:induction false} CodeIsByte(mem: Mem, address: u64)
    ensures CodeByte(mem, address) != None ==> CodeByte(mem, address) == Some(ByteAt(mem, address))
  {
  }

  lemma {:induction false} WindowKept(before: Mem, after: Mem, address: u64)
    requires SameCode(before, after) && Visible(before, address)
    ensures Visible(after, address) && Window(after, address) == Window(before, address)
  {
    hide CodeByte, ByteAt, Wrap;
    forall i: nat | i < 15
      ensures WindowByte(after, address, i) != None
      ensures Window(after, address)[i] == Window(before, address)[i]
    {
      assert WindowByte(before, address, i) != None;
      CodeIsByte(before, Wrap(address + i));
      CodeIsByte(after, Wrap(address + i));
    }
  }

  /** A new version leaves no entry alive, and so nothing to remember. */
  function Recalled(before: Mem, after: Mem, past: set<Cpu>): set<Cpu> {
    if before.codeVersion == after.codeVersion then past else {}
  }

  lemma {:induction false} SlotKept(isa: Isa, before: Mem, after: Mem, past: set<Cpu>, slot: Slot)
    requires SlotSound(isa, before, past, slot) && CodeKept(before, after)
    ensures SlotSound(isa, after, Recalled(before, after, past), slot)
  {
    hide Visible, Window, DecodeAt, ReadyToDecode, ModeBits, SameCode;
    if slot.version == after.codeVersion && slot.mode % 2 == 1 {
      var c :| c in past && DecodedBy(isa, before, slot, c);
      WindowKept(before, after, slot.tag);
      assert DecodedBy(isa, after, slot, c);
    }
  }

  /** Whatever happens to memory under the version contract, the invariant survives. */
  lemma {:induction false} SoundKept(isa: Isa, before: Mem, after: Mem, past: set<Cpu>, slots: seq<Slot>)
    requires Sound(isa, before, past, slots) && CodeKept(before, after)
    ensures Sound(isa, after, Recalled(before, after, past), slots)
  {
    hide SlotSound, CodeKept, Recalled;
    forall i | 0 <= i < |slots|
      ensures SlotSound(isa, after, Recalled(before, after, past), slots[i])
    {
      SlotKept(isa, before, after, past, slots[i]);
    }
  }

  lemma {:induction false} SoundMore(isa: Isa, mem: Mem, past: set<Cpu>, more: set<Cpu>, slots: seq<Slot>)
    requires Sound(isa, mem, past, slots) && past <= more
    ensures Sound(isa, mem, more, slots)
  {
    hide DecodedBy;
    forall i | 0 <= i < |slots|
      ensures SlotSound(isa, mem, more, slots[i])
    {
      assert SlotSound(isa, mem, past, slots[i]);
    }
  }

  lemma {:induction false} FetchableVisible(m: Machine, address: u64)
    requires WindowFetchable(m, address)
    ensures Visible(m.mem, address)
    ensures FetchedBytes(m, address) == Window(m.mem, address) && Fetched(m, address) == m
  {
    hide FetchedBytes, Fetched, BytesAt, Wrap, CodeByte;
    WholeWindow(m, address);
    forall i: nat | i < 15
      ensures WindowByte(m.mem, address, i) != None
    {
      AccessibleMapped(m, address, 15, Exec, i);
      UnfoldByteFault(m, address, i, Exec);
      GrantedCode(m, Wrap(address + i));
    }
  }

  lemma {:induction false} GrantedCode(m: Machine, address: u64)
    requires FaultAt(m, address, Exec) == NoFault
    ensures CodeByte(m.mem, address) != None
  {
  }

  // One step.

  /** The states between instructions: coherent key, no stamped segment. */
  predicate Resting(c: Cpu) {
    ModeKeyCoherent(c) && c.scalar.segmentOverride == NoOverride
  }

  lemma {:induction false} KeyedReady(m: Machine)
    requires Resting(m.cpu) && !Pending(m.cpu)
    ensures var k := Keyed(m);
            && k.mem == m.mem && ReadyToDecode(k.cpu) && Resting(k.cpu) && !Pending(k.cpu)
            && k.cpu.modeKeyBits == ModeBits(k.cpu) && k.cpu.modeKeyBits % 2 == 1
            && k.cpu.scalar == m.cpu.scalar && ModeBits(k.cpu) == ModeBits(m.cpu)
            && (forall n: nat, a: u64, access :: Accessible(k, a, n, access) == Accessible(m, a, n, access))
  {
    hide FirstFault, Canonical, Lookup;
    PrimeKeepsRip(m.cpu);
    KeyBit(m.cpu);
    var k := Keyed(m);
    forall n: nat, a: u64, access: Access
      ensures Accessible(k, a, n, access) == Accessible(m, a, n, access)
    {
      SameFaults(m, k, a, n, access);
    }
  }

  /** The state a step decodes in, remembered. */
  function Visited(m: Machine, past: set<Cpu>): set<Cpu> {
    if Pending(m.cpu) then past else past + {Keyed(m).cpu}
  }

  /** Wherever these bytes were decoded before at this RIP and in this mode, what the decoder read besides was what it
      would read now. */
  ghost predicate Settled(m: Machine, past: set<Cpu>) {
    forall c :: c in past && SamePlace(c, m.cpu) ==>
      Latent(Window(m.mem, m.cpu.scalar.rip), c) == Latent(Window(m.mem, m.cpu.scalar.rip), m.cpu)
  }

  predicate SamePlace(a: Cpu, b: Cpu) {
    a.scalar.rip == b.scalar.rip && ModeBits(a) == ModeBits(b)
  }

  lemma {:induction false} SettledFor(m: Machine, past: set<Cpu>, c: Cpu)
    requires Settled(m, past) && c in past && c.scalar.rip == m.cpu.scalar.rip && ModeBits(c) == ModeBits(m.cpu)
    ensures Latent(Window(m.mem, m.cpu.scalar.rip), c) == Latent(Window(m.mem, m.cpu.scalar.rip), m.cpu)
  {
    hide Latent, Window, ModeBits;
  }

  /** Priming the key changes nothing a decoder reads. */
  lemma {:induction false} KeyedSettled(m: Machine, past: set<Cpu>)
    ensures Settled(Keyed(m), past) == Settled(m, past)
    ensures forall code :: Latent(code, Keyed(m).cpu) == Latent(code, m.cpu)
  {
    hide PrefixLength, OpcodeAt, Window;
    PrimeKeepsRip(m.cpu);
    forall code ensures Latent(code, Keyed(m).cpu) == Latent(code, m.cpu) {
    }
  }

  lemma {:induction false} UnfoldVisited(m: Machine, past: set<Cpu>)
    ensures past <= Visited(m, past)
    ensures !Pending(m.cpu) ==> Keyed(m).cpu in Visited(m, past)
  {
    hide Pending, Keyed;
  }

  lemma {:induction false} KeyBit(c: Cpu)
    requires ModeKeyCoherent(c)
    ensures ModeBits(c) % 2 == 1
  {
  }

  /** The bytes of an entry depend on code and mode only. */
  lemma {:induction false} EntryBytes(isa: Isa, a: Cpu, b: Cpu, code: seq<byte>)
    requires ModeBits(a) == ModeBits(b)
    ensures DecodeAt(isa, a, code).bytes == DecodeAt(isa, b, code).bytes
  {
    hide *;
    if code == [] {
      NoBytes(isa, a);
      NoBytes(isa, b);
    } else {
      UnfoldDecodeAt(isa, a, code);
      UnfoldDecodeAt(isa, b, code);
      var e := StaticEntry(isa, ModeBits(a), code);
      NoFast(isa, ModeBits(a), code);
      AttachKinds(isa, e, a);
      AttachKinds(isa, e, b);
      StaticFields(Attach(isa, e, a), e);
      StaticFields(Attach(isa, e, b), e);
    }
  }

  lemma {:induction false} NoBytes(isa: Isa, c: Cpu)
    ensures DecodeAt(isa, c, []) == BlankEntry([])
  {
    hide StaticEntry, Attach, ModeBits;
  }

  lemma {:induction false} SoundHit(isa: Isa, mem: Mem, past: set<Cpu>, slots: seq<Slot>, rip: u64, mode: nat)
    requires Sound(isa, mem, past, slots) && mode % 2 == 1 && Find(slots, mem.codeVersion, rip, mode).Some?
    ensures exists c: Cpu, slot: Slot ::
              c in past && DecodedBy(isa, mem, slot, c) && slot.tag == rip && slot.mode == mode
              && slot.entry == Find(slots, mem.codeVersion, rip, mode).value
  {
    hide DecodedBy, Index;
    var slot := slots[Index(rip)];
    assert SlotSound(isa, mem, past, slot);
    var c :| c in past && DecodedBy(isa, mem, slot, c);
  }

  lemma {:induction false} UnfoldDecoded(isa: Isa, mem: Mem, slot: Slot, c: Cpu)
    requires DecodedBy(isa, mem, slot, c)
    ensures slot.entry == DecodeAt(isa, c, Window(mem, slot.tag))
    ensures c.scalar.rip == slot.tag && ModeBits(c) == slot.mode
  {
    hide DecodeAt, Visible, ModeBits, ReadyToDecode, Window;
  }

  lemma {:induction false} DecodedSteps(isa: Isa, k: Machine, past: set<Cpu>, slot: Slot, c: Cpu)
    requires OthersReplay(isa) && DecodedBy(isa, k.mem, slot, c) && ReadyToDecode(k.cpu)
    requires k.cpu.scalar.rip == slot.tag && ModeBits(k.cpu) == slot.mode
    requires c in past && Settled(k, past)
    ensures RunDecoded(isa, k, slot.entry) == RunDecoded(isa, k, DecodeAt(isa, k.cpu, Window(k.mem, slot.tag)))
  {
    hide Dispatch, DecodeAt, ReadyToDecode, Visible, Abort, ModeBits, OthersReplay, Latent, Settled;
    var code := Window(k.mem, slot.tag);
    ModeBitsDecide(c, k.cpu);
    SettledFor(k, past, c);
    ReplayIsFreshDecode(isa, k, c, code);
    EntryBytes(isa, c, k.cpu, code);
  }

  lemma {:induction false} UnfoldSound(isa: Isa, mem: Mem, past: set<Cpu>, slots: seq<Slot>, i: nat)
    requires Sound(isa, mem, past, slots) && i < |slots|
    ensures SlotSound(isa, mem, past, slots[i])
  {
  }

  lemma {:induction false} FillSound(isa: Isa, k: Machine, past: set<Cpu>, slots: seq<Slot>, e: Entry)
    requires Sound(isa, k.mem, past, slots) && ReadyToDecode(k.cpu) && Visible(k.mem, k.cpu.scalar.rip)
    requires e == DecodeAt(isa, k.cpu, Window(k.mem, k.cpu.scalar.rip)) && e.bytes != []
    requires k.cpu.modeKeyBits == ModeBits(k.cpu) && k.cpu in past
    ensures Sound(isa, k.mem, past, Fill(slots, k.mem.codeVersion, k.cpu.scalar.rip, k.cpu.modeKeyBits, e))
  {
    hide Visible, Index, DecodeAt, ModeBits, ReadyToDecode, Window;
    var slot := Slot(k.cpu.scalar.rip, k.mem.codeVersion, k.cpu.modeKeyBits, e);
    assert DecodedBy(isa, k.mem, slot, k.cpu);
    assert SlotSound(isa, k.mem, past, slot);
  }

  /** Without a cache every step fetches and decodes. */
  lemma {:induction false} UncachedStep(isa: Isa, m: Machine, prefetched: seq<byte>)
    requires Resting(m.cpu) && !Pending(m.cpu)
    ensures Step(isa, m, [], prefetched) == Miss(isa, Keyed(m), [], prefetched)
  {
    hide Miss, Pending, PrimeModeKey, ModeKeyCoherent;
    NoSlots(Keyed(m).mem.codeVersion, Keyed(m).cpu.scalar.rip, Keyed(m).cpu.modeKeyBits);
  }

  lemma {:induction false} UnfoldStep(isa: Isa, m: Machine, slots: seq<Slot>, prefetched: seq<byte>)
    ensures Pending(m.cpu) ==> Step(isa, m, slots, prefetched) == Outcome(m, slots, StepException)
    ensures !Pending(m.cpu) ==>
              var k := Keyed(m);
              var hit := Find(slots, k.mem.codeVersion, k.cpu.scalar.rip, k.cpu.modeKeyBits);
              && (hit.Some? ==> Step(isa, m, slots, prefetched)
                                == Outcome(RunDecoded(isa, k, hit.value).0, slots, RunDecoded(isa, k, hit.value).1))
              && (hit.None? ==> Step(isa, m, slots, prefetched) == Miss(isa, k, slots, prefetched))
  {
    hide Miss, Pending, RunDecoded, Find, Keyed;
  }

  /** A miss with the whole window fetchable decodes that window. */
  lemma {:induction false} MissDecodes(isa: Isa, k: Machine, slots: seq<Slot>, prefetched: seq<byte>)
    requires WindowFetchable(k, k.cpu.scalar.rip)
    requires prefetched in {[], Window(k.mem, k.cpu.scalar.rip)}
    ensures var e := DecodeAt(isa, k.cpu, Window(k.mem, k.cpu.scalar.rip));
            Miss(isa, k, slots, prefetched)
            == Outcome(RunDecoded(isa, k, e).0,
                       if e.bytes == [] then slots
                       else Fill(slots, k.mem.codeVersion, k.cpu.scalar.rip, k.cpu.modeKeyBits, e),
                       RunDecoded(isa, k, e).1)
  {
    hide DecodeAt, RunDecoded, Fill, FetchedBytes, Fetched, WindowFetchable, BytesAt;
    FetchableVisible(k, k.cpu.scalar.rip);
  }

  /** Both steps of a resting machine, with or without bytes handed in, come to running a fresh decode. */
  lemma {:induction false} StepIsFresh(isa: Isa, m: Machine, past: set<Cpu>, slots: seq<Slot>, prefetched: seq<byte>)
    requires OthersReplay(isa)
    requires Resting(m.cpu) && !Pending(m.cpu) && Sound(isa, m.mem, past, slots) && Settled(m, past)
    requires WindowFetchable(m, m.cpu.scalar.rip)
    requires prefetched in {[], Window(m.mem, m.cpu.scalar.rip)}
    ensures var k := Keyed(m);
            var e := DecodeAt(isa, k.cpu, Window(m.mem, m.cpu.scalar.rip));
            var out := Step(isa, m, slots, prefetched);
            && (out.machine, out.code) == RunDecoded(isa, k, e)
            && Sound(isa, m.mem, Visited(m, past), out.slots) && |out.slots| == |slots|
  {
    hide *;
    KeyedReady(m);
    KeyedSettled(m, past);
    UnfoldVisited(m, past);
    UnfoldStep(isa, m, slots, prefetched);
    var k := Keyed(m);
    var rip, key := k.cpu.scalar.rip, k.cpu.modeKeyBits;
    UnfoldWindow(k, rip);
    UnfoldWindow(m, rip);
    FetchableVisible(k, rip);
    SoundMore(isa, k.mem, past, Visited(m, past), slots);
    var e := DecodeAt(isa, k.cpu, Window(k.mem, rip));
    MissDecodes(isa, k, slots, prefetched);
    if Find(slots, k.mem.codeVersion, rip, key).Some? {
      SoundHit(isa, k.mem, past, slots, rip, key);
      var c: Cpu, slot: Slot :| c in past && DecodedBy(isa, k.mem, slot, c) && slot.tag == rip && slot.mode == key
                                && slot.entry == Find(slots, k.mem.codeVersion, rip, key).value;
      DecodedSteps(isa, k, past, slot, c);
    } else if e.bytes != [] {
      FillSound(isa, k, Visited(m, past), slots, e);
    }
  }

  lemma {:induction false} UnfoldWindow(m: Machine, address: u64)
    ensures WindowFetchable(m, address) == Accessible(m, address, 15, Exec)
  {
    hide Accessible;
  }

  /** One step with the cache equals one step without, and leaves the slots sound if the step keeps the
      version contract. */
  lemma {:induction false} StepTransparent(isa: Isa, m: Machine, past: set<Cpu>, slots: seq<Slot>)
    requires OthersReplay(isa)
    requires Resting(m.cpu) && Sound(isa, m.mem, past, slots)
    requires !Pending(m.cpu) ==> WindowFetchable(m, m.cpu.scalar.rip) && Settled(m, past)
    ensures var cached, plain := Step(isa, m, slots, []), Step(isa, m, [], []);
            && cached.machine == plain.machine && cached.code == plain.code && |cached.slots| == |slots|
            && (CodeKept(m.mem, plain.machine.mem) ==>
                  Sound(isa, plain.machine.mem, Recalled(m.mem, plain.machine.mem, Visited(m, past)), cached.slots))
  {
    hide *;
    UnfoldStep(isa, m, slots, []);
    UnfoldStep(isa, m, [], []);
    UnfoldVisited(m, past);
    var plain := Step(isa, m, [], []);
    if !Pending(m.cpu) {
      NothingSound(isa, m.mem);
      NothingUnsettled(m);
      StepIsFresh(isa, m, past, slots, []);
      StepIsFresh(isa, m, {}, [], []);
    } else {
      SoundMore(isa, m.mem, past, Visited(m, past), slots);
    }
    if CodeKept(m.mem, plain.machine.mem) {
      SoundKept(isa, m.mem, plain.machine.mem, Visited(m, past), Step(isa, m, slots, []).slots);
    }
  }

  lemma {:induction false} NothingSound(isa: Isa, mem: Mem)
    ensures Sound(isa, mem, {}, [])
  {
  }

  lemma {:induction false} NothingUnsettled(m: Machine)
    ensures Settled(m, {})
  {
  }

  // What steps keep.

  /** The mode key and what it is computed from are as they were. */
  predicate KeyFrame(a: Cpu, b: Cpu) {
    && b.modeKeyBits == a.modeKeyBits && b.modeKeyValid == a.modeKeyValid
    && b.scalar.longModeActive == a.scalar.longModeActive && b.scalar.segments == a.scalar.segments
  }

  lemma {:induction false} FrameKeepsKey(a: Cpu, b: Cpu)
    requires Frame(a, b)
    ensures KeyFrame(a, b)
  {
  }

  lemma {:induction false} ValidateKeepsKey(c: Cpu, inst: Inst, k: nat)
    ensures KeyFrame(c, ValidateOperand(c, inst, k))
    ensures FaultKept(c, ValidateOperand(c, inst, k))
  {
    hide LinearAddress, EffectiveSegment, Canonical, Is64BitCode;
  }

  lemma {:induction false} AluKeepsKey(op: AluOp, m: Machine, code: seq<byte>, payload: Payload)
    ensures KeyFrame(m.cpu, Legacy(op, m, code).cpu) && KeyFrame(m.cpu, Fast(m, payload).cpu)
  {
    hide Decode, Execute, ValidateOperand, LinearAddress, MemoryForm, Frame, Pending, DecodedInst;
    DecodeFrame(op, m.cpu, code);
    var decoded := m.(cpu := Decode(op, m.cpu, code));
    ExecuteFrame(op, decoded, DecodedInst(op, m.cpu, code));
    FrameKeepsKey(decoded.cpu, Execute(op, decoded, DecodedInst(op, m.cpu, code)).cpu);
    var c := Stamped(m.cpu, payload);
    ExecuteFrame(payload.op, m.(cpu := c), payload.inst);
    FrameKeepsKey(c, Execute(payload.op, m.(cpu := c), payload.inst).cpu);
    ValidateKeepsKey(c, payload.inst, payload.length);
    var v := m.(cpu := ValidateOperand(c, payload.inst, payload.length));
    var live := payload.inst.(memAddress := LinearAddress(c, payload.inst, payload.length));
    ExecuteFrame(payload.op, v, live);
    FrameKeepsKey(v.cpu, Execute(payload.op, v, live).cpu);
  }

  lemma {:induction false} CheckedKeepsKey(m: Machine, address: u64, n: nat)
    ensures KeyFrame(m.cpu, Checked(m, address, n, Read).cpu)
    ensures FaultKept(m.cpu, Checked(m, address, n, Read).cpu)
  {
    hide FirstFault, FaultAt;
    CheckedFrame(m, address, n, Read);
  }

  lemma {:induction false} BranchesKeepKey(m: Machine, e: Entry, size: nat)
    ensures KeyFrame(m.cpu, RunRet(m, e).cpu) && KeyFrame(m.cpu, RunJcc(m, e, size).cpu)
    ensures FaultKept(m.cpu, RunRet(m, e).cpu) && FaultKept(m.cpu, RunJcc(m, e, size).cpu)
    ensures RunRet(m, e).mem == m.mem && RunJcc(m, e, size).mem == m.mem
  {
    hide Checked, LoadValue, StackModulus, StackPointer, StackAdd, Canonical, MaskOffset, EvalJcc, Unsupported, Wrap;
    var sized := StampSize(m.cpu, e.retPrefix + (if e.inline == RetImmediate then 3 else 1));
    CheckedKeepsKey(m.(cpu := sized), StackPointer(sized), e.retSize / 8);
    CheckedFrame(m.(cpu := sized), StackPointer(sized), e.retSize / 8, Read);
  }

  /** What handlers left opaque do not do: whoever changes the code segment clears the cached key, and an exception,
      once pending, stays. */
  ghost predicate Civil(isa: Isa) {
    && (forall id: nat, code: seq<byte>, m: Machine :: Decent(m, isa.run(id, code, m)))
    && (forall id: nat, captured: Captured, m: Machine :: Decent(m, isa.fast(id, captured, m)))
  }

  /** The whole contract of the handlers left opaque: besides, what a probe captured in one state serves in others. */
  ghost predicate WellBehaved(isa: Isa) {
    Civil(isa) && OthersReplay(isa)
  }

  predicate Decent(before: Machine, after: Machine) {
    && (ModeKeyCoherent(before.cpu) ==> ModeKeyCoherent(after.cpu))
    && (Pending(before.cpu) ==> after.cpu.exception == before.cpu.exception)
  }

  /** A pending exception is still there, and the same. */
  predicate FaultKept(before: Cpu, after: Cpu) {
    Pending(before) ==> after.exception == before.exception
  }

  lemma {:induction false} UnfoldBehaved(isa: Isa, id: nat, code: seq<byte>, captured: Captured, m: Machine)
    requires Civil(isa)
    ensures ModeKeyCoherent(m.cpu) ==> ModeKeyCoherent(isa.run(id, code, m).cpu)
    ensures FaultKept(m.cpu, isa.run(id, code, m).cpu)
    ensures ModeKeyCoherent(m.cpu) ==> ModeKeyCoherent(isa.fast(id, captured, m).cpu)
    ensures FaultKept(m.cpu, isa.fast(id, captured, m).cpu)
  {
    hide ModeKeyCoherent, Pending;
    assert Decent(m, isa.run(id, code, m));
    assert Decent(m, isa.fast(id, captured, m));
  }

  lemma {:induction false} BehavedReplays(isa: Isa)
    requires WellBehaved(isa)
    ensures OthersReplay(isa) && Civil(isa)
  {
    hide OthersReplay, Decent, Civil;
  }

  lemma {:induction false} KeyFrameCoherent(a: Cpu, b: Cpu)
    requires KeyFrame(a, b) && ModeKeyCoherent(a)
    ensures ModeKeyCoherent(b)
  {
  }

  lemma {:induction false} UnfoldBody(isa: Isa, m: Machine, e: Entry)
    ensures e.inline in {RetPlain, RetImmediate} ==> Body(isa, m, e) == RunRet(m, e)
    ensures e.inline in {JccShort, JccNear} ==> Body(isa, m, e) == RunJcc(m, e, if e.inline == JccShort then 2 else 6)
    ensures e.inline == NotInline ==> Body(isa, m, e) == Advance(RunHandler(isa, m, e), m.cpu.scalar.rip, e.branch)
  {
    hide RunRet, RunJcc, Advance, RunHandler;
  }

  lemma {:induction false} HandlerCoherent(isa: Isa, m: Machine, e: Entry)
    requires Civil(isa) && ModeKeyCoherent(m.cpu)
    ensures ModeKeyCoherent(RunHandler(isa, m, e).cpu)
  {
    hide Fast, Legacy, ModeKeyCoherent, Civil, KeyFrame;
    match e.fast
    case Some(OtherPrepared(id, captured)) => UnfoldBehaved(isa, id, e.bytes, captured, m);
    case Some(AluPrepared(payload)) =>
      AluKeepsKey(payload.op, m, e.bytes, payload);
      KeyFrameCoherent(m.cpu, Fast(m, payload).cpu);
    case None =>
      match e.handler
      case Alu(op) =>
        AluKeepsKey(op, m, e.bytes, Payload(op, EmptyInst(0, 0), NO_PREFIXES, 0));
        KeyFrameCoherent(m.cpu, Legacy(op, m, e.bytes).cpu);
      case Opaque(id) => UnfoldBehaved(isa, id, e.bytes, Captured([], 0), m);
      case NoHandler =>
  }

  lemma {:induction false} BodyCoherent(isa: Isa, m: Machine, e: Entry)
    requires Civil(isa) && ModeKeyCoherent(m.cpu)
    ensures ModeKeyCoherent(Body(isa, m, e).cpu)
  {
    hide Body, RunRet, RunJcc, RunHandler, KeyFrame, Civil, Pending;
    UnfoldBody(isa, m, e);
    if e.inline == NotInline {
      HandlerCoherent(isa, m, e);
    } else {
      BranchesKeepKey(m, e, if e.inline == JccShort then 2 else 6);
      KeyFrameCoherent(m.cpu, Body(isa, m, e).cpu);
    }
  }

  lemma {:induction false} ConcludeResting(saved: Cpu, ran: Machine, e: Entry, guarded: bool, code: StepCode)
    requires ModeKeyCoherent(saved) && ModeKeyCoherent(ran.cpu)
    ensures Resting(Conclude(saved, ran, e, guarded, code).0.cpu)
  {
  }

  /** A step ends with a coherent mode key, whether it rolled back or not. */
  lemma {:induction false} DispatchResting(isa: Isa, m: Machine, e: Entry)
    requires Civil(isa) && ModeKeyCoherent(m.cpu)
    ensures Resting(Dispatch(isa, m, e).0.cpu)
  {
    hide Body, Conclude, Civil, Resting;
    var s := m.(cpu := WithOverride(m.cpu, e.segmentOverride));
    KeyFrameCoherent(m.cpu, s.cpu);
    BodyCoherent(isa, s, e);
    ConcludeResting(s.cpu, Body(isa, s, e), e, !e.noFault, StepOk);
    ConcludeResting(s.cpu, s.(cpu := Raise(s.cpu, UD, 0)), e, false, StepUd);
    ConcludeResting(s.cpu, s.(cpu := Raise(s.cpu, BP, 0)), e, false, StepException);
    ConcludeResting(s.cpu, s.(cpu := Raise(s.cpu, DB, 0)), e, false, StepException);
  }

  lemma {:induction false} RunResting(isa: Isa, m: Machine, e: Entry)
    requires Civil(isa) && ModeKeyCoherent(m.cpu)
    ensures Resting(RunDecoded(isa, m, e).0.cpu)
  {
    hide Dispatch, Civil;
    DispatchResting(isa, m, e);
  }

  /** Every step leaves the machine resting. */
  lemma {:induction false} StepResting(isa: Isa, m: Machine, slots: seq<Slot>)
    requires Civil(isa) && Resting(m.cpu)
    ensures Resting(Step(isa, m, slots, []).machine.cpu)
  {
    hide RunDecoded, DecodeAt, Civil, Find, Fill, Pending, FetchedBytes;
    PrimeKeepsRip(m.cpu);
    var k := Keyed(m);
    FetchResting(k);
    var fetched := Fetched(k, k.cpu.scalar.rip);
    RunResting(isa, fetched, DecodeAt(isa, fetched.cpu, FetchedBytes(k, k.cpu.scalar.rip)));
    match Find(slots, k.mem.codeVersion, k.cpu.scalar.rip, k.cpu.modeKeyBits)
    case Some(e) => RunResting(isa, k, e);
    case None =>
  }

  lemma {:induction false} FetchResting(m: Machine)
    requires ModeKeyCoherent(m.cpu)
    ensures ModeKeyCoherent(Fetched(m, m.cpu.scalar.rip).cpu)
  {
    hide FirstFault, FaultAt, ModeKeyCoherent, Frame;
    CheckedFrame(m, m.cpu.scalar.rip, 15, Exec);
    FrameKeepsKey(m.cpu, Fetched(m, m.cpu.scalar.rip).cpu);
    KeyFrameCoherent(m.cpu, Fetched(m, m.cpu.scalar.rip).cpu);
  }

  // Whole runs.

  /** Between instructions the host may do anything to the machine: map, protect, patch or rewrite code,
      switch the code segment, clear an exception, change registers. */
  datatype Event = Instruction | Outside(effect: Machine -> Machine)

  datatype Trace = Trace(machine: Machine, slots: seq<Slot>, codes: seq<StepCode>)

  /** A run from a machine and a cache; no slots is a run without a cache. */
  function RunEvents(isa: Isa, m: Machine, slots: seq<Slot>, events: seq<Event>): Trace
    decreases |events|
  {
    if events == [] then Trace(m, slots, [])
    else
      match events[0]
      case Instruction =>
        var out := Step(isa, m, slots, []);
        var rest := RunEvents(isa, out.machine, out.slots, events[1..]);
        rest.(codes := [out.code] + rest.codes)
      case Outside(effect) => RunEvents(isa, effect(m), slots, events[1..])
  }

  /** The runs the code version is made for, judged without any cache: every instruction finds its fetch window
      fetchable, and what its decoder reads besides the mode as it was when the same bytes were decoded there before
      under this version; and neither instructions nor the host change code without a new version. */
  ghost predicate Disciplined(isa: Isa, m: Machine, past: set<Cpu>, events: seq<Event>)
    decreases |events|
  {
    events != [] ==>
      match events[0]
      case Instruction =>
        var after := Step(isa, m, [], []).machine;
        && (!Pending(m.cpu) ==> WindowFetchable(m, m.cpu.scalar.rip) && Settled(m, past))
        && CodeKept(m.mem, after.mem)
        && Disciplined(isa, after, Recalled(m.mem, after.mem, Visited(m, past)), events[1..])
      case Outside(effect) =>
        CodeKept(m.mem, effect(m).mem) && Resting(effect(m).cpu)
        && Disciplined(isa, effect(m), Recalled(m.mem, effect(m).mem, past), events[1..])
  }

  lemma {:induction false} UnfoldRun(isa: Isa, m: Machine, past: set<Cpu>, slots: seq<Slot>, events: seq<Event>)
    requires events != []
    ensures events[0].Instruction? ==>
              var out := Step(isa, m, slots, []);
              var rest := RunEvents(isa, out.machine, out.slots, events[1..]);
              RunEvents(isa, m, slots, events) == Trace(rest.machine, rest.slots, [out.code] + rest.codes)
    ensures events[0].Outside? ==>
            RunEvents(isa, m, slots, events) == RunEvents(isa, events[0].effect(m), slots, events[1..])
    ensures Disciplined(isa, m, past, events) && events[0].Instruction? ==>
              var after := Step(isa, m, [], []).machine;
              (!Pending(m.cpu) ==> WindowFetchable(m, m.cpu.scalar.rip) && Settled(m, past))
              && CodeKept(m.mem, after.mem)
              && Disciplined(isa, after, Recalled(m.mem, after.mem, Visited(m, past)), events[1..])
    ensures Disciplined(isa, m, past, events) && events[0].Outside? ==>
              var after := events[0].effect(m);
              CodeKept(m.mem, after.mem) && Resting(after.cpu)
              && Disciplined(isa, after, Recalled(m.mem, after.mem, past), events[1..])
  {
    hide Step, CodeKept, Resting, Pending, WindowFetchable, Settled, Recalled, Visited;
  }

  lemma {:induction false} UncachedSlots(isa: Isa, m: Machine)
    ensures Step(isa, m, [], []).slots == []
  {
    hide RunDecoded, DecodeAt, Find, PrimeModeKey, Pending, Index, CodeFor, AfterFetch;
    NoSlots(Keyed(m).mem.codeVersion, Keyed(m).cpu.scalar.rip, Keyed(m).cpu.modeKeyBits);
  }

  /** What is remembered at the end of a run. */
  ghost function Passed(isa: Isa, m: Machine, past: set<Cpu>, events: seq<Event>): set<Cpu>
    decreases |events|
  {
    if events == [] then past
    else
      match events[0]
      case Instruction =>
        var after := Step(isa, m, [], []).machine;
        Passed(isa, after, Recalled(m.mem, after.mem, Visited(m, past)), events[1..])
      case Outside(effect) => Passed(isa, effect(m), Recalled(m.mem, effect(m).mem, past), events[1..])
  }

  lemma {:induction false} UnfoldPassed(isa: Isa, m: Machine, past: set<Cpu>, events: seq<Event>)
    ensures events == [] ==> Passed(isa, m, past, events) == past
    ensures events != [] && events[0].Instruction? ==>
              var after := Step(isa, m, [], []).machine;
              Passed(isa, m, past, events)
              == Passed(isa, after, Recalled(m.mem, after.mem, Visited(m, past)), events[1..])
    ensures events != [] && events[0].Outside? ==>
              var after := events[0].effect(m);
              Passed(isa, m, past, events) == Passed(isa, after, Recalled(m.mem, after.mem, past), events[1..])
  {
    hide Step, Recalled, Visited;
  }

  /** Cache transparency: a disciplined run goes through the same machine states and returns the same codes
      with any sound cache as with none, however RIPs share slots; and the cache stays sound. */
  lemma {:induction false} RunTransparent(isa: Isa, m: Machine, past: set<Cpu>, slots: seq<Slot>, events: seq<Event>)
    requires WellBehaved(isa) && Resting(m.cpu)
    requires Sound(isa, m.mem, past, slots) && Disciplined(isa, m, past, events)
    ensures var cached, plain := RunEvents(isa, m, slots, events), RunEvents(isa, m, [], events);
            && cached.machine == plain.machine && cached.codes == plain.codes
            && Sound(isa, plain.machine.mem, Passed(isa, m, past, events), cached.slots) && Resting(plain.machine.cpu)
    decreases |events|
  {
    hide *;
    UnfoldEmptyRun(isa, m, slots);
    UnfoldEmptyRun(isa, m, []);
    UnfoldPassed(isa, m, past, events);
    if events != [] {
      UnfoldRun(isa, m, past, slots, events);
      UnfoldRun(isa, m, past, [], events);
      match events[0]
      case Instruction =>
        BehavedReplays(isa);
        StepTransparent(isa, m, past, slots);
        StepResting(isa, m, []);
        UncachedSlots(isa, m);
        var after := Step(isa, m, [], []).machine;
        var passed := Recalled(m.mem, after.mem, Visited(m, past));
        RunTransparent(isa, after, passed, Step(isa, m, slots, []).slots, events[1..]);
      case Outside(effect) =>
        SoundKept(isa, m.mem, effect(m).mem, past, slots);
        RunTransparent(isa, effect(m), Recalled(m.mem, effect(m).mem, past), slots, events[1..]);
    }
  }

  lemma {:induction false} UnfoldEmptyRun(isa: Isa, m: Machine, slots: seq<Slot>)
    ensures RunEvents(isa, m, slots, []) == Trace(m, slots, [])
  {
  }

  // How far transparency goes.

  lemma {:induction false} HandlerPending(isa: Isa, m: Machine, e: Entry)
    requires Civil(isa) && Pending(m.cpu)
    ensures FaultKept(m.cpu, RunHandler(isa, m, e).cpu)
  {
    hide Decode, Execute, ValidateOperand, LinearAddress, MemoryForm, Civil, DecodedInst, PendingFrame;
    match e.fast
    case Some(OtherPrepared(id, captured)) => UnfoldBehaved(isa, id, e.bytes, captured, m);
    case Some(AluPrepared(payload)) =>
      var c := Stamped(m.cpu, payload);
      StampedPending(m.cpu, payload);
      ValidateKeepsKey(c, payload.inst, payload.length);
      ExecutePending(payload.op, m.(cpu := c), payload.inst);
      PendingFramed(m.(cpu := c), Execute(payload.op, m.(cpu := c), payload.inst));
      var v := m.(cpu := ValidateOperand(c, payload.inst, payload.length));
      var live := payload.inst.(memAddress := LinearAddress(c, payload.inst, payload.length));
      ExecutePending(payload.op, v, live);
      PendingFramed(v, Execute(payload.op, v, live));
    case None =>
      match e.handler
      case Alu(op) => DecodePending(op, m.cpu, e.bytes);
      case Opaque(id) => UnfoldBehaved(isa, id, e.bytes, Captured([], 0), m);
      case NoHandler =>
  }

  lemma {:induction false} StampedPending(c: Cpu, payload: Payload)
    ensures Pending(Stamped(c, payload)) == Pending(c) && Stamped(c, payload).exception == c.exception
  {
  }

  lemma {:induction false} PendingFramed(before: Machine, after: Machine)
    requires PendingFrame(before, after)
    ensures Pending(after.cpu) == Pending(before.cpu) && after.cpu.exception == before.cpu.exception
  {
  }

  lemma {:induction false} DecodePending(op: AluOp, c: Cpu, code: seq<byte>)
    ensures FaultKept(c, Decode(op, c, code))
  {
    hide Parse, LinearAddress, EffectiveSegment, Canonical, Is64BitCode, MemoryForm, RipRelative;
  }

  /** An exception pending before a body runs is the one pending after it. */
  lemma {:induction false} BodyPending(isa: Isa, m: Machine, e: Entry)
    requires Civil(isa) && Pending(m.cpu)
    ensures FaultKept(m.cpu, Body(isa, m, e).cpu)
  {
    hide Body, RunRet, RunJcc, RunHandler, KeyFrame, Civil, Pending;
    UnfoldBody(isa, m, e);
    if e.inline == NotInline {
      HandlerPending(isa, m, e);
    } else {
      BranchesKeepKey(m, e, if e.inline == JccShort then 2 else 6);
    }
  }

  lemma {:induction false} PendingRun(isa: Isa, m: Machine, e: Entry)
    requires Civil(isa) && Pending(m.cpu)
    ensures RunDecoded(isa, m, e).1 == StepException
    ensures RunDecoded(isa, m, e).0.cpu.exception == m.cpu.exception
  {
    hide Body, Civil, RestoreScalar, RestoreTransient;
    BodyPending(isa, m.(cpu := WithOverride(m.cpu, e.segmentOverride)), e);
  }

  /** A hit skips the fetch, and with it the privilege check. A hit that runs its instruction to the end does
      what an engine without a cache does exactly when the whole window is fetchable now. */
  lemma {:induction false} HitTransparentIff(isa: Isa, m: Machine, past: set<Cpu>, slots: seq<Slot>)
    requires WellBehaved(isa) && Resting(m.cpu) && !Pending(m.cpu)
    requires Sound(isa, m.mem, past, slots) && Settled(m, past)
    requires Find(slots, m.mem.codeVersion, m.cpu.scalar.rip, ModeBits(m.cpu)).Some?
    requires Step(isa, m, slots, []).code == StepOk
    ensures (Step(isa, m, slots, []).machine == Step(isa, m, [], []).machine
             && Step(isa, m, slots, []).code == Step(isa, m, [], []).code)
            <==> WindowFetchable(m, m.cpu.scalar.rip)
  {
    hide *;
    BehavedReplays(isa);
    if WindowFetchable(m, m.cpu.scalar.rip) {
      StepTransparent(isa, m, past, slots);
    } else {
      UnfetchableStep(isa, m);
    }
  }

  /** Whether or not the instruction of a hit completes, the exceptions agree exactly when the window is fetchable,
      or what the instruction raised is by chance what the fetch would have raised. */
  lemma {:induction false} HitFaultsAgreeIff(isa: Isa, m: Machine, past: set<Cpu>, slots: seq<Slot>)
    requires WellBehaved(isa) && Resting(m.cpu) && !Pending(m.cpu)
    requires Sound(isa, m.mem, past, slots) && Settled(m, past)
    requires Find(slots, m.mem.codeVersion, m.cpu.scalar.rip, ModeBits(m.cpu)).Some?
    ensures var raised := Step(isa, m, slots, []).machine.cpu.exception;
            raised == Step(isa, m, [], []).machine.cpu.exception
            <==> WindowFetchable(m, m.cpu.scalar.rip) || raised == Fetched(Keyed(m), m.cpu.scalar.rip).cpu.exception
  {
    hide *;
    BehavedReplays(isa);
    if WindowFetchable(m, m.cpu.scalar.rip) {
      StepTransparent(isa, m, past, slots);
    } else {
      KeyedReady(m);
      UncachedStep(isa, m, []);
      UnfoldWindow(Keyed(m), m.cpu.scalar.rip);
      UnfoldWindow(m, m.cpu.scalar.rip);
      UnfetchableMiss(isa, Keyed(m));
    }
  }

  lemma {:induction false} UnfetchableStep(isa: Isa, m: Machine)
    requires Civil(isa) && Resting(m.cpu) && !Pending(m.cpu) && !WindowFetchable(m, m.cpu.scalar.rip)
    ensures Step(isa, m, [], []).code == StepException
  {
    hide *;
    KeyedReady(m);
    UncachedStep(isa, m, []);
    var k := Keyed(m);
    UnfoldWindow(k, k.cpu.scalar.rip);
    UnfoldWindow(m, m.cpu.scalar.rip);
    UnfetchableMiss(isa, k);
  }

  lemma {:induction false} UnfetchableMiss(isa: Isa, k: Machine)
    requires Civil(isa) && !Pending(k.cpu) && !Accessible(k, k.cpu.scalar.rip, 15, Exec)
    ensures Miss(isa, k, [], []).code == StepException
    ensures Miss(isa, k, [], []).machine.cpu.exception == Fetched(k, k.cpu.scalar.rip).cpu.exception
  {
    hide DecodeAt, FetchedBytes, RunDecoded, Civil, Fill, Checked, Accessible, Pending;
    CheckedPends(k, k.cpu.scalar.rip, 15, Exec);
    var fetched := Fetched(k, k.cpu.scalar.rip);
    PendingRun(isa, fetched, DecodeAt(isa, fetched.cpu, FetchedBytes(k, k.cpu.scalar.rip)));
  }

  // Self-modifying code.

  /** The encodings that bypass the prefix scan begin with 62, C4 or C5. */
  ghost predicate PlainBreakpoints(isa: Isa) {
    forall code: seq<byte> :: |code| == 15 && (code[0] == 0xF1 || code[0] == 0xCC) ==> isa.special(code) == None
  }

  lemma {:induction false} BreakpointEntry(isa: Isa, c: Cpu, code: seq<byte>)
    requires PlainBreakpoints(isa) && |code| == 15 && (code[0] == 0xF1 || code[0] == 0xCC)
    ensures var e := DecodeAt(isa, c, code);
            e.bytes == code && !e.ud && e.bp == (code[0] == 0xCC) && e.db == (code[0] == 0xF1)
  {
    hide ClassifyNoFault, PeekSegment, BranchOpcode, EscapeCandidate, AluRoute, RetOperandSize, LittleEndian, Ladder,
      ModeBits, ProbeSucceeds;
    assert isa.special(code) == None;
    assert PrefixLength(ModeBits(c), code, 0) == 0;
  }

  lemma {:induction false} BreakpointRun(isa: Isa, k: Machine, e: Entry)
    requires !Pending(k.cpu) && e.bytes != [] && !e.ud && (e.bp || e.db)
    ensures RunDecoded(isa, k, e).0.cpu.exception.code == if e.bp then BP else DB
  {
    hide Body;
  }

  lemma {:induction false} WindowHead(mem: Mem, address: u64)
    ensures |Window(mem, address)| == 15 && Window(mem, address)[0] == ByteAt(mem, address)
  {
    hide ByteAt;
    assert Wrap(address + 0) == address;
  }

  lemma {:induction false} StoreOfByte(m: Machine, address: u64, value: byte)
    requires Unaliased(m.mem) && Accessible(m, address, 1, Write)
    ensures var after := Store(m, address, 1, value);
            && ByteAt(after.mem, address) == value && after.cpu == m.cpu && after.mem.codeVersion == m.mem.codeVersion
            && (forall a: u64, n: nat, access :: Accessible(after, a, n, access) == Accessible(m, a, n, access))
  {
    hide Store, Accessible, ByteAt, Wrap, Unaliased, Mapped;
    AccessibleMapped(m, address, 1, Write, 0);
    FirstByte(address, value);
    StoreChangesExactly(m, address, 1, value, address);
    StoreKeepsFaults(m, address, 1, value, address, Write);
    forall a: u64, n: nat, access: Access
      ensures Accessible(Store(m, address, 1, value), a, n, access) == Accessible(m, a, n, access)
    {
      StoreKeepsAccess(m, address, 1, value, a, n, access);
    }
  }

  lemma {:induction false} FirstByte(address: u64, value: byte)
    ensures Wrap(address + 0) == address && IsByte(address, 0, address)
    ensures Bytes(value, 1) == [value]
  {
    OneByteValue(value);
  }

  /** A guest store into code keeps the code version, and the cache then runs what is no longer there: INT1
      overwritten with INT3 still raises #DB, where an engine without a cache raises #BP. */
  lemma {:induction false} SelfModifyingCodeGoesStale(isa: Isa, m: Machine, past: set<Cpu>, slots: seq<Slot>)
    requires PlainBreakpoints(isa) && Resting(m.cpu) && !Pending(m.cpu) && Sound(isa, m.mem, past, slots)
    requires WindowFetchable(m, m.cpu.scalar.rip) && ByteAt(m.mem, m.cpu.scalar.rip) == 0xF1
    requires Find(slots, m.mem.codeVersion, m.cpu.scalar.rip, ModeBits(m.cpu)).Some?
    requires Unaliased(m.mem) && Accessible(m, m.cpu.scalar.rip, 1, Write)
    ensures var after := Store(m, m.cpu.scalar.rip, 1, 0xCC);
            && after.mem.codeVersion == m.mem.codeVersion
            && Step(isa, after, slots, []).machine.cpu.exception.code == DB
            && Step(isa, after, [], []).machine.cpu.exception.code == BP
  {
    hide *;
    var rip := m.cpu.scalar.rip;
    var after := Store(m, rip, 1, 0xCC);
    StoreOfByte(m, rip, 0xCC);
    UnfoldWindow(m, rip);
    UnfoldWindow(after, rip);
    KeyedReady(m);
    KeyedReady(after);
    var k := Keyed(after);
    SoundHit(isa, m.mem, past, slots, rip, ModeBits(m.cpu));
    var c: Cpu, slot: Slot :| c in past && DecodedBy(isa, m.mem, slot, c) && slot.tag == rip
                              && slot.mode == ModeBits(m.cpu)
                              && slot.entry == Find(slots, m.mem.codeVersion, rip, ModeBits(m.cpu)).value;
    UnfoldDecoded(isa, m.mem, slot, c);
    WindowHead(m.mem, rip);
    WindowHead(after.mem, rip);
    BreakpointEntry(isa, c, Window(m.mem, rip));
    BreakpointEntry(isa, k.cpu, Window(after.mem, rip));
    UnfoldStep(isa, after, slots, []);
    BreakpointRun(isa, k, slot.entry);
    UncachedStep(isa, after, []);
    UnfoldWindow(k, rip);
    MissDecodes(isa, k, [], []);
    BreakpointRun(isa, k, DecodeAt(isa, k.cpu, Window(after.mem, rip)));
  }
}
