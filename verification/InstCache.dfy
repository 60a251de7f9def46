/** The direct-mapped cache of decoded instructions, and one step of the machine with or without it. */
module InstCache {
  import opened Bits
  import opened MemoryManagement
  import opened CpuState
  import opened Fetch
  import opened Decoder
  import opened Executor

  const SLOTS: nat := 0x8000

  /** A decoded instruction, valid for one RIP, one code version and one mode. */
  datatype Slot = Slot(tag: u64, version: u64, mode: nat, entry: Entry)

  const EMPTY_SLOT := Slot(0, 0, 0, BlankEntry([]))

  /** The mixer that spreads RIPs over the slots. */
  function Index(rip: u64): (i: nat)
    ensures i < 0x8000
  {
    Xor(Xor(rip, Shr(rip, 13)), Shr(rip, 27)) % 0x8000
  }

  predicate Hits(slot: Slot, version: u64, rip: u64, mode: nat) {
    slot.tag == rip && slot.version == version && slot.mode == mode
  }

  /** The entry a lookup finds; no slots at all stand for an engine without a cache. */
  function Find(slots: seq<Slot>, version: u64, rip: u64, mode: nat): Option<Entry> {
    if Index(rip) < |slots| && Hits(slots[Index(rip)], version, rip, mode) then Some(slots[Index(rip)].entry) else None
  }

  function Fill(slots: seq<Slot>, version: u64, rip: u64, mode: nat, e: Entry): (after: seq<Slot>)
    ensures |after| == |slots|
  {
    if Index(rip) < |slots| then slots[Index(rip) := Slot(rip, version, mode, e)] else slots
  }

  class InstCache {
    const slots: array<Slot>

    ghost predicate Valid()
      reads slots
    {
      slots.Length == 0x8000 && forall i :: 0 <= i < slots.Length ==> WellSized(slots[i].entry)
    }

    constructor ()
      ensures Valid() && fresh(slots) && slots[..] == seq(0x8000, _ => EMPTY_SLOT)
    {
      slots := new Slot[0x8000](_ => EMPTY_SLOT);
    }

    method Lookup(mgr: MemoryManager, rip: u64, mode: nat) returns (hit: Option<Entry>)
      requires Valid()
      ensures hit == Find(slots[..], mgr.codeVersion, rip, mode)
    {
      hide Index;
      var slot := slots[Index(rip)];
      if slot.tag != rip || slot.version != mgr.codeVersion || slot.mode != mode {
        return None;
      }
      return Some(slot.entry);
    }

    method Commit(mgr: MemoryManager, rip: u64, mode: nat, e: Entry)
      requires Valid() && WellSized(e)
      modifies slots
      ensures Valid() && slots[..] == Fill(old(slots[..]), mgr.codeVersion, rip, mode, e)
    {
      hide Index, WellSized;
      slots[Index(rip)] := Slot(rip, mgr.codeVersion, mode, e);
    }

    method Flush()
      requires Valid()
      modifies slots
      ensures Valid() && slots[..] == seq(0x8000, _ => EMPTY_SLOT)
    {
      forall i | 0 <= i < slots.Length {
        slots[i] := EMPTY_SLOT;
      }
    }
  }

  function SlotsOf(cache: InstCache?): seq<Slot>
    reads if cache == null then {} else {cache.slots}
  {
    if cache == null then [] else cache.slots[..]
  }

  // One step.

  datatype Outcome = Outcome(machine: Machine, slots: seq<Slot>, code: StepCode)

  /** Nothing to run: the exception of the fetch, or a fetch error. */
  function Abort(m: Machine): (Machine, StepCode) {
    (m.(cpu := WithOverride(m.cpu, NoOverride)), if Pending(m.cpu) then StepException else StepFetchError)
  }

  function RunDecoded(isa: Isa, m: Machine, e: Entry): (Machine, StepCode) {
    if e.bytes == [] then Abort(m) else Dispatch(isa, m, e)
  }

  function Take15(bytes: seq<byte>): (taken: seq<byte>)
    ensures taken <= bytes && |taken| == if |bytes| < 15 then |bytes| else 15
  {
    if |bytes| > 15 then bytes[..15] else bytes
  }

  /** The bytes a miss decodes: those handed in, or else those fetched now. */
  function CodeFor(m: Machine, prefetched: seq<byte>): seq<byte> {
    if prefetched != [] then Take15(prefetched) else FetchedBytes(m, m.cpu.scalar.rip)
  }

  function AfterFetch(m: Machine, prefetched: seq<byte>): Machine {
    if prefetched != [] then m else Fetched(m, m.cpu.scalar.rip)
  }

  function Miss(isa: Isa, m: Machine, slots: seq<Slot>, prefetched: seq<byte>): Outcome {
    var code := CodeFor(m, prefetched);
    var fetched := AfterFetch(m, prefetched);
    var e := DecodeAt(isa, fetched.cpu, code);
    var (after, result) := RunDecoded(isa, fetched, e);
    Outcome(after, if e.bytes == [] then slots
            else Fill(slots, m.mem.codeVersion, m.cpu.scalar.rip, m.cpu.modeKeyBits, e),
            result)
  }

  function Keyed(m: Machine): Machine {
    m.(cpu := PrimeModeKey(m.cpu))
  }

  function Step(isa: Isa, m: Machine, slots: seq<Slot>, prefetched: seq<byte>): Outcome {
    if Pending(m.cpu) then Outcome(m, slots, StepException)
    else
      var k := Keyed(m);
      match Find(slots, k.mem.codeVersion, k.cpu.scalar.rip, k.cpu.modeKeyBits)
      case Some(e) =>
        var (after, result) := RunDecoded(isa, k, e);
        Outcome(after, slots, result)
      case None => Miss(isa, k, slots, prefetched)
  }

  lemma {:induction false} ClassifySized(isa: Isa, mode: nat, code: seq<byte>, n: nat, opc: nat)
    requires n < |code|
    ensures WellSized(Classify(isa, mode, code, n, opc))
  {
    hide ClassifyNoFault, PeekSegment, BranchOpcode, EscapeCandidate, EscapeOwnedUd, AluRoute, LittleEndian, Ladder,
      SignedByte, SignedDword, LongCodeBit, Branches, RexAllowed;
  }

  /** Decoding gives RET forms one of the three operand sizes. */
  lemma {:induction false} DecodeSized(isa: Isa, c: Cpu, code: seq<byte>)
    ensures WellSized(DecodeAt(isa, c, code))
  {
    hide Classify, PrefixLength, OpcodeAt, ModeBits, ProbeSucceeds, ProbePayload, ProbeLength;
    var mode, n := ModeBits(c), PrefixLength(ModeBits(c), code, 0);
    if n < |code| {
      ClassifySized(isa, mode, code, n, OpcodeAt(code, n));
    }
  }

  method AbortStep(ctx: CpuContext) returns (result: StepCode)
    modifies ctx`scalar
    ensures (ctx.Whole(), result) == Abort(old(ctx.Whole()))
  {
    result := if Pending(ctx.State()) then StepException else StepFetchError;
    StampOverride(ctx, NoOverride);
  }

  method RunEntry(ctx: CpuContext, isa: Isa, e: Entry) returns (result: StepCode)
    requires WellSized(e)
    modifies ctx, ctx.memMgr
    ensures (ctx.Whole(), result) == RunDecoded(isa, old(ctx.Whole()), e)
  {
    hide Abort, Dispatch, WellSized;
    if e.bytes == [] {
      result := AbortStep(ctx);
    } else {
      result := DispatchDecoded(ctx, isa, e);
    }
  }

  method FetchForStep(ctx: CpuContext, prefetched: seq<byte>) returns (code: seq<byte>)
    modifies ctx`scalar, ctx`exception
    ensures code == CodeFor(old(ctx.Whole()), prefetched)
    ensures ctx.Whole() == AfterFetch(old(ctx.Whole()), prefetched)
  {
    hide FetchedBytes, Fetched;
    if prefetched != [] {
      code := Take15(prefetched);
    } else {
      code := FetchInstructionBytes(ctx, ctx.scalar.rip);
    }
  }

  /** cpu_step_with_prefetch. */
  method StepWithPrefetch(ctx: CpuContext, cache: InstCache?, isa: Isa,
      prefetched: seq<byte>) returns (result: StepCode)
    requires cache != null ==> cache.Valid()
    modifies ctx, ctx.memMgr, if cache == null then {} else {cache.slots}
    ensures cache != null ==> cache.Valid()
    ensures Outcome(ctx.Whole(), SlotsOf(cache), result) == Step(isa, old(ctx.Whole()), old(SlotsOf(cache)), prefetched)
  {
    hide Pending, RunDecoded, CodeFor, AfterFetch, DecodeAt, Find, Fill, PrimeModeKey, WellSized;
    if Pending(ctx.State()) {
      return StepException;
    }
    var rip := ctx.scalar.rip;
    var key := ctx.ReadModeKey();
    NoSlots(ctx.memMgr.codeVersion, rip, key);
    ghost var k := ctx.Whole();
    PrimeKeepsRip(old(ctx.State()));
    if cache != null {
      var hit := cache.Lookup(ctx.memMgr, rip, key);
      if hit.Some? {
        FoundSized(cache, ctx.memMgr.codeVersion, rip, key);
        result := RunEntry(ctx, isa, hit.value);
        return;
      }
    }
    var code := FetchForStep(ctx, prefetched);
    FetchKeeps(k, prefetched);
    var e := DecodeInstruction(ctx, isa, code);
    DecodeSized(isa, ctx.State(), code);
    if cache != null && e.bytes != [] {
      cache.Commit(ctx.memMgr, rip, key, e);
    }
    result := RunEntry(ctx, isa, e);
  }

  lemma {:induction false} FoundSized(cache: InstCache, version: u64, rip: u64, mode: nat)
    requires cache.Valid() && Find(cache.slots[..], version, rip, mode).Some?
    ensures WellSized(Find(cache.slots[..], version, rip, mode).value)
  {
    hide Index;
  }

  lemma {:induction false} NoSlots(version: u64, rip: u64, mode: nat)
    ensures Find([], version, rip, mode) == None
    ensures forall e :: Fill([], version, rip, mode, e) == []
  {
    hide Index;
  }

  lemma {:induction false} PrimeKeepsRip(c: Cpu)
    ensures PrimeModeKey(c).scalar == c.scalar && PrimeModeKey(c).exception == c.exception
    ensures PrimeModeKey(c).vector == c.vector
    ensures Pending(PrimeModeKey(c)) == Pending(c) && ModeBits(PrimeModeKey(c)) == ModeBits(c)
    ensures ModeKeyCoherent(c) ==> ModeKeyCoherent(PrimeModeKey(c)) && PrimeModeKey(c).modeKeyBits == ModeBits(c)
  {
  }

  /** Fetching leaves memory and the mode key alone, and RIP too. */
  lemma {:induction false} FetchKeeps(m: Machine, prefetched: seq<byte>)
    ensures var after := AfterFetch(m, prefetched);
            after.mem == m.mem && after.cpu.scalar.rip == m.cpu.scalar.rip
  {
  }
}
