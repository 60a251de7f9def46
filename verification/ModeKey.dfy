/** The cached mode key over every history of the writers that may change what it is computed from. */
module ModeKey {
  import opened Bits
  import opened MemoryManagement
  import opened CpuState
  import opened InstCache
  import opened Escapes
  import opened Calls

  /** What can happen to the key: a step reads it, a public context is imported, a snapshot taken at an earlier
      state is restored, a far CALL loads CS. */
  datatype KeyEvent =
    | ReadKey
    | Import(context: Cpu)
    | Restore(snapshot: nat)
    | FarCall(mem: Mem, selector: nat, offset: u64, operandSize: nat, returnRip: u64, indirect: bool)

  function Happen(history: seq<Cpu>, event: KeyEvent): Cpu
    requires history != []
  {
    var c := history[|history| - 1];
    match event
    case ReadKey => PrimeModeKey(c)
    case Import(context) => ContextIn(c, context)
    case Restore(i) => if i < |history| then RestoreScalar(c, history[i].scalar) else c
    case FarCall(mem, selector, offset, operandSize, returnRip, indirect) =>
      EnterFar(Machine(c, mem), selector, offset, operandSize, returnRip, indirect).cpu
  }

  function Unroll(history: seq<Cpu>, events: seq<KeyEvent>): (states: seq<Cpu>)
    requires history != []
    ensures |states| == |history| + |events|
    decreases |events|
  {
    if events == [] then history else Unroll(history + [Happen(history, events[0])], events[1..])
  }

  lemma {:induction false} HappenCoherent(history: seq<Cpu>, event: KeyEvent)
    requires history != [] && forall i :: 0 <= i < |history| ==> ModeKeyCoherent(history[i])
    ensures ModeKeyCoherent(Happen(history, event))
  {
    hide EnterFar, ContextIn, PrimeModeKey, ModeKeyCoherent, RestoreScalar;
    var c := history[|history| - 1];
    match event
    case ReadKey => PrimeKeepsRip(c);
    case Import(context) => ContextInCoherent(c, context);
    case Restore(i) =>
      if i < |history| {
        RestoreCoherent(c, history[i]);
      }
    case FarCall(mem, selector, offset, operandSize, returnRip, indirect) =>
      FarCallEnters(Machine(c, mem), selector, offset, operandSize, returnRip, indirect);
  }

  lemma {:induction false} RestoreCoherent(c: Cpu, earlier: Cpu)
    requires ModeKeyCoherent(earlier)
    ensures ModeKeyCoherent(RestoreScalar(c, earlier.scalar))
  {
  }

  /** In every state reached by imports, restores, far CALLs and key reads, in any order, a valid key is the key of
      the state, and a slot that was never filled does not answer to it. */
  lemma {:induction false} KeyNeverLags(history: seq<Cpu>, events: seq<KeyEvent>)
    requires history != [] && forall i :: 0 <= i < |history| ==> ModeKeyCoherent(history[i])
    ensures forall i :: 0 <= i < |Unroll(history, events)| ==>
              var c := Unroll(history, events)[i];
              ModeKeyCoherent(c) && PrimeModeKey(c).modeKeyBits == ModeBits(c)
              && forall version: u64, rip: u64 :: !Hits(EMPTY_SLOT, version, rip, PrimeModeKey(c).modeKeyBits)
    decreases |events|
  {
    hide Happen, ModeKeyCoherent, PrimeModeKey, ModeBits, Hits;
    if events == [] {
      forall i | 0 <= i < |history|
        ensures PrimeModeKey(history[i]).modeKeyBits == ModeBits(history[i])
        ensures forall version: u64, rip: u64 :: !Hits(EMPTY_SLOT, version, rip, PrimeModeKey(history[i]).modeKeyBits)
      {
        PrimeKeepsRip(history[i]);
        KeyIsOdd(history[i]);
        BlankMisses(PrimeModeKey(history[i]).modeKeyBits);
      }
    } else {
      HappenCoherent(history, events[0]);
      KeyNeverLags(history + [Happen(history, events[0])], events[1..]);
    }
  }

  lemma {:induction false} KeyIsOdd(c: Cpu)
    requires ModeKeyCoherent(c)
    ensures ModeBits(c) % 2 == 1
  {
  }

  lemma {:induction false} BlankMisses(mode: nat)
    requires mode % 2 == 1
    ensures forall version: u64, rip: u64 :: !Hits(EMPTY_SLOT, version, rip, mode)
  {
  }

  // The writer that forgets the key.

  /** A raw register write of CS.DB and CS.L. Unlike every other writer it leaves the cached key alone. */
  function RawWriteCs(c: Cpu, db: bool, longMode: bool): Cpu {
    c.(scalar := c.scalar.(segments := c.scalar.segments.(cs := c.scalar.segments.cs.(db := db, longMode := longMode))))
  }

  /** The raw write breaks the invariant exactly when the key was cached and one of the two bits changes; the next
      step then looks up with the key of the old mode. */
  lemma {:induction false} RawWriteLagsIff(c: Cpu, db: bool, longMode: bool)
    requires ModeKeyCoherent(c)
    ensures var after := RawWriteCs(c, db, longMode);
            var same := db == c.scalar.segments.cs.db && longMode == c.scalar.segments.cs.longMode;
            && (ModeKeyCoherent(after) <==> !c.modeKeyValid || same)
            && (PrimeModeKey(after).modeKeyBits == ModeBits(after) <==> !c.modeKeyValid || same)
            && (c.modeKeyValid ==> PrimeModeKey(after).modeKeyBits == ModeBits(c))
  {
    assert ModeBits(c) % 8 == ModeBits(c);
  }
}
