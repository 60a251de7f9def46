/** The two loops of the engine: with hooks that only watch and no escapes, the loop that dispatches them runs as the
    one without does. */
module ObservedRuns {
  import opened Bits
  import opened MemoryManagement
  import opened CpuState
  import opened LinearMemory
  import opened Fetch
  import opened Decoder
  import opened Executor
  import opened Replay
  import opened InstCache
  import opened Transparency
  import opened Registry
  import opened Escapes
  import opened RunLoop
  import opened LoopRefinement

  // Escapes without a handler.

  /** The escape instructions that the ladder, and not an early exit of the decoder, has to refuse. */
  predicate LeftToLadder(opc: nat) {
    opc in {0x6C, 0x6D, 0x0F01, 0x0F31, 0x0FC7}
  }

  ghost predicate RefusesEscapes(isa: Isa) {
    forall mode: nat, code: seq<byte> :: Owned(mode, code) ==>
      isa.special(code) == None
      && (LeftToLadder(OpcodeAt(code, PrefixLength(mode, code, 0))) ==> isa.other(code, mode) == Some(Undefined))
  }

  /** The bytes are an escape that must not run without a handler. */
  predicate Owned(mode: nat, code: seq<byte>) {
    ClassifyEscape(mode, code).EscapeOf? && !Optional(ClassifyEscape(mode, code).id)
  }

  lemma {:induction false} UnfoldRefuses(isa: Isa, mode: nat, code: seq<byte>)
    requires RefusesEscapes(isa) && Owned(mode, code)
    ensures isa.special(code) == None
    ensures LeftToLadder(OpcodeAt(code, PrefixLength(mode, code, 0))) ==> isa.other(code, mode) == Some(Undefined)
  {
    hide Owned, LeftToLadder;
  }

  lemma {:induction false} OwnedOpcode(mode: nat, code: seq<byte>)
    requires Owned(mode, code)
    ensures var n := PrefixLength(mode, code, 0);
            var opc, x := OpcodeAt(code, n), Unhandled(ClassifyEscape(mode, code).id);
            && n < |code|
            && (opc == 0xCC || opc == 0xF1 || opc == 0xF4 || opc == 0x0F0B || EscapeOwnedUd(opc) || LeftToLadder(opc))
            && (opc == 0xCC <==> x == BP) && (opc == 0xF1 <==> x == DB) && x in {UD, BP, DB}
  {
    hide PrefixLength, Rdrand, Rdssp, LastRexW, SkipPrefixes;
  }

  lemma {:induction false} RefusedClass(isa: Isa, mode: nat, code: seq<byte>, n: nat, opc: nat)
    requires n < |code|
    requires opc == 0xCC || opc == 0xF1 || opc == 0xF4 || opc == 0x0F0B || EscapeOwnedUd(opc)
             || (LeftToLadder(opc) && isa.other(code, mode) == Some(Undefined))
    ensures var e := Classify(isa, mode, code, n, opc);
            && e.bytes == code && e.bp == (opc == 0xCC) && e.db == (opc == 0xF1)
            && e.ud == (opc != 0xCC && opc != 0xF1) && e.handler == NoHandler
  {
    hide ClassifyNoFault, PeekSegment, BranchOpcode, EscapeCandidate, AluRoute, RetOperandSize, LittleEndian,
      LongCodeBit,
      Branches;
  }

  /** Such bytes decode to an entry that raises what the loop raises for an escape nobody handles. */
  lemma {:induction false} RefusedEntry(isa: Isa, c: Cpu, code: seq<byte>)
    requires RefusesEscapes(isa) && Owned(ModeBits(c), code)
    ensures var e, x := DecodeAt(isa, c, code), Unhandled(ClassifyEscape(ModeBits(c), code).id);
            && e.bytes != [] && x in {UD, BP, DB} && e.ud == (x == UD) && e.bp == (x == BP) && e.db == (x == DB)
  {
    hide *;
    var mode := ModeBits(c);
    OwnedOpcode(mode, code);
    UnfoldRefuses(isa, mode, code);
    var n := PrefixLength(mode, code, 0);
    RefusedClass(isa, mode, code, n, OpcodeAt(code, n));
    StaticIs(isa, c, code);
  }

  lemma {:induction false} StaticIs(isa: Isa, c: Cpu, code: seq<byte>)
    requires isa.special(code) == None && PrefixLength(ModeBits(c), code, 0) < |code|
    requires var n := PrefixLength(ModeBits(c), code, 0);
             Classify(isa, ModeBits(c), code, n, OpcodeAt(code, n)).handler == NoHandler
    ensures var n := PrefixLength(ModeBits(c), code, 0);
            DecodeAt(isa, c, code) == Classify(isa, ModeBits(c), code, n, OpcodeAt(code, n))
  {
    hide Classify, PrefixLength, OpcodeAt, ModeBits;
  }

  /** Running it comes to raising that exception. */
  lemma {:induction false} RefusedRun(isa: Isa, k: Machine, e: Entry, x: ExceptionCode)
    requires !Pending(k.cpu) && k.cpu.scalar.segmentOverride == NoOverride
    requires e.bytes != [] && x in {UD, BP, DB} && e.ud == (x == UD) && e.bp == (x == BP) && e.db == (x == DB)
    ensures RunDecoded(isa, k, e) == (k.(cpu := Raise(k.cpu, x, 0)), StepException)
  {
    hide Body;
    assert k.cpu.scalar.controlRegs[2 := k.cpu.scalar.controlRegs[2]] == k.cpu.scalar.controlRegs;
  }

  // One turn.

  /** Without handlers a turn means running a fresh decode, escape or not. */
  lemma {:induction false} MeaningIsRun(isa: Isa, host: Host, k: Scene, address: u64)
    requires RefusesEscapes(isa) && Resting(k.machine.cpu) && !Pending(k.machine.cpu)
    ensures var (m, code) := RunDecoded(isa, k.machine, DecodeAt(isa, k.machine.cpu, Window(k.machine.mem, address)));
            Meaning(isa, host, [], k, address) == (k.(machine := m), StepVerdict(code, m.cpu.exception))
  {
    hide *;
    var code := Window(k.machine.mem, address);
    UnfoldMeaning(isa, host, [], k, address);
    AttemptAlone(host, k.machine, address, code);
    if Owned(ModeBits(k.machine.cpu), code) {
      OwnedClass(ModeBits(k.machine.cpu), code);
      var x := Unhandled(ClassifyEscape(ModeBits(k.machine.cpu), code).id);
      RefusedEntry(isa, k.machine.cpu, code);
      RestingFlat(k.machine.cpu);
      RefusedRun(isa, k.machine, DecodeAt(isa, k.machine.cpu, code), x);
      RaisedVerdict(k, address, x);
    }
  }

  lemma {:induction false} OwnedClass(mode: nat, code: seq<byte>)
    requires Owned(mode, code)
    ensures ClassifyEscape(mode, code).EscapeOf?
  {
    hide ClassifyEscape;
  }

  lemma {:induction false} RestingFlat(c: Cpu)
    requires Resting(c)
    ensures c.scalar.segmentOverride == NoOverride
  {
  }

  lemma {:induction false} AttemptAlone(host: Host, m: Machine, address: u64, code: seq<byte>)
    ensures TryEscape(host.onEscape, [], m, address, code)
            == if Owned(ModeBits(m.cpu), code)
               then Taken(m.(cpu := Raise(m.cpu, Unhandled(ClassifyEscape(ModeBits(m.cpu), code).id), 0)), None, false,
                          RaisedException)
               else NotTaken(m)
  {
    hide ClassifyEscape, Raise;
  }

  lemma {:induction false} RaisedVerdict(k: Scene, address: u64, x: ExceptionCode)
    requires !Pending(k.machine.cpu) && x in {UD, BP, DB}
    ensures var raised := k.machine.(cpu := Raise(k.machine.cpu, x, 0));
            && AfterEscape(k, Taken(raised, None, false, RaisedException), address) == k.(machine := raised)
            && EscapeVerdict(RaisedException) == StepVerdict(StepException, raised.cpu.exception)
  {
  }

  /** A turn of the hooked loop and a step of the bare one, each behind a sound cache of its own. */
  lemma {:induction false} SameStep(isa: Isa, host: Host, s: Scene, past: set<Cpu>,
      slots: seq<Slot>, other: seq<Slot>)
    requires WellBehaved(isa) && RefusesEscapes(isa) && Resting(s.machine.cpu) && !Pending(s.machine.cpu)
    requires Sound(isa, s.machine.mem, past, slots) && Sound(isa, s.machine.mem, past, other)
    requires WindowFetchable(s.machine, s.machine.cpu.scalar.rip) && Settled(s.machine, past)
    ensures var c, out := Core(isa, host, [], s, slots, s.machine.cpu.scalar.rip), Step(isa, s.machine, other, []);
            && c.verdict == StepVerdict(out.code, out.machine.cpu.exception) && c.scene == s.(machine := out.machine)
            && Sound(isa, s.machine.mem, Visited(s.machine, past), c.slots)
            && Sound(isa, s.machine.mem, Visited(s.machine, past), out.slots)
            && Step(isa, s.machine, [], []).machine == out.machine && Step(isa, s.machine, [], []).code == out.code
            && (c.verdict.Counted? ==> !Pending(out.machine.cpu)) && !c.verdict.HaltedRun?
  {
    hide *;
    var address, k := s.machine.cpu.scalar.rip, s.(machine := Keyed(s.machine));
    BehavedReplays(isa);
    ReadyTurn(s.machine, past, address);
    CoreIsMeaning(isa, host, [], s, past, slots, address);
    KeyedAgain(s.machine);
    MeaningIsRun(isa, host, k, address);
    StepIsFresh(isa, s.machine, past, other, []);
    NothingUnsettled(s.machine);
    NothingSound(isa, s.machine.mem);
    StepIsFresh(isa, s.machine, {}, [], []);
    RunCodes(isa, k.machine, DecodeAt(isa, k.machine.cpu, Window(k.machine.mem, address)));
  }

  lemma {:induction false} RunCodes(isa: Isa, k: Machine, e: Entry)
    ensures var (m, code) := RunDecoded(isa, k, e);
            var verdict := StepVerdict(code, m.cpu.exception);
            (verdict.Counted? ==> !Pending(m.cpu)) && !verdict.HaltedRun?
  {
    hide Dispatch;
    StepCodes(isa, k, e);
  }

  // The runs.

  /** Hooks that watch: they return the machine as it was, and do not stop the run. */
  ghost predicate Watching(host: Host) {
    forall cb: nat, address: u64, m: Machine :: host.onCode(cb, address, m) == (m, false)
  }

  lemma {:induction false} WatchedScan(host: Host, hooks: seq<Hook>, i: nat, kind: nat, address: u64, s: Scene)
    requires Watching(host) && i <= |hooks|
    ensures var after := ScanHooks(host, hooks, i, kind, address, s);
            after.machine == s.machine && after.stopped == s.stopped
    decreases |hooks| - i
  {
    hide Watching, RangeContains, OfKind;
    if i < |hooks| {
      WatchedVisit(host, hooks[i], kind, address, s);
      WatchedScan(host, hooks, i + 1, kind, address, Visit(host, hooks[i], kind, address, s));
    }
  }

  lemma {:induction false} WatchedVisit(host: Host, h: Hook, kind: nat, address: u64, s: Scene)
    requires Watching(host)
    ensures Visit(host, h, kind, address, s).machine == s.machine
            && Visit(host, h, kind, address, s).stopped == s.stopped
  {
    hide RangeContains, OfKind;
  }

  /** Every instruction of the bare run finds its window fetchable and what its decoder reads besides the mode as it was
      when the same bytes were decoded there before, and keeps the version contract, judged without any cache. */
  ghost predicate Steady(isa: Isa, m: Machine, past: set<Cpu>, until: u64, count: nat, executed: nat, turns: nat)
    decreases turns
  {
    turns > 0 && !Finished(Scene(m, [], false), until, count, executed) ==>
      var out := Step(isa, m, [], []);
      && WindowFetchable(m, m.cpu.scalar.rip) && Settled(m, past) && CodeKept(m.mem, out.machine.mem)
      && (out.code == StepOk ==>
            Steady(isa, out.machine, Recalled(m.mem, out.machine.mem, Visited(m, past)), until, count,
                   executed + 1, turns - 1))
  }

  lemma {:induction false} UnfoldSteady(isa: Isa, m: Machine, past: set<Cpu>, until: u64, count: nat,
                                        executed: nat, turns: nat)
    requires Steady(isa, m, past, until, count, executed, turns)
    requires turns > 0 && !Finished(Scene(m, [], false), until, count, executed)
    ensures var out := Step(isa, m, [], []);
            && WindowFetchable(m, m.cpu.scalar.rip) && Settled(m, past) && CodeKept(m.mem, out.machine.mem)
            && (out.code == StepOk ==>
                  Steady(isa, out.machine, Recalled(m.mem, out.machine.mem, Visited(m, past)), until, count,
                         executed + 1, turns - 1))
  {
    hide Step, CodeKept, Settled, Recalled, Visited, WindowFetchable, Finished;
  }

  /** Two endings that differ in the calls made and the slots only. */
  ghost predicate SameButCalls(a: Option<Ending>, b: Option<Ending>) {
    && a.Some? == b.Some?
    && (a.Some? ==> a.value.scene == b.value.scene.(log := a.value.scene.log) && a.value.executed == b.value.executed
                    && a.value.error == b.value.error)
  }

  lemma {:induction false} UnfoldDirect(isa: Isa, s: Scene, slots: seq<Slot>, until: u64, count: nat, executed: nat,
      turns: nat)
    ensures var out := Step(isa, s.machine, slots, []);
            var next := s.(machine := out.machine);
            var done := Direct(isa, s, slots, until, count, executed, turns);
            var verdict := StepVerdict(out.code, out.machine.cpu.exception);
            if turns == 0 then done == None
            else if Finished(s, until, count, executed) then done == Some(Ending(s, slots, executed, Fine))
            else if verdict.FailedRun? then done == Some(Ending(next, out.slots, executed, verdict.error))
            else if verdict.HaltedRun? then done == Some(Ending(next, out.slots, executed, Fine))
            else done == Direct(isa, next, out.slots, until, count, executed + 1, turns - 1)
  {
    hide Step, Finished, StepVerdict;
  }

  lemma {:induction false} SameFinish(s: Scene, d: Scene, until: u64, count: nat, executed: nat)
    requires s == d.(log := s.log) && !s.stopped
    ensures Finished(s, until, count, executed) == Finished(d, until, count, executed)
            == Finished(Scene(d.machine, [], false), until, count, executed)
  {
  }

  lemma {:induction false} SameEnding(a: Option<Ending>, b: Option<Ending>)
    requires a.Some? == b.Some?
    requires a.Some? ==> a.value.scene == b.value.scene.(log := a.value.scene.log)
                         && a.value.executed == b.value.executed
                         && a.value.error == b.value.error
    ensures SameButCalls(a, b)
  {
  }

  lemma {:induction false} CountedOk(isa: Isa, m: Machine, slots: seq<Slot>)
    requires var out := Step(isa, m, slots, []); StepVerdict(out.code, out.machine.cpu.exception).Counted?
    ensures Step(isa, m, slots, []).code == StepOk
  {
    hide Step;
  }

  /** The hooked loop without escapes, under hooks that only watch, makes the run of the loop without hooks: same
      machine, same count, same result, whatever the two caches hold and however many turns they are given. */
  lemma {:induction false} WatchedIsDirect(isa: Isa, host: Host, t: Registry.Tables, s: Scene, d: Scene,
      past: set<Cpu>, slots: seq<Slot>, other: seq<Slot>, until: u64, count: nat, executed: nat, turns: nat)
    requires WellBehaved(isa) && RefusesEscapes(isa) && Watching(host) && t.escapes == []
    requires s == d.(log := s.log) && !s.stopped && Resting(d.machine.cpu) && !Pending(d.machine.cpu)
    requires Sound(isa, d.machine.mem, past, slots) && Sound(isa, d.machine.mem, past, other)
    requires Steady(isa, d.machine, past, until, count, executed, turns)
    ensures SameButCalls(Loop(isa, host, t, s, slots, until, count, executed, turns, false),
                         Direct(isa, d, other, until, count, executed, turns))
    decreases turns
  {
    hide *;
    var hooked := Loop(isa, host, t, s, slots, until, count, executed, turns, false);
    var bare := Direct(isa, d, other, until, count, executed, turns);
    UnfoldDirect(isa, d, other, until, count, executed, turns);
    if turns == 0 {
      NoTurns(isa, host, t, s, slots, until, count, executed, false);
      SameEnding(hooked, bare);
      return;
    }
    LoopRefinement.UnfoldLoop(isa, host, t, s, slots, until, count, executed, turns, false);
    SameFinish(s, d, until, count, executed);
    if Finished(s, until, count, executed) {
      SameEnding(hooked, bare);
      return;
    }
    UnfoldSteady(isa, d.machine, past, until, count, executed, turns);
    var address := d.machine.cpu.scalar.rip;
    var p := ScanHooks(host, t.hooks, 0, CODE_PRE, address, s);
    WatchedScan(host, t.hooks, 0, CODE_PRE, address, s);
    SameStep(isa, host, p, past, slots, other);
    var c, out := Core(isa, host, [], p, slots, address), Step(isa, d.machine, other, []);
    if c.verdict.FailedRun? {
      SameEnding(hooked, bare);
      return;
    }
    var q := ScanHooks(host, t.hooks, 0, CODE_POST, address, c.scene);
    WatchedScan(host, t.hooks, 0, CODE_POST, address, c.scene);
    CountedVerdict(c.verdict);
    CountedOk(isa, d.machine, other);
    BehavedReplays(isa);
    StepResting(isa, d.machine, []);
    var visited := Visited(d.machine, past);
    SoundKept(isa, d.machine.mem, out.machine.mem, visited, c.slots);
    SoundKept(isa, d.machine.mem, out.machine.mem, visited, out.slots);
    WatchedIsDirect(isa, host, t, q, d.(machine := out.machine),
                    Recalled(d.machine.mem, out.machine.mem, visited), c.slots, out.slots, until, count, executed + 1,
                    turns - 1);
  }

  lemma {:induction false} CountedVerdict(verdict: TurnVerdict)
    requires !verdict.FailedRun? && !verdict.HaltedRun?
    ensures verdict.Counted?
  {
  }
}
