/** The short cut of the run loop preserves meaning: same machine, same calls, same count, same result. */
module LoopRefinement {
  import opened Bits
  import opened MemoryManagement
  import opened CpuState
  import opened LinearMemory
  import opened Fetch
  import Flags
  import opened Decoder
  import opened Executor
  import opened Replay
  import opened InstCache
  import opened Transparency
  import opened Registry
  import opened Escapes
  import opened RunLoop

  // One turn.

  lemma {:induction false} ClassifyMarks(isa: Isa, mode: nat, code: seq<byte>, n: nat, opc: nat)
    requires n < |code|
    ensures Classify(isa, mode, code, n, opc).notEscape == !EscapeCandidate(opc)
  {
    hide ClassifyNoFault, PeekSegment, BranchOpcode, EscapeCandidate, AluRoute, RetOperandSize, LittleEndian;
  }

  /** An entry marked as no escape was decoded from bytes the classifier refuses. */
  lemma {:induction false} MarkedIsNoEscape(isa: Isa, c: Cpu, code: seq<byte>)
    ensures DecodeAt(isa, c, code).notEscape ==> ClassifyEscape(ModeBits(c), code) == NoEscape
  {
    hide Classify, PrefixLength, OpcodeAt, ModeBits, ProbeSucceeds, ProbePayload, ProbeLength, EscapeCandidate,
      ClassifyEscape;
    var n := PrefixLength(ModeBits(c), code, 0);
    EscapesAreCandidates(ModeBits(c), code);
    if n < |code| {
      ClassifyMarks(isa, ModeBits(c), code, n, OpcodeAt(code, n));
    }
  }

  lemma {:induction false} NothingToEscape(onEscape: (nat, seq<byte>, Machine) -> Reply, escapes: seq<Escape>,
      m: Machine,
                                           address: u64, code: seq<byte>)
    requires ClassifyEscape(ModeBits(m.cpu), code) == NoEscape
    ensures TryEscape(onEscape, escapes, m, address, code) == NotTaken(m)
  {
    hide ClassifyEscape;
  }

  lemma {:induction false} NotTakenKeeps(onEscape: (nat, seq<byte>, Machine) -> Reply, escapes: seq<Escape>, m: Machine,
                                         address: u64, code: seq<byte>)
    ensures var a := TryEscape(onEscape, escapes, m, address, code);
            a.NotTaken? ==> a.machine == m
  {
    hide ClassifyEscape, HandlerFor, ContextIn, Pending;
  }

  /** What one instruction means: try the escapes on the window, else run a fresh decode of it. */
  function Meaning(isa: Isa, host: Host, escapes: seq<Escape>, k: Scene, address: u64): (Scene, TurnVerdict) {
    var code := if Pending(k.machine.cpu) then [] else Window(k.machine.mem, address);
    var a := TryEscape(host.onEscape, escapes, k.machine, address, code);
    if a.Taken? then (AfterEscape(k, a, address), EscapeVerdict(a.outcome))
    else
      var (m, result) :=
        if Pending(k.machine.cpu) then (k.machine, StepException)
        else RunDecoded(isa, k.machine, DecodeAt(isa, k.machine.cpu, code));
      (k.(machine := m), StepVerdict(result, m.cpu.exception))
  }

  /** Where the theorems about turns apply. */
  ghost predicate Ready(m: Machine, past: set<Cpu>, address: u64) {
    && Resting(m.cpu) && m.cpu.scalar.rip == address
    && (!Pending(m.cpu) ==> WindowFetchable(m, address) && Settled(m, past))
  }

  lemma {:induction false} KeyedAgain(m: Machine)
    requires Resting(m.cpu)
    ensures var k := Keyed(m);
            && Keyed(k) == k && k.mem == m.mem && k.cpu.scalar == m.cpu.scalar && Resting(k.cpu)
            && Pending(k.cpu) == Pending(m.cpu) && k.cpu.modeKeyBits == ModeBits(k.cpu) && k.cpu.modeKeyBits % 2 == 1
  {
    PrimeKeepsRip(m.cpu);
    KeyBit(m.cpu);
  }

  lemma {:induction false} KeyedReadyAt(m: Machine, past: set<Cpu>, address: u64)
    requires Ready(m, past, address)
    ensures Ready(Keyed(m), past, address) && Visited(Keyed(m), past) == Visited(m, past)
  {
    hide Resting, Keyed, Pending, Accessible, Settled;
    KeyedAgain(m);
    if !Pending(m.cpu) {
      KeyedSettled(m, past);
      KeyedReady(m);
      UnfoldWindow(m, address);
      UnfoldWindow(Keyed(m), address);
    }
  }

  lemma {:induction false} UnfoldSlow(isa: Isa, host: Host, escapes: seq<Escape>, s: Scene, slots: seq<Slot>,
      address: u64)
    requires Fetched(s.machine, address) == s.machine
    ensures var a := TryEscape(host.onEscape, escapes, s.machine, address, FetchedBytes(s.machine, address));
            && (a.Taken? ==> Slow(isa, host, escapes, s, slots, address)
                             == Turned(AfterEscape(s, a, address), slots, EscapeVerdict(a.outcome)))
            && (a.NotTaken? ==> var out := Step(isa, s.machine, slots, FetchedBytes(s.machine, address));
                                Slow(isa, host, escapes, s, slots, address)
                                == Turned(s.(machine := out.machine), out.slots,
                                          StepVerdict(out.code, out.machine.cpu.exception)))
  {
    hide Step, TryEscape, AfterEscape, Fetched, FetchedBytes;
    NotTakenKeeps(host.onEscape, escapes, s.machine, address, FetchedBytes(s.machine, address));
  }

  lemma {:induction false} UnfoldMeaning(isa: Isa, host: Host, escapes: seq<Escape>, k: Scene, address: u64)
    ensures var code := if Pending(k.machine.cpu) then [] else Window(k.machine.mem, address);
            var a := TryEscape(host.onEscape, escapes, k.machine, address, code);
            && (a.Taken? ==> Meaning(isa, host, escapes, k, address)
                             == (AfterEscape(k, a, address), EscapeVerdict(a.outcome)))
            && (a.NotTaken? && Pending(k.machine.cpu) ==>
                  Meaning(isa, host, escapes, k, address) == (k, StepVerdict(StepException, k.machine.cpu.exception)))
            && (a.NotTaken? && !Pending(k.machine.cpu) ==>
                  var (m, result) := RunDecoded(isa, k.machine, DecodeAt(isa, k.machine.cpu, code));
                  Meaning(isa, host, escapes, k, address) == (k.(machine := m), StepVerdict(result, m.cpu.exception)))
  {
    hide TryEscape, AfterEscape, RunDecoded, DecodeAt, Window, Pending;
  }

  /** The slow path, with any sound cache behind it, does what one instruction means. */
  lemma {:induction false} SlowIsMeaning(isa: Isa, host: Host, escapes: seq<Escape>, k: Scene, past: set<Cpu>,
      slots: seq<Slot>, address: u64)
    requires OthersReplay(isa)
    requires Ready(k.machine, past, address) && Keyed(k.machine) == k.machine
    requires Sound(isa, k.machine.mem, past, slots)
    ensures var turned := Slow(isa, host, escapes, k, slots, address);
            && (turned.scene, turned.verdict) == Meaning(isa, host, escapes, k, address)
            && Sound(isa, k.machine.mem, Visited(k.machine, past), turned.slots) && |turned.slots| == |slots|
  {
    hide *;
    UnfoldReady(k.machine, past, address);
    UnfoldVisited(k.machine, past);
    SoundMore(isa, k.machine.mem, past, Visited(k.machine, past), slots);
    UnfoldMeaning(isa, host, escapes, k, address);
    if Pending(k.machine.cpu) {
      PendingFetch(k.machine, address);
      UnfoldSlow(isa, host, escapes, k, slots, address);
      UnfoldStep(isa, k.machine, slots, []);
    } else {
      FetchableVisible(k.machine, address);
      UnfoldSlow(isa, host, escapes, k, slots, address);
      StepIsFresh(isa, k.machine, past, slots, Window(k.machine.mem, address));
    }
  }

  lemma {:induction false} UnfoldReady(m: Machine, past: set<Cpu>, address: u64)
    requires Ready(m, past, address)
    ensures Resting(m.cpu) && m.cpu.scalar.rip == address
    ensures !Pending(m.cpu) ==> WindowFetchable(m, address) && Settled(m, past)
  {
    hide Resting, Pending, WindowFetchable, Settled;
  }

  lemma {:induction false} UnfoldShortCut(slots: seq<Slot>, m: Machine, address: u64)
    requires ShortCut(slots, m, address).Some?
    ensures Find(slots, m.mem.codeVersion, address, m.cpu.modeKeyBits) == ShortCut(slots, m, address)
    ensures ShortCut(slots, m, address).value.notEscape
  {
    hide Find;
  }

  lemma {:induction false} RunsCached(isa: Isa, m: Machine, e: Entry)
    ensures Pending(m.cpu) ==> RunCached(isa, m, e) == (m, StepException)
    ensures !Pending(m.cpu) && e.bytes != [] ==> RunCached(isa, m, e) == RunDecoded(isa, m, e)
  {
    hide Dispatch, Pending, Abort;
  }

  /** So does the short cut. */
  lemma {:induction false} ShortCutIsMeaning(isa: Isa, host: Host, escapes: seq<Escape>, k: Scene, past: set<Cpu>,
      slots: seq<Slot>, address: u64)
    requires OthersReplay(isa)
    requires Ready(k.machine, past, address) && Keyed(k.machine) == k.machine
    requires Sound(isa, k.machine.mem, past, slots)
    requires k.machine.cpu.modeKeyBits == ModeBits(k.machine.cpu) && k.machine.cpu.modeKeyBits % 2 == 1
    requires ShortCut(slots, k.machine, address).Some?
    ensures var (m, code) := RunCached(isa, k.machine, ShortCut(slots, k.machine, address).value);
            Meaning(isa, host, escapes, k, address) == (k.(machine := m), StepVerdict(code, m.cpu.exception))
  {
    hide *;
    var mem, mode := k.machine.mem, k.machine.cpu.modeKeyBits;
    var e := ShortCut(slots, k.machine, address).value;
    UnfoldReady(k.machine, past, address);
    UnfoldShortCut(slots, k.machine, address);
    UnfoldMeaning(isa, host, escapes, k, address);
    RunsCached(isa, k.machine, e);
    if Pending(k.machine.cpu) {
      EmptyIsNoEscape(ModeBits(k.machine.cpu));
      NothingToEscape(host.onEscape, escapes, k.machine, address, []);
    } else {
      KeyedReady(k.machine);
      SoundHit(isa, mem, past, slots, address, mode);
      var c: Cpu, slot: Slot :| c in past && DecodedBy(isa, mem, slot, c)
                                && slot.tag == address && slot.mode == mode
                                && slot.entry == Find(slots, mem.codeVersion, address, mode).value;
      UnfoldDecodedBy(isa, mem, slot, c);
      MarkedIsNoEscape(isa, c, Window(mem, address));
      NothingToEscape(host.onEscape, escapes, k.machine, address, Window(mem, address));
      DecodedSteps(isa, k.machine, past, slot, c);
    }
  }

  lemma {:induction false} UnfoldDecodedBy(isa: Isa, mem: Mem, slot: Slot, c: Cpu)
    requires DecodedBy(isa, mem, slot, c)
    ensures slot.entry == DecodeAt(isa, c, Window(mem, slot.tag)) && slot.entry.bytes != [] && ModeBits(c) == slot.mode
  {
    hide DecodeAt, Visible, ModeBits, ReadyToDecode;
  }

  lemma {:induction false} EmptyIsNoEscape(mode: nat)
    ensures ClassifyEscape(mode, []) == NoEscape
  {
  }

  lemma {:induction false} UnfoldCore(isa: Isa, host: Host, escapes: seq<Escape>, s: Scene, slots: seq<Slot>,
      address: u64)
    ensures var k := s.(machine := Keyed(s.machine));
            var hit := ShortCut(slots, k.machine, address);
            && (hit.None? ==> Core(isa, host, escapes, s, slots, address)
                              == Slow(isa, host, escapes, k, slots, address))
            && (hit.Some? ==> var (m, code) := RunCached(isa, k.machine, hit.value);
                              Core(isa, host, escapes, s, slots, address)
                              == Turned(k.(machine := m), slots, StepVerdict(code, m.cpu.exception)))
  {
    hide Slow, RunCached, ShortCut, Keyed;
  }

  /** Whatever a sound cache holds, and whether or not it offers a short cut, an instruction of the run loop does
      what the instruction means. */
  lemma {:induction false} CoreIsMeaning(isa: Isa, host: Host, escapes: seq<Escape>, s: Scene, past: set<Cpu>,
      slots: seq<Slot>, address: u64)
    requires OthersReplay(isa)
    requires Ready(s.machine, past, address) && Sound(isa, s.machine.mem, past, slots)
    ensures var turned := Core(isa, host, escapes, s, slots, address);
            && (turned.scene, turned.verdict) == Meaning(isa, host, escapes, s.(machine := Keyed(s.machine)), address)
            && Sound(isa, s.machine.mem, Visited(s.machine, past), turned.slots) && |turned.slots| == |slots|
  {
    hide *;
    UnfoldReady(s.machine, past, address);
    KeyedAgain(s.machine);
    KeyedReadyAt(s.machine, past, address);
    UnfoldVisited(s.machine, past);
    SoundMore(isa, s.machine.mem, past, Visited(s.machine, past), slots);
    UnfoldCore(isa, host, escapes, s, slots, address);
    var k := s.(machine := Keyed(s.machine));
    if ShortCut(slots, k.machine, address).Some? {
      ShortCutIsMeaning(isa, host, escapes, k, past, slots, address);
    } else {
      SlowIsMeaning(isa, host, escapes, k, past, slots, address);
    }
  }

  /** The callback an instruction is due to: that of an escape its bytes classify as and somebody handles here. */
  function CallbackDue(escapes: seq<Escape>, m: Machine, address: u64): Option<nat> {
    if Pending(m.cpu) then None
    else
      match ClassifyEscape(ModeBits(m.cpu), Window(m.mem, address))
      case NoEscape => None
      case EscapeOf(id, _) =>
        match HandlerFor(escapes, id, address)
        case Some(e) => Some(e.callback)
        case None => None
  }

  lemma {:induction false} AttemptCalls(host: Host, escapes: seq<Escape>, m: Machine, address: u64)
    ensures var code := if Pending(m.cpu) then [] else Window(m.mem, address);
            var a := TryEscape(host.onEscape, escapes, m, address, code);
            (if a.Taken? then a.called else None) == CallbackDue(escapes, m, address)
  {
    hide ClassifyEscape, ContextIn, Window, HandlerFor;
    EmptyIsNoEscape(ModeBits(m.cpu));
  }

  /** Whatever the cache holds, a turn of the loop calls the one callback its current bytes are due to, once, and
      calls none when there is none: the short cut never swallows an escape and never invents one. */
  lemma {:induction false} EscapesAreCalled(isa: Isa, host: Host, escapes: seq<Escape>, s: Scene, past: set<Cpu>,
      slots: seq<Slot>, address: u64)
    requires OthersReplay(isa)
    requires Ready(s.machine, past, address) && Sound(isa, s.machine.mem, past, slots)
    ensures var due := CallbackDue(escapes, Keyed(s.machine), address);
            Core(isa, host, escapes, s, slots, address).scene.log
            == if due.Some? then s.log + [EscapeCall(due.value, address)] else s.log
  {
    hide *;
    CoreIsMeaning(isa, host, escapes, s, past, slots, address);
    var k := s.(machine := Keyed(s.machine));
    UnfoldMeaning(isa, host, escapes, k, address);
    AttemptCalls(host, escapes, k.machine, address);
    var code := if Pending(k.machine.cpu) then [] else Window(k.machine.mem, address);
    var a := TryEscape(host.onEscape, escapes, k.machine, address, code);
    if a.Taken? {
      EscapeLog(k, a, address);
    }
  }

  lemma {:induction false} EscapeLog(s: Scene, a: Attempt, address: u64)
    requires a.Taken?
    ensures AfterEscape(s, a, address).log == if a.called.Some? then s.log + [EscapeCall(a.called.value, address)]
            else s.log
  {
  }

  // The contract of the callbacks.

  /** Callbacks leave the machine in a state between instructions: whoever changes the code segment clears the
      cached key, and nobody stamps a segment override. */
  ghost predicate WellMannered(host: Host) {
    && (forall cb: nat, address: u64, m: Machine :: Resting(m.cpu) ==> Resting(host.onCode(cb, address, m).0.cpu))
    && (forall cb: nat, code: seq<byte>, m: Machine :: Resting(m.cpu) ==>
        Resting(host.onEscape(cb, code, m).machine.cpu))
  }

  lemma {:induction false} UnfoldManners(host: Host, cb: nat, address: u64, code: seq<byte>, m: Machine)
    requires WellMannered(host) && Resting(m.cpu)
    ensures Resting(host.onCode(cb, address, m).0.cpu) && Resting(host.onEscape(cb, code, m).machine.cpu)
  {
    hide Resting;
  }

  lemma {:induction false} ScanResting(host: Host, hooks: seq<Hook>, i: nat, kind: nat, address: u64, s: Scene)
    requires WellMannered(host) && Resting(s.machine.cpu) && i <= |hooks|
    ensures Resting(ScanHooks(host, hooks, i, kind, address, s).machine.cpu)
    decreases |hooks| - i
  {
    hide WellMannered, Resting, RangeContains, OfKind;
    if i < |hooks| {
      UnfoldManners(host, hooks[i].callback, address, [], s.machine);
      ScanResting(host, hooks, i + 1, kind, address, Visit(host, hooks[i], kind, address, s));
    }
  }

  lemma {:induction false} CompleteResting(callback: nat, reply: Reply, ripBefore: u64, size: nat)
    requires Resting(reply.machine.cpu)
    ensures Resting(Complete(callback, reply, ripBefore, size).machine.cpu)
  {
  }

  lemma {:induction false} RaiseResting(c: Cpu, code: ExceptionCode)
    requires Resting(c)
    ensures Resting(Raise(c, code, 0))
  {
  }

  lemma {:induction false} EscapeResting(host: Host, escapes: seq<Escape>, m: Machine, address: u64, code: seq<byte>)
    requires WellMannered(host) && Resting(m.cpu)
    ensures Resting(TryEscape(host.onEscape, escapes, m, address, code).machine.cpu)
  {
    hide WellMannered, Resting, ClassifyEscape, Complete, Raise, Indexed;
    match ClassifyEscape(ModeBits(m.cpu), code)
    case NoEscape =>
    case EscapeOf(id, size) =>
      RaiseResting(m.cpu, Unhandled(id));
      match HandlerFor(escapes, id, address)
      case Some(e) =>
        UnfoldManners(host, e.callback, address, code, m);
        CompleteResting(e.callback, host.onEscape(e.callback, code, m), m.cpu.scalar.rip, size);
      case None =>
  }

  lemma {:induction false} MeaningResting(isa: Isa, host: Host, escapes: seq<Escape>, k: Scene, address: u64)
    requires Civil(isa) && WellMannered(host) && Resting(k.machine.cpu)
    ensures Resting(Meaning(isa, host, escapes, k, address).0.machine.cpu)
  {
    hide *;
    UnfoldMeaning(isa, host, escapes, k, address);
    var code := if Pending(k.machine.cpu) then [] else Window(k.machine.mem, address);
    var a := TryEscape(host.onEscape, escapes, k.machine, address, code);
    EscapeResting(host, escapes, k.machine, address, code);
    RestingCoherent(k.machine.cpu);
    RunResting(isa, k.machine, DecodeAt(isa, k.machine.cpu, code));
    if a.Taken? {
      UnfoldAfterEscape(k, a, address);
    }
  }

  lemma {:induction false} UnfoldAfterEscape(s: Scene, a: Attempt, address: u64)
    requires a.Taken?
    ensures AfterEscape(s, a, address).machine == a.machine
  {
  }

  lemma {:induction false} RestingCoherent(c: Cpu)
    requires Resting(c)
    ensures ModeKeyCoherent(c)
  {
  }

  // Whole runs.

  /** The runs the loop is made for, judged on the slow path alone: hooks before an instruction leave RIP where it is,
      the window is fetchable, code never changes under one version, and what the decoder of an instruction reads
      besides the mode is as it was when the same bytes were decoded there before. */
  ghost predicate Orderly(isa: Isa, host: Host, t: Registry.Tables, s: Scene, past: set<Cpu>, n: nat, until: u64,
                          count: nat, executed: nat, turns: nat)
    decreases turns
  {
    turns > 0 && !Finished(s, until, count, executed) ==>
      var address := s.machine.cpu.scalar.rip;
      var p := ScanHooks(host, t.hooks, 0, CODE_PRE, address, s);
      var known := Recalled(s.machine.mem, p.machine.mem, past);
      && CodeKept(s.machine.mem, p.machine.mem)
      && (!p.stopped ==>
            var c := Core(isa, host, t.escapes, p, seq(n, _ => EMPTY_SLOT), address);
            var q := ScanHooks(host, t.hooks, 0, CODE_POST, address, c.scene);
            && p.machine.cpu.scalar.rip == address
            && (!Pending(p.machine.cpu) ==> WindowFetchable(p.machine, address) && Settled(p.machine, known))
            && CodeKept(p.machine.mem, c.scene.machine.mem)
            && (!c.verdict.FailedRun? ==> CodeKept(c.scene.machine.mem, q.machine.mem))
            && (c.verdict.Counted? ==>
                  Orderly(isa, host, t, q, Lasting(p, c.scene, q, known), n, until, count, executed + 1, turns - 1)))
  }

  /** What is remembered after an instruction and the hooks behind it. */
  ghost function Lasting(p: Scene, c: Scene, q: Scene, past: set<Cpu>): set<Cpu> {
    Recalled(c.machine.mem, q.machine.mem, Recalled(p.machine.mem, c.machine.mem, Visited(p.machine, past)))
  }

  lemma {:induction false} UnfoldOrderly(isa: Isa, host: Host, t: Registry.Tables, s: Scene, past: set<Cpu>, n: nat,
                                         until: u64, count: nat, executed: nat, turns: nat)
    requires Orderly(isa, host, t, s, past, n, until, count, executed, turns)
    requires turns > 0 && !Finished(s, until, count, executed)
    ensures var address := s.machine.cpu.scalar.rip;
            var p := ScanHooks(host, t.hooks, 0, CODE_PRE, address, s);
            var known := Recalled(s.machine.mem, p.machine.mem, past);
            && CodeKept(s.machine.mem, p.machine.mem)
            && (!p.stopped ==>
                  var c := Core(isa, host, t.escapes, p, seq(n, _ => EMPTY_SLOT), address);
                  var q := ScanHooks(host, t.hooks, 0, CODE_POST, address, c.scene);
                  && p.machine.cpu.scalar.rip == address
                  && (!Pending(p.machine.cpu) ==> WindowFetchable(p.machine, address) && Settled(p.machine, known))
                  && CodeKept(p.machine.mem, c.scene.machine.mem)
                  && (!c.verdict.FailedRun? ==> CodeKept(c.scene.machine.mem, q.machine.mem))
                  && (c.verdict.Counted? ==>
                        Orderly(isa, host, t, q, Lasting(p, c.scene, q, known), n, until, count, executed + 1,
                                turns - 1)))
  {
    hide Core, ScanHooks, CodeKept, WindowFetchable, Pending, Finished, Settled, Recalled, Lasting;
  }

  /** What is remembered at the end of a run. */
  ghost function Lived(isa: Isa, host: Host, t: Registry.Tables, s: Scene, past: set<Cpu>, n: nat, until: u64,
                       count: nat, executed: nat, turns: nat): set<Cpu>
    decreases turns
  {
    if turns == 0 || Finished(s, until, count, executed) then past
    else
      var address := s.machine.cpu.scalar.rip;
      var p := ScanHooks(host, t.hooks, 0, CODE_PRE, address, s);
      var known := Recalled(s.machine.mem, p.machine.mem, past);
      if p.stopped then known
      else
        var c := Core(isa, host, t.escapes, p, seq(n, _ => EMPTY_SLOT), address);
        var q := ScanHooks(host, t.hooks, 0, CODE_POST, address, c.scene);
        if c.verdict.FailedRun? then Recalled(p.machine.mem, c.scene.machine.mem, Visited(p.machine, known))
        else if c.verdict.HaltedRun? then Lasting(p, c.scene, q, known)
        else Lived(isa, host, t, q, Lasting(p, c.scene, q, known), n, until, count, executed + 1, turns - 1)
  }

  lemma {:induction false} UnfoldLasting(p: Scene, c: Scene, q: Scene, past: set<Cpu>)
    ensures Lasting(p, c, q, past)
            == Recalled(c.machine.mem, q.machine.mem, Recalled(p.machine.mem, c.machine.mem, Visited(p.machine, past)))
  {
  }

  lemma {:induction false} UnfoldLived(isa: Isa, host: Host, t: Registry.Tables, s: Scene, past: set<Cpu>, n: nat,
                                       until: u64, count: nat, executed: nat, turns: nat)
    ensures var address := s.machine.cpu.scalar.rip;
            var p := ScanHooks(host, t.hooks, 0, CODE_PRE, address, s);
            var known := Recalled(s.machine.mem, p.machine.mem, past);
            var c := Core(isa, host, t.escapes, p, seq(n, _ => EMPTY_SLOT), address);
            var q := ScanHooks(host, t.hooks, 0, CODE_POST, address, c.scene);
            var lived := Lived(isa, host, t, s, past, n, until, count, executed, turns);
            if turns == 0 || Finished(s, until, count, executed) then lived == past
            else if p.stopped then lived == known
            else if c.verdict.FailedRun?
            then lived == Recalled(p.machine.mem, c.scene.machine.mem, Visited(p.machine, known))
            else if c.verdict.HaltedRun? then lived == Lasting(p, c.scene, q, known)
            else lived == Lived(isa, host, t, q, Lasting(p, c.scene, q, known), n, until, count, executed + 1,
                                turns - 1)
  {
    hide Core, ScanHooks, Finished, Recalled, Lasting, Visited;
  }

  lemma {:induction false} UnfoldLoop(isa: Isa, host: Host, t: Registry.Tables, s: Scene, slots: seq<Slot>,
      until: u64, count: nat,
                                      executed: nat, turns: nat, forget: bool)
    requires turns > 0
    ensures var address := s.machine.cpu.scalar.rip;
            var p := ScanHooks(host, t.hooks, 0, CODE_PRE, address, s);
            var c := Core(isa, host, t.escapes, p, if forget then Forgotten(slots) else slots, address);
            var q := ScanHooks(host, t.hooks, 0, CODE_POST, address, c.scene);
            var done := Loop(isa, host, t, s, slots, until, count, executed, turns, forget);
            if Finished(s, until, count, executed) then done == Some(Ending(s, slots, executed, Fine))
            else if p.stopped then done == Some(Ending(p, slots, executed, Fine))
            else if c.verdict.FailedRun? then done == Some(Ending(c.scene, c.slots, executed, c.verdict.error))
            else if c.verdict.HaltedRun? then done == Some(Ending(q, c.slots, executed, Fine))
            else done == Loop(isa, host, t, q, c.slots, until, count, executed + 1, turns - 1, forget)
  {
    hide Core, ScanHooks, Finished, Forgotten;
  }

  ghost predicate SameRun(a: Option<Ending>, b: Option<Ending>) {
    && a.Some? == b.Some?
    && (a.Some? ==> a.value.scene == b.value.scene && a.value.executed == b.value.executed
                    && a.value.error == b.value.error)
  }

  lemma {:induction false} ReadyTurn(m: Machine, past: set<Cpu>, address: u64)
    requires Resting(m.cpu) && m.cpu.scalar.rip == address
    requires !Pending(m.cpu) ==> WindowFetchable(m, address) && Settled(m, past)
    ensures Ready(m, past, address)
  {
    hide Resting, Pending, WindowFetchable, Settled;
  }

  lemma {:induction false} UnfoldForgotten(slots: seq<Slot>)
    ensures Forgotten(slots) == seq(|slots|, _ => EMPTY_SLOT)
  {
  }

  lemma {:induction false} NoTurns(isa: Isa, host: Host, t: Registry.Tables, s: Scene, slots: seq<Slot>, until: u64,
      count: nat,
                                   executed: nat, forget: bool)
    ensures Loop(isa, host, t, s, slots, until, count, executed, 0, forget) == None
  {
  }

  lemma {:induction false} SameRunIf(a: Option<Ending>, b: Option<Ending>)
    requires a.Some? == b.Some?
    requires a.Some? ==> a.value.scene == b.value.scene && a.value.executed == b.value.executed
                         && a.value.error == b.value.error
    ensures SameRun(a, b)
  {
  }

  lemma {:induction false} SameTurn(isa: Isa, host: Host, escapes: seq<Escape>, p: Scene, past: set<Cpu>,
      slots: seq<Slot>, n: nat, address: u64)
    requires WellBehaved(isa) && WellMannered(host) && Resting(p.machine.cpu)
    requires Sound(isa, p.machine.mem, past, slots)
    requires p.machine.cpu.scalar.rip == address
    requires !Pending(p.machine.cpu) ==> WindowFetchable(p.machine, address) && Settled(p.machine, past)
    requires CodeKept(p.machine.mem, Core(isa, host, escapes, p, seq(n, _ => EMPTY_SLOT), address).scene.machine.mem)
    ensures var c := Core(isa, host, escapes, p, slots, address);
            var d := Core(isa, host, escapes, p, seq(n, _ => EMPTY_SLOT), address);
            && c.scene == d.scene && c.verdict == d.verdict && |d.slots| == n
            && Sound(isa, c.scene.machine.mem, Recalled(p.machine.mem, c.scene.machine.mem, Visited(p.machine, past)),
                     c.slots)
            && Resting(c.scene.machine.cpu)
  {
    hide *;
    BehavedReplays(isa);
    ReadyTurn(p.machine, past, address);
    NothingUnsettled(p.machine);
    ReadyTurn(p.machine, {}, address);
    EmptySound(isa, p.machine.mem, n);
    CoreIsMeaning(isa, host, escapes, p, past, slots, address);
    CoreIsMeaning(isa, host, escapes, p, {}, seq(n, _ => EMPTY_SLOT), address);
    KeyedAgain(p.machine);
    MeaningResting(isa, host, escapes, p.(machine := Keyed(p.machine)), address);
    var c := Core(isa, host, escapes, p, slots, address);
    SoundKept(isa, p.machine.mem, c.scene.machine.mem, Visited(p.machine, past), c.slots);
  }

  /** The loop with a sound cache and its short cut makes the same run as the loop that fetches, classifies and
      decodes at every turn: same machine, same stop request, same hook and escape calls in the same order, same
      count, same result. With count 0 this holds for as many turns as one likes. */
  lemma {:induction false} ShortCutPreservesRuns(
      isa: Isa, host: Host, t: Registry.Tables, s: Scene, past: set<Cpu>, slots: seq<Slot>, other: seq<Slot>,
      until: u64, count: nat, executed: nat, turns: nat)
    requires WellBehaved(isa) && WellMannered(host) && Resting(s.machine.cpu)
    requires Sound(isa, s.machine.mem, past, slots)
    requires Orderly(isa, host, t, s, past, |other|, until, count, executed, turns)
    ensures var quick := Loop(isa, host, t, s, slots, until, count, executed, turns, false);
            && SameRun(quick, Loop(isa, host, t, s, other, until, count, executed, turns, true))
            && (quick.Some? ==> Sound(isa, quick.value.scene.machine.mem,
                                      Lived(isa, host, t, s, past, |other|, until, count, executed, turns),
                                      quick.value.slots)
                                && Resting(quick.value.scene.machine.cpu))
    decreases turns
  {
    hide *;
    var quick := Loop(isa, host, t, s, slots, until, count, executed, turns, false);
    var slow := Loop(isa, host, t, s, other, until, count, executed, turns, true);
    UnfoldLived(isa, host, t, s, past, |other|, until, count, executed, turns);
    if turns == 0 {
      NoTurns(isa, host, t, s, slots, until, count, executed, false);
      NoTurns(isa, host, t, s, other, until, count, executed, true);
      SameRunIf(quick, slow);
      return;
    }
    UnfoldLoop(isa, host, t, s, slots, until, count, executed, turns, false);
    UnfoldLoop(isa, host, t, s, other, until, count, executed, turns, true);
    if Finished(s, until, count, executed) {
      SameRunIf(quick, slow);
      return;
    }
    var address := s.machine.cpu.scalar.rip;
    var p := ScanHooks(host, t.hooks, 0, CODE_PRE, address, s);
    UnfoldOrderly(isa, host, t, s, past, |other|, until, count, executed, turns);
    ScanResting(host, t.hooks, 0, CODE_PRE, address, s);
    var known := Recalled(s.machine.mem, p.machine.mem, past);
    SoundKept(isa, s.machine.mem, p.machine.mem, past, slots);
    if p.stopped {
      SameRunIf(quick, slow);
      return;
    }
    UnfoldForgotten(other);
    SameTurn(isa, host, t.escapes, p, known, slots, |other|, address);
    var c := Core(isa, host, t.escapes, p, slots, address);
    var d := Core(isa, host, t.escapes, p, Forgotten(other), address);
    if c.verdict.FailedRun? {
      SameRunIf(quick, slow);
      return;
    }
    var q := ScanHooks(host, t.hooks, 0, CODE_POST, address, c.scene);
    ScanResting(host, t.hooks, 0, CODE_POST, address, c.scene);
    var turned := Recalled(p.machine.mem, c.scene.machine.mem, Visited(p.machine, known));
    SoundKept(isa, c.scene.machine.mem, q.machine.mem, turned, c.slots);
    UnfoldLasting(p, c.scene, q, known);
    if c.verdict.HaltedRun? {
      SameRunIf(quick, slow);
    } else {
      ShortCutPreservesRuns(isa, host, t, q, Lasting(p, c.scene, q, known), c.slots, d.slots, until, count,
                            executed + 1, turns - 1);
    }
  }

  // A hook that moves RIP.

  lemma {:induction false} EntryHoldsCode(isa: Isa, c: Cpu, code: seq<byte>)
    ensures DecodeAt(isa, c, code).bytes == [] || DecodeAt(isa, c, code).bytes == code
  {
    hide Classify, PrefixLength, OpcodeAt, ModeBits, ProbeSucceeds, ProbePayload, ProbeLength;
    var n := PrefixLength(ModeBits(c), code, 0);
    if n < |code| {
      ClassifyKeepsBytes(isa, ModeBits(c), code, n, OpcodeAt(code, n));
    }
  }

  lemma {:induction false} MissWith(isa: Isa, k: Machine, slots: seq<Slot>, code: seq<byte>)
    requires |code| == 15 && DecodeAt(isa, k.cpu, code).bytes != []
    ensures Miss(isa, k, slots, code).slots
            == Fill(slots, k.mem.codeVersion, k.cpu.scalar.rip, k.cpu.modeKeyBits, DecodeAt(isa, k.cpu, code))
  {
    hide DecodeAt, RunDecoded, Fill;
  }

  lemma {:induction false} FilledSlot(slots: seq<Slot>, version: u64, rip: u64, mode: nat, e: Entry)
    requires |slots| == 0x8000
    ensures var after := Fill(slots, version, rip, mode, e);
            |after| == 0x8000 && after[Index(rip)] == Slot(rip, version, mode, e)
  {
    hide Index;
  }

  lemma {:induction false} WrongEntryUnsound(isa: Isa, mem: Mem, past: set<Cpu>, slot: Slot, code: seq<byte>)
    requires slot.version == mem.codeVersion && slot.mode % 2 == 1
    requires slot.entry.bytes == code && code != [] && code != Window(mem, slot.tag)
    ensures !SlotSound(isa, mem, past, slot)
  {
    hide DecodeAt, Window, Visible, ReadyToDecode, ModeBits;
    if SlotSound(isa, mem, past, slot) {
      var c :| c in past && DecodedBy(isa, mem, slot, c);
      EntryHoldsCode(isa, c, Window(mem, slot.tag));
    }
  }

  /** A miss in the run loop after a hook has moved RIP: the loop fetches at the address it had, and the bytes there
      are a whole window that is no escape and decodes. */
  ghost predicate MovedMiss(isa: Isa, m: Machine, slots: seq<Slot>, address: u64) {
    var k := Keyed(m);
    && Resting(m.cpu) && !Pending(m.cpu) && WindowFetchable(m, address) && |slots| == 0x8000
    && ClassifyEscape(ModeBits(m.cpu), Window(m.mem, address)) == NoEscape
    && ShortCut(slots, k, address) == None
    && Find(slots, k.mem.codeVersion, k.cpu.scalar.rip, k.cpu.modeKeyBits) == None
    && DecodeAt(isa, k.cpu, Window(k.mem, address)).bytes != []
  }

  lemma {:induction false} UnfoldMoved(isa: Isa, m: Machine, slots: seq<Slot>, address: u64)
    requires MovedMiss(isa, m, slots, address)
    ensures Resting(m.cpu) && !Pending(m.cpu) && WindowFetchable(m, address) && |slots| == 0x8000
    ensures ClassifyEscape(ModeBits(m.cpu), Window(m.mem, address)) == NoEscape
    ensures var k := Keyed(m);
            && ShortCut(slots, k, address) == None
            && Find(slots, k.mem.codeVersion, k.cpu.scalar.rip, k.cpu.modeKeyBits) == None
            && DecodeAt(isa, k.cpu, Window(k.mem, address)).bytes != []
  {
    hide Resting, Pending, WindowFetchable, ClassifyEscape, ShortCut, Find, DecodeAt, Window, Keyed;
  }

  /** The entry decoded at the old address is filed under the new one. */
  lemma {:induction false} MovedFill(isa: Isa, host: Host, escapes: seq<Escape>, p: Scene, slots: seq<Slot>,
      address: u64)
    requires MovedMiss(isa, p.machine, slots, address)
    ensures var k := Keyed(p.machine);
            Core(isa, host, escapes, p, slots, address).slots
            == Fill(slots, k.mem.codeVersion, k.cpu.scalar.rip, k.cpu.modeKeyBits,
                    DecodeAt(isa, k.cpu, Window(p.machine.mem, address)))
  {
    hide *;
    UnfoldMoved(isa, p.machine, slots, address);
    var k, code := Keyed(p.machine), Window(p.machine.mem, address);
    KeyedAgain(p.machine);
    KeyedReady(p.machine);
    UnfoldWindow(p.machine, address);
    UnfoldWindow(k, address);
    UnfoldCore(isa, host, escapes, p, slots, address);
    FetchableVisible(k, address);
    WindowHead(k.mem, address);
    NothingToEscape(host.onEscape, escapes, k, address, code);
    UnfoldSlow(isa, host, escapes, p.(machine := k), slots, address);
    UnfoldStep(isa, k, slots, code);
    MissWith(isa, k, slots, code);
  }

  /** The reason hooks must leave RIP alone: after such a miss the cache is still sound exactly when the bytes at
      the new RIP are the bytes at the old address. */
  lemma {:induction false} MovedRipPoisonsCache(isa: Isa, host: Host, escapes: seq<Escape>, p: Scene,
      past: set<Cpu>, slots: seq<Slot>, address: u64)
    requires MovedMiss(isa, p.machine, slots, address)
    requires Sound(isa, p.machine.mem, past, slots) && Visible(p.machine.mem, p.machine.cpu.scalar.rip)
    ensures Sound(isa, p.machine.mem, Visited(p.machine, past), Core(isa, host, escapes, p, slots, address).slots)
            <==> Window(p.machine.mem, address) == Window(p.machine.mem, p.machine.cpu.scalar.rip)
  {
    hide *;
    UnfoldMoved(isa, p.machine, slots, address);
    var k, code := Keyed(p.machine), Window(p.machine.mem, address);
    KeyedAgain(p.machine);
    KeyedReady(p.machine);
    UnfoldVisited(p.machine, past);
    MovedFill(isa, host, escapes, p, slots, address);
    WindowHead(k.mem, address);
    EntryHoldsCode(isa, k.cpu, code);
    var rip, e := k.cpu.scalar.rip, DecodeAt(isa, k.cpu, code);
    if code == Window(k.mem, rip) {
      SoundMore(isa, k.mem, past, Visited(p.machine, past), slots);
      FillSound(isa, k, Visited(p.machine, past), slots, e);
    } else {
      FilledSlot(slots, k.mem.codeVersion, rip, k.cpu.modeKeyBits, e);
      WrongEntryUnsound(isa, k.mem, Visited(p.machine, past), Slot(rip, k.mem.codeVersion, k.cpu.modeKeyBits, e), code);
      var after := Core(isa, host, escapes, p, slots, address).slots;
      if Sound(isa, k.mem, Visited(p.machine, past), after) {
        UnfoldSound(isa, k.mem, Visited(p.machine, past), after, Index(rip));
      }
    }
  }

  /** What comes of it: whoever reaches the new RIP later, in this mode and under this code version, runs the
      instruction of the old address there, whatever memory holds. */
  lemma {:induction false} MovedRipRunsOldCode(isa: Isa, host: Host, escapes: seq<Escape>, p: Scene,
      slots: seq<Slot>, address: u64, later: Machine)
    requires MovedMiss(isa, p.machine, slots, address)
    requires Resting(later.cpu) && !Pending(later.cpu) && later.cpu.scalar.rip == p.machine.cpu.scalar.rip
    requires ModeBits(later.cpu) == ModeBits(p.machine.cpu) && later.mem.codeVersion == p.machine.mem.codeVersion
    ensures var out := Step(isa, later, Core(isa, host, escapes, p, slots, address).slots, []);
            (out.machine, out.code)
            == RunDecoded(isa, Keyed(later),
                          DecodeAt(isa, Keyed(p.machine).cpu, Window(p.machine.mem, address)))
  {
    hide *;
    UnfoldMoved(isa, p.machine, slots, address);
    KeyedReady(p.machine);
    KeyedReady(later);
    MovedFill(isa, host, escapes, p, slots, address);
    var k := Keyed(p.machine);
    var e := DecodeAt(isa, k.cpu, Window(p.machine.mem, address));
    FilledHit(slots, k.mem.codeVersion, k.cpu.scalar.rip, k.cpu.modeKeyBits, e);
    UnfoldStep(isa, later, Core(isa, host, escapes, p, slots, address).slots, []);
  }

  lemma {:induction false} FilledHit(slots: seq<Slot>, version: u64, rip: u64, mode: nat, e: Entry)
    requires |slots| == 0x8000
    ensures Find(Fill(slots, version, rip, mode, e), version, rip, mode) == Some(e)
  {
    hide Index;
  }

  /** The encodings that bypass the prefix scan begin with 62, C4 or C5. */
  ghost predicate PlainJumps(isa: Isa) {
    forall code: seq<byte> :: |code| == 15 && code[0] == 0x70 ==> isa.special(code) == None
  }

  lemma {:induction false} JumpEntry(isa: Isa, c: Cpu, code: seq<byte>)
    requires PlainJumps(isa) && |code| == 15 && code[0] == 0x70 && LongCodeBit(ModeBits(c))
    ensures var e := DecodeAt(isa, c, code);
            && e.bytes == code && !e.ud && !e.bp && !e.db && e.inline == JccShort && e.notEscape && !e.noFault
            && e.condition == 0 && e.displacement == SignedByte(code[1]) && e.segmentOverride == NoOverride
  {
    hide ClassifyNoFault, BranchOpcode, AluRoute, RetOperandSize, LittleEndian, Ladder, ModeBits, ProbeSucceeds,
      LongCodeBit;
    assert isa.special(code) == None;
    assert PrefixLength(ModeBits(c), code, 0) == 0;
  }

  lemma {:induction false} JumpRun(isa: Isa, k: Machine, e: Entry)
    requires !Pending(k.cpu) && e.bytes != [] && !e.ud && !e.bp && !e.db && e.inline == JccShort
    ensures RunDecoded(isa, k, e).0.cpu.exception.code in {NoException, GP}
  {
    hide Flags.EvalJcc, Canonical, Wrap;
  }

  /** For instance a jump at the old address and INT3 at the new one: the later step jumps, where an engine without
      a cache raises #BP. */
  lemma {:induction false} MovedRipMissesBreakpoint(isa: Isa, host: Host, escapes: seq<Escape>, p: Scene,
      slots: seq<Slot>, address: u64, later: Machine)
    requires MovedMiss(isa, p.machine, slots, address) && PlainBreakpoints(isa) && PlainJumps(isa)
    requires Resting(later.cpu) && !Pending(later.cpu) && later.cpu.scalar.rip == p.machine.cpu.scalar.rip
    requires ModeBits(later.cpu) == ModeBits(p.machine.cpu) && later.mem.codeVersion == p.machine.mem.codeVersion
    requires LongCodeBit(ModeBits(later.cpu)) && WindowFetchable(later, later.cpu.scalar.rip)
    requires ByteAt(p.machine.mem, address) == 0x70 && ByteAt(later.mem, later.cpu.scalar.rip) == 0xCC
    ensures var after := Core(isa, host, escapes, p, slots, address).slots;
            && Step(isa, later, after, []).machine.cpu.exception.code in {NoException, GP}
            && Step(isa, later, [], []).machine.cpu.exception.code == BP
  {
    hide *;
    MovedRipRunsOldCode(isa, host, escapes, p, slots, address, later);
    UnfoldMoved(isa, p.machine, slots, address);
    KeyedReady(later);
    KeyedReady(p.machine);
    var l, rip := Keyed(later), later.cpu.scalar.rip;
    WindowHead(p.machine.mem, address);
    WindowHead(later.mem, rip);
    JumpEntry(isa, Keyed(p.machine).cpu, Window(p.machine.mem, address));
    JumpRun(isa, l, DecodeAt(isa, Keyed(p.machine).cpu, Window(p.machine.mem, address)));
    BreakpointEntry(isa, l.cpu, Window(later.mem, rip));
    UnfoldWindow(later, rip);
    UnfoldWindow(l, rip);
    UncachedStep(isa, later, []);
    MissDecodes(isa, l, [], []);
    BreakpointRun(isa, l, DecodeAt(isa, l.cpu, Window(later.mem, rip)));
  }
}
