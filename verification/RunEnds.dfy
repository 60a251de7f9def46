/** Where a run starts and where it ends: at the first turn before which the count is used up, RIP stands at the
    address to stop at, or a stop was asked for, and not before, unless an instruction fails. */
module RunEnds {
  import opened Bits
  import opened MemoryManagement
  import opened CpuState
  import opened Fetch
  import opened Decoder
  import opened Executor
  import opened InstCache
  import opened Registry
  import opened Escapes
  import opened RunLoop

  /** Nothing keeps another turn from starting here. */
  predicate MayGo(s: Scene, until: u64, count: nat, executed: nat) {
    && (count == 0 || executed < count)
    && (until == 0 || s.machine.cpu.scalar.rip != until)
    && !s.stopped
  }

  lemma {:induction false} GoesOrStops(s: Scene, until: u64, count: nat, executed: nat)
    ensures Finished(s, until, count, executed) <==> !MayGo(s, until, count, executed)
  {
  }

  // How steps end.

  /** What a step that is no success reports, and the error that a run makes of it. */
  predicate Failure(code: StepCode, after: Machine, error: EmuError) {
    && code in {StepException, StepFetchError}
    && (code == StepException <==> Pending(after.cpu))
    && error == if code == StepFetchError then FetchUnmapped
                else if after.cpu.exception.code == PF then PageFaultOutcome(after.cpu.exception.error)
                else ExceptionError
  }

  lemma {:induction false} DecodedOutcome(isa: Isa, m: Machine, e: Entry)
    ensures var (after, code) := RunDecoded(isa, m, e);
            && code in {StepOk, StepException, StepFetchError} && (code == StepException <==> Pending(after.cpu))
  {
    hide Dispatch;
    StepCodes(isa, m, e);
  }

  lemma {:induction false} StepOutcome(isa: Isa, m: Machine, slots: seq<Slot>, prefetched: seq<byte>)
    ensures var out := Step(isa, m, slots, prefetched);
            && out.code in {StepOk, StepException, StepFetchError}
            && (out.code == StepException <==> Pending(out.machine.cpu))
  {
    hide RunDecoded, CodeFor, AfterFetch, DecodeAt, Find, PrimeModeKey, Pending;
    if !Pending(m.cpu) {
      var k := Keyed(m);
      match Find(slots, k.mem.codeVersion, k.cpu.scalar.rip, k.cpu.modeKeyBits)
      case Some(e) => DecodedOutcome(isa, k, e);
      case None =>
        var fetched := AfterFetch(k, prefetched);
        DecodedOutcome(isa, fetched, DecodeAt(isa, fetched.cpu, CodeFor(k, prefetched)));
    }
  }

  /** The loops take success for a turn and anything else for a failure; they never see HLT. */
  lemma {:induction false} VerdictOf(code: StepCode, after: Machine)
    requires code in {StepOk, StepException, StepFetchError} && (code == StepException <==> Pending(after.cpu))
    ensures var verdict := StepVerdict(code, after.cpu.exception);
            && (code == StepOk <==> verdict.Counted?)
            && (code != StepOk <==> verdict.FailedRun?)
            && (verdict.FailedRun? ==> verdict.error != Fine && Failure(code, after, verdict.error))
  {
  }

  // The loop without hooks.

  /** The scene and the cache after some instructions, one behind the other, whatever the loop would say. */
  function Steps(isa: Isa, s: Scene, slots: seq<Slot>, k: nat): (Scene, seq<Slot>)
    decreases k
  {
    if k == 0 then (s, slots)
    else
      var out := Step(isa, s.machine, slots, []);
      Steps(isa, s.(machine := out.machine), out.slots, k - 1)
  }

  /** How the instruction behind the first k ends. */
  function StepAfter(isa: Isa, s: Scene, slots: seq<Slot>, k: nat): StepCode {
    var (t, more) := Steps(isa, s, slots, k);
    Step(isa, t.machine, more, []).code
  }

  lemma {:induction false} LaterStep(isa: Isa, s: Scene, slots: seq<Slot>, k: nat)
    ensures var out := Step(isa, s.machine, slots, []);
            var next := s.(machine := out.machine);
            && Steps(isa, s, slots, k + 1) == Steps(isa, next, out.slots, k)
            && StepAfter(isa, s, slots, k + 1) == StepAfter(isa, next, out.slots, k)
    ensures Steps(isa, s, slots, 0) == (s, slots)
    ensures StepAfter(isa, s, slots, 0) == Step(isa, s.machine, slots, []).code
  {
    hide Step;
  }

  lemma {:induction false} OneTurn(isa: Isa, s: Scene, slots: seq<Slot>, until: u64, count: nat, executed: nat,
      turns: nat)
    requires turns > 0
    ensures var out := Step(isa, s.machine, slots, []);
            var next := s.(machine := out.machine);
            var done := Direct(isa, s, slots, until, count, executed, turns);
            if !MayGo(s, until, count, executed) then done == Some(Ending(s, slots, executed, Fine))
            else if out.code == StepOk then done == Direct(isa, next, out.slots, until, count, executed + 1, turns - 1)
            else done.Some? && done.value == Ending(next, out.slots, executed, done.value.error)
                 && done.value.error != Fine && Failure(out.code, out.machine, done.value.error)
  {
    hide Step, Finished, MayGo, StepVerdict, Failure;
    GoesOrStops(s, until, count, executed);
    var out := Step(isa, s.machine, slots, []);
    StepOutcome(isa, s.machine, slots, []);
    VerdictOf(out.code, out.machine);
  }

  /** The turn behind the first k started, and was none at the address to stop at. */
  predicate Went(isa: Isa, s: Scene, slots: seq<Slot>, until: u64, count: nat, executed: nat, k: nat) {
    MayGo(Steps(isa, s, slots, k).0, until, count, executed + k)
  }

  /** It did, and its instruction ended well. */
  predicate Passed(isa: Isa, s: Scene, slots: seq<Slot>, until: u64, count: nat, executed: nat, k: nat) {
    Went(isa, s, slots, until, count, executed, k) && StepAfter(isa, s, slots, k) == StepOk
  }

  /** A run without hooks that ends has executed the instructions it counts, each of them started while there was
      no reason to stop. It ends well where such a reason is, and at no other place; it fails with the one
      instruction behind those it counts. */
  lemma {:induction false} DirectEnds(isa: Isa, s: Scene, slots: seq<Slot>, until: u64, count: nat, executed: nat,
      turns: nat)
    requires Direct(isa, s, slots, until, count, executed, turns).Some?
    ensures var e := Direct(isa, s, slots, until, count, executed, turns).value;
            && e.executed >= executed
            && (forall j: nat :: j < e.executed - executed ==> Passed(isa, s, slots, until, count, executed, j))
            && (e.error == Fine ==>
                  && (e.scene, e.slots) == Steps(isa, s, slots, e.executed - executed)
                  && ((count != 0 && e.executed >= count)
                      || (until != 0 && e.scene.machine.cpu.scalar.rip == until) || s.stopped))
            && (e.error != Fine ==>
                  && (e.scene, e.slots) == Steps(isa, s, slots, e.executed - executed + 1)
                  && Went(isa, s, slots, until, count, executed, e.executed - executed)
                  && Failure(StepAfter(isa, s, slots, e.executed - executed), e.scene.machine, e.error))
    decreases turns
  {
    hide Direct, Step, Steps, StepAfter, Failure, Went, MayGo;
    SomeTurn(isa, s, slots, until, count, executed, turns);
    OneTurn(isa, s, slots, until, count, executed, turns);
    LaterStep(isa, s, slots, 0);
    UnfoldGo(s, until, count, executed);
    UnfoldWent(isa, s, slots, until, count, executed, 0);
    var out := Step(isa, s.machine, slots, []);
    var next := s.(machine := out.machine);
    if MayGo(s, until, count, executed) && out.code == StepOk {
      DirectEnds(isa, next, out.slots, until, count, executed + 1, turns - 1);
      var e := Direct(isa, s, slots, until, count, executed, turns).value;
      var k := e.executed - (executed + 1);
      forall j: nat | j < k + 1
        ensures Passed(isa, s, slots, until, count, executed, j)
      {
        if j > 0 {
          LaterPassed(isa, s, slots, until, count, executed, j - 1);
        }
      }
      LaterStep(isa, s, slots, k);
      LaterStep(isa, s, slots, k + 1);
      LaterWent(isa, s, slots, until, count, executed, k);
    } else {
      LaterStep(isa, next, out.slots, 0);
      LaterStep(isa, s, slots, 0);
    }
  }

  lemma {:induction false} SomeTurn(isa: Isa, s: Scene, slots: seq<Slot>, until: u64, count: nat, executed: nat,
      turns: nat)
    ensures Direct(isa, s, slots, until, count, executed, turns).Some? ==> turns > 0
  {
    hide Step, Finished;
  }

  lemma {:induction false} UnfoldGo(s: Scene, until: u64, count: nat, executed: nat)
    ensures !MayGo(s, until, count, executed) <==>
            (count != 0 && executed >= count) || (until != 0 && s.machine.cpu.scalar.rip == until) || s.stopped
  {
  }

  lemma {:induction false} UnfoldWent(isa: Isa, s: Scene, slots: seq<Slot>, until: u64, count: nat, executed: nat,
      k: nat)
    ensures Went(isa, s, slots, until, count, executed, k)
            == MayGo(Steps(isa, s, slots, k).0, until, count, executed + k)
  {
    hide Steps, MayGo;
  }

  lemma {:induction false} LaterWent(isa: Isa, s: Scene, slots: seq<Slot>, until: u64, count: nat, executed: nat,
      k: nat)
    ensures var out := Step(isa, s.machine, slots, []);
            Went(isa, s, slots, until, count, executed, k + 1)
            == Went(isa, s.(machine := out.machine), out.slots, until, count, executed + 1, k)
  {
    hide Steps, MayGo, Step;
    LaterStep(isa, s, slots, k);
  }

  lemma {:induction false} LaterPassed(isa: Isa, s: Scene, slots: seq<Slot>, until: u64, count: nat, executed: nat,
      k: nat)
    ensures var out := Step(isa, s.machine, slots, []);
            Passed(isa, s, slots, until, count, executed, k + 1)
            == Passed(isa, s.(machine := out.machine), out.slots, until, count, executed + 1, k)
  {
    hide Steps, MayGo, Step, Went, StepAfter;
    LaterWent(isa, s, slots, until, count, executed, k);
    LaterStep(isa, s, slots, k);
  }

  /** The other way round: with enough turns, the first reason to stop ends the run, having executed what comes
      before it and nothing else. */
  lemma {:induction false} DirectStops(isa: Isa, s: Scene, slots: seq<Slot>, until: u64, count: nat, executed: nat,
      turns: nat, k: nat)
    requires turns > k
    requires forall j: nat :: j < k ==> Passed(isa, s, slots, until, count, executed, j)
    requires !Went(isa, s, slots, until, count, executed, k)
    ensures var (t, more) := Steps(isa, s, slots, k);
            Direct(isa, s, slots, until, count, executed, turns) == Some(Ending(t, more, executed + k, Fine))
    decreases k
  {
    hide Direct, Step, Steps, StepAfter, Went, MayGo, Failure;
    OneTurn(isa, s, slots, until, count, executed, turns);
    LaterStep(isa, s, slots, 0);
    UnfoldWent(isa, s, slots, until, count, executed, 0);
    if k > 0 {
      assert Passed(isa, s, slots, until, count, executed, 0);
      var out := Step(isa, s.machine, slots, []);
      var next, after := s.(machine := out.machine), executed + 1;
      forall j: nat | j < k - 1
        ensures Passed(isa, next, out.slots, until, count, after, j)
      {
        LaterPassed(isa, s, slots, until, count, executed, j);
        assert Passed(isa, s, slots, until, count, executed, j + 1);
      }
      LaterWent(isa, s, slots, until, count, executed, k - 1);
      LaterStep(isa, s, slots, k - 1);
      DirectStops(isa, next, out.slots, until, count, after, turns - 1, k - 1);
    }
  }

  // The loop with hooks and escapes.

  /** The hooks in front of a turn, its instruction, and the hooks behind it. */
  function Round(isa: Isa, host: Host, t: Registry.Tables, s: Scene, slots: seq<Slot>, forget: bool): Turned {
    var address := s.machine.cpu.scalar.rip;
    var p := ScanHooks(host, t.hooks, 0, CODE_PRE, address, s);
    var c := Core(isa, host, t.escapes, p, if forget then Forgotten(slots) else slots, address);
    Turned(ScanHooks(host, t.hooks, 0, CODE_POST, address, c.scene), c.slots, c.verdict)
  }

  function Rounds(isa: Isa, host: Host, t: Registry.Tables, s: Scene, slots: seq<Slot>, forget: bool, k: nat)
    : (Scene, seq<Slot>)
    decreases k
  {
    if k == 0 then (s, slots)
    else
      var r := Round(isa, host, t, s, slots, forget);
      Rounds(isa, host, t, r.scene, r.slots, forget, k - 1)
  }

  lemma {:induction false} CoreVerdict(isa: Isa, host: Host, escapes: seq<Escape>, s: Scene, slots: seq<Slot>,
      address: u64)
    ensures var verdict := Core(isa, host, escapes, s, slots, address).verdict;
            !verdict.HaltedRun? && (verdict.FailedRun? ==> verdict.error != Fine)
  {
    hide Dispatch, Step, TryEscape, Find, PrimeModeKey, FetchedBytes, Fetched, StepVerdict, Pending, AfterEscape,
      Failure;
    var k := s.(machine := Keyed(s.machine));
    match ShortCut(slots, k.machine, address)
    case Some(e) =>
      StepCodes(isa, k.machine, e);
      var (m, code) := RunCached(isa, k.machine, e);
      VerdictOf(code, m);
    case None =>
      match TryEscape(host.onEscape, escapes, Fetched(k.machine, address), address, FetchedBytes(k.machine, address))
      case Taken(_, _, _, _) =>
      case NotTaken(m) =>
        StepOutcome(isa, m, slots, FetchedBytes(k.machine, address));
        var out := Step(isa, m, slots, FetchedBytes(k.machine, address));
        VerdictOf(out.code, out.machine);
  }

  /** The hooks in front of a turn let it go on, and its instruction counted. */
  predicate Counts(isa: Isa, host: Host, t: Registry.Tables, s: Scene, slots: seq<Slot>, forget: bool) {
    && !ScanHooks(host, t.hooks, 0, CODE_PRE, s.machine.cpu.scalar.rip, s).stopped
    && Round(isa, host, t, s, slots, forget).verdict.Counted?
  }

  lemma {:induction false} OneRound(isa: Isa, host: Host, t: Registry.Tables, s: Scene, slots: seq<Slot>, until: u64,
      count: nat, executed: nat, turns: nat, forget: bool)
    requires turns > 0
    ensures var r := Round(isa, host, t, s, slots, forget);
            var p := ScanHooks(host, t.hooks, 0, CODE_PRE, s.machine.cpu.scalar.rip, s);
            var done := Loop(isa, host, t, s, slots, until, count, executed, turns, forget);
            if !MayGo(s, until, count, executed) then done == Some(Ending(s, slots, executed, Fine))
            else if p.stopped then done == Some(Ending(p, slots, executed, Fine))
            else if Counts(isa, host, t, s, slots, forget) then
              done == Loop(isa, host, t, r.scene, r.slots, until, count, executed + 1, turns - 1, forget)
            else done.Some? && done.value.executed == executed && done.value.error != Fine
  {
    hide Core, ScanHooks, Finished, MayGo, Forgotten;
    GoesOrStops(s, until, count, executed);
    var address := s.machine.cpu.scalar.rip;
    CoreVerdict(isa, host, t.escapes, ScanHooks(host, t.hooks, 0, CODE_PRE, address, s),
                if forget then Forgotten(slots) else slots, address);
  }

  /** The turn behind the first k started while there was no reason to stop, went on and counted. */
  predicate Completed(isa: Isa, host: Host, t: Registry.Tables, s: Scene, slots: seq<Slot>, until: u64, count: nat,
      executed: nat, forget: bool, k: nat) {
    var (now, more) := Rounds(isa, host, t, s, slots, forget, k);
    MayGo(now, until, count, executed + k) && Counts(isa, host, t, now, more, forget)
  }

  lemma {:induction false} LaterRound(isa: Isa, host: Host, t: Registry.Tables, s: Scene, slots: seq<Slot>, until: u64,
      count: nat, executed: nat, forget: bool, k: nat)
    ensures var r := Round(isa, host, t, s, slots, forget);
            && Rounds(isa, host, t, s, slots, forget, k + 1) == Rounds(isa, host, t, r.scene, r.slots, forget, k)
            && Completed(isa, host, t, s, slots, until, count, executed, forget, k + 1)
               == Completed(isa, host, t, r.scene, r.slots, until, count, executed + 1, forget, k)
    ensures Rounds(isa, host, t, s, slots, forget, 0) == (s, slots)
    ensures Completed(isa, host, t, s, slots, until, count, executed, forget, 0)
            == (MayGo(s, until, count, executed) && Counts(isa, host, t, s, slots, forget))
  {
    hide Round, Counts, MayGo;
  }

  lemma {:induction false} SomeRound(isa: Isa, host: Host, t: Registry.Tables, s: Scene, slots: seq<Slot>, until: u64,
      count: nat, executed: nat, turns: nat, forget: bool)
    ensures Loop(isa, host, t, s, slots, until, count, executed, turns, forget).Some? ==> turns > 0
  {
    hide Core, ScanHooks, Finished, Forgotten;
  }

  /** An ending that the scene behind the counted turns explains: a reason to stop there, one that a hook in front
      of the next turn gave, or a failure of that turn. */
  predicate EndedAfter(host: Host, t: Registry.Tables, now: Scene, more: seq<Slot>, until: u64, count: nat, e: Ending) {
    var hooked := ScanHooks(host, t.hooks, 0, CODE_PRE, now.machine.cpu.scalar.rip, now);
    && (e.error == Fine ==>
          && e.slots == more && (e.scene == now || (e.scene == hooked && hooked.stopped))
          && ((count != 0 && e.executed >= count)
              || (until != 0 && e.scene.machine.cpu.scalar.rip == until) || e.scene.stopped))
    && (e.error != Fine ==>
          && (count == 0 || e.executed < count) && (until == 0 || now.machine.cpu.scalar.rip != until)
          && !now.stopped && !hooked.stopped)
  }

  lemma {:induction false} EndsHere(isa: Isa, host: Host, t: Registry.Tables, s: Scene, slots: seq<Slot>, until: u64,
      count: nat, executed: nat, turns: nat, forget: bool)
    requires turns > 0 && !(MayGo(s, until, count, executed) && Counts(isa, host, t, s, slots, forget))
    ensures var done := Loop(isa, host, t, s, slots, until, count, executed, turns, forget);
            done.Some? && done.value.executed == executed && EndedAfter(host, t, s, slots, until, count, done.value)
  {
    hide Loop, Round, Counts, ScanHooks;
    OneRound(isa, host, t, s, slots, until, count, executed, turns, forget);
  }

  /** A run with hooks and escapes that ends has completed the turns it counts, none of which started where there
      was a reason to stop. It ends well where such a reason is, or where a hook in front of the next turn gives it
      one, and at no other place. */
  lemma {:induction false} LoopEnds(isa: Isa, host: Host, t: Registry.Tables, s: Scene, slots: seq<Slot>, until: u64,
      count: nat, executed: nat, turns: nat, forget: bool)
    requires Loop(isa, host, t, s, slots, until, count, executed, turns, forget).Some?
    ensures var e := Loop(isa, host, t, s, slots, until, count, executed, turns, forget).value;
            && e.executed >= executed
            && (forall j: nat :: j < e.executed - executed ==>
                  Completed(isa, host, t, s, slots, until, count, executed, forget, j))
            && var (now, more) := Rounds(isa, host, t, s, slots, forget, e.executed - executed);
               EndedAfter(host, t, now, more, until, count, e)
    decreases turns
  {
    hide Loop, Round, Rounds, Counts, Completed, MayGo, EndedAfter;
    SomeRound(isa, host, t, s, slots, until, count, executed, turns, forget);
    LaterRound(isa, host, t, s, slots, until, count, executed, forget, 0);
    if MayGo(s, until, count, executed) && Counts(isa, host, t, s, slots, forget) {
      OneRound(isa, host, t, s, slots, until, count, executed, turns, forget);
      UnfoldCounts(isa, host, t, s, slots, forget);
      var r, one := Round(isa, host, t, s, slots, forget), executed + 1;
      LoopEnds(isa, host, t, r.scene, r.slots, until, count, one, turns - 1, forget);
      var e := Loop(isa, host, t, s, slots, until, count, executed, turns, forget).value;
      forall j: nat | j < e.executed - executed
        ensures Completed(isa, host, t, s, slots, until, count, executed, forget, j)
      {
        if j > 0 {
          LaterRound(isa, host, t, s, slots, until, count, executed, forget, j - 1);
        }
      }
      LaterRound(isa, host, t, s, slots, until, count, executed, forget, e.executed - one);
    } else {
      EndsHere(isa, host, t, s, slots, until, count, executed, turns, forget);
    }
  }

  lemma {:induction false} UnfoldCounts(isa: Isa, host: Host, t: Registry.Tables, s: Scene, slots: seq<Slot>,
      forget: bool)
    ensures Counts(isa, host, t, s, slots, forget) ==>
              !ScanHooks(host, t.hooks, 0, CODE_PRE, s.machine.cpu.scalar.rip, s).stopped
  {
    hide ScanHooks, Round;
  }

  /** And the first reason to stop ends it. */
  lemma {:induction false} LoopStops(isa: Isa, host: Host, t: Registry.Tables, s: Scene, slots: seq<Slot>, until: u64,
      count: nat, executed: nat, turns: nat, forget: bool, k: nat)
    requires turns > k
    requires forall j: nat :: j < k ==> Completed(isa, host, t, s, slots, until, count, executed, forget, j)
    requires !MayGo(Rounds(isa, host, t, s, slots, forget, k).0, until, count, executed + k)
    ensures var (now, more) := Rounds(isa, host, t, s, slots, forget, k);
            Loop(isa, host, t, s, slots, until, count, executed, turns, forget)
            == Some(Ending(now, more, executed + k, Fine))
    decreases k
  {
    hide Loop, Round, Rounds, Counts, Completed, MayGo, ScanHooks;
    OneRound(isa, host, t, s, slots, until, count, executed, turns, forget);
    LaterRound(isa, host, t, s, slots, until, count, executed, forget, 0);
    UnfoldCounts(isa, host, t, s, slots, forget);
    if k > 0 {
      assert Completed(isa, host, t, s, slots, until, count, executed, forget, 0);
      var r, one := Round(isa, host, t, s, slots, forget), executed + 1;
      forall j: nat | j < k - 1
        ensures Completed(isa, host, t, r.scene, r.slots, until, count, one, forget, j)
      {
        LaterRound(isa, host, t, s, slots, until, count, executed, forget, j);
        assert Completed(isa, host, t, s, slots, until, count, executed, forget, j + 1);
      }
      LaterRound(isa, host, t, s, slots, until, count, executed, forget, k - 1);
      LoopStops(isa, host, t, r.scene, r.slots, until, count, one, turns - 1, forget, k - 1);
    }
  }

  // Whole runs.

  /** Standing at the address to stop at, either loop ends at once: no error, nothing executed, nothing called. */
  lemma {:induction false} NothingRuns(isa: Isa, host: Host, t: Registry.Tables, s: Scene, slots: seq<Slot>,
      until: u64, count: nat, executed: nat, turns: nat, forget: bool)
    requires turns > 0 && until != 0 && s.machine.cpu.scalar.rip == until
    ensures Direct(isa, s, slots, until, count, executed, turns) == Some(Ending(s, slots, executed, Fine))
    ensures Loop(isa, host, t, s, slots, until, count, executed, turns, forget)
            == Some(Ending(s, slots, executed, Fine))
  {
    hide Step, StepVerdict, Core, ScanHooks, Forgotten;
  }

  /** cpueaxh_emu_start with nothing to do leaves the machine as it found it, but for RIP and the exception. */
  lemma {:induction false} StartAtUntil(isa: Isa, host: Host, t: Registry.Tables, m: Machine, slots: seq<Slot>,
      begin: u64, until: u64, count: nat, turns: nat)
    requires turns > 0 && until != 0
    requires begin == until || (begin == 0 && m.cpu.scalar.rip == until)
    ensures EmuStart(isa, host, t, m, slots, begin, until, count, turns)
            == Some(Ending(Scene(m.(cpu := m.cpu.(exception := Exception(NoException, 0),
                                                  scalar := m.cpu.scalar.(rip := until))), [], false),
                           slots, 0, Fine))
  {
    hide Direct, Loop;
    NothingRuns(isa, host, t, Started(m, begin), slots, until, count, 0, turns, false);
  }

  /** A run begins at the address given, or where RIP stands when that is zero, without an exception, and changes
      nothing else before its first turn. Whichever loop runs, it ends well only with the count reached, at the
      address to stop at, or because it was asked to. */
  lemma {:induction false} StartEnds(isa: Isa, host: Host, t: Registry.Tables, m: Machine, slots: seq<Slot>, begin: u64,
      until: u64, count: nat, turns: nat)
    requires EmuStart(isa, host, t, m, slots, begin, until, count, turns).Some?
    requires EmuStart(isa, host, t, m, slots, begin, until, count, turns).value.error == Fine
    ensures var e := EmuStart(isa, host, t, m, slots, begin, until, count, turns).value;
            var first := Scene(m.(cpu := m.cpu.(
                                    exception := Exception(NoException, 0),
                                    scalar := m.cpu.scalar.(rip := if begin == 0 then m.cpu.scalar.rip else begin))),
                               [], false);
            && ((count != 0 && e.executed >= count) || (until != 0 && e.scene.machine.cpu.scalar.rip == until)
                || e.scene.stopped)
            && (t.escapes == [] && (forall i :: 0 <= i < |t.hooks| ==> !t.hooks[i].used) ==>
                  (e.scene, e.slots) == Steps(isa, first, slots, e.executed) && e.scene.log == [])
  {
    hide Direct, Loop, Steps, Completed, Passed, MayGo, ScanHooks, Rounds, Went, Failure, StepAfter;
    var s := Started(m, begin);
    if Bare(t) {
      DirectEnds(isa, s, slots, until, count, 0, turns);
      StepsKeepLog(isa, s, slots, Direct(isa, s, slots, until, count, 0, turns).value.executed);
    } else {
      LoopEnds(isa, host, t, s, slots, until, count, 0, turns, false);
    }
  }

  lemma {:induction false} StepsKeepLog(isa: Isa, s: Scene, slots: seq<Slot>, k: nat)
    ensures Steps(isa, s, slots, k).0.log == s.log && Steps(isa, s, slots, k).0.stopped == s.stopped
    decreases k
  {
    hide Step;
    if k > 0 {
      var out := Step(isa, s.machine, slots, []);
      StepsKeepLog(isa, s.(machine := out.machine), out.slots, k - 1);
    }
  }

  // Which hooks a turn calls.

  /** The hook in this slot is one of the kind and covers the address: every address when both bounds are zero, the
      addresses from begin on when only the end is. */
  predicate Called(h: Hook, kind: nat, address: u64) {
    h.used && h.kind == kind && h.begin <= address && (address <= h.end || h.end == 0)
  }

  /** The calls a scan makes, in the order of the slots. */
  function CallsOf(hooks: seq<Hook>, kind: nat, address: u64): seq<Call> {
    if hooks == [] then []
    else
      (if Called(hooks[0], kind, address) then [HookCall(kind, hooks[0].handle, address)] else [])
      + CallsOf(hooks[1..], kind, address)
  }

  lemma {:induction false} VisitCalls(host: Host, h: Hook, kind: nat, address: u64, s: Scene)
    ensures var after := Visit(host, h, kind, address, s);
            && after.log == s.log + (if Called(h, kind, address) then [HookCall(kind, h.handle, address)] else [])
            && (!Called(h, kind, address) ==> after == s)
            && (Called(h, kind, address) ==> after.machine == host.onCode(h.callback, address, s.machine).0)
            && after.stopped == (s.stopped
                                 || (Called(h, kind, address) && host.onCode(h.callback, address, s.machine).1))
  {
  }

  /** A scan calls the hooks of its kind that cover the address, each once and in the order of the slots, and no
      others. */
  lemma {:induction false} HooksCalled(host: Host, hooks: seq<Hook>, i: nat, kind: nat, address: u64, s: Scene)
    requires i <= |hooks|
    ensures ScanHooks(host, hooks, i, kind, address, s).log == s.log + CallsOf(hooks[i..], kind, address)
    ensures s.stopped ==> ScanHooks(host, hooks, i, kind, address, s).stopped
    decreases |hooks| - i
  {
    hide Called, Visit;
    if i < |hooks| {
      var next := Visit(host, hooks[i], kind, address, s);
      VisitCalls(host, hooks[i], kind, address, s);
      HooksCalled(host, hooks, i + 1, kind, address, next);
      assert hooks[i..][1..] == hooks[i + 1..];
    }
  }
}
