/** cpueaxh_emu_start, step by step on the engine, its context and its cache. */
module Emulation {
  import opened Bits
  import opened MemoryManagement
  import opened CpuState
  import opened Fetch
  import opened AluExecute
  import opened Decoder
  import opened Executor
  import opened InstCache
  import opened Registry
  import opened Escapes
  import opened RunLoop

  // How long a run takes.

  /** With a count, one turn more than the instructions left is enough, further turns change nothing, and the
      run never executes more than the count. */
  lemma {:induction false} CountBoundsTurns(
      isa: Isa, host: Host, t: Registry.Tables, s: Scene, slots: seq<Slot>, until: u64, count: nat, executed: nat,
          turns: nat,
      forget: bool)
    requires count != 0 && executed <= count && turns > count - executed
    ensures var done := Loop(isa, host, t, s, slots, until, count, executed, turns, forget);
            && done.Some? && executed <= done.value.executed <= count
            && done == Loop(isa, host, t, s, slots, until, count, executed, count - executed + 1, forget)
    decreases turns
  {
    hide Core, ScanHooks, Forgotten;
    var address := s.machine.cpu.scalar.rip;
    var p := ScanHooks(host, t.hooks, 0, CODE_PRE, address, s);
    if !Finished(s, until, count, executed) && !p.stopped {
      var c := Core(isa, host, t.escapes, p, if forget then Forgotten(slots) else slots, address);
      if c.verdict.Counted? {
        CountBoundsTurns(isa, host, t, ScanHooks(host, t.hooks, 0, CODE_POST, address, c.scene), c.slots, until, count,
                         executed + 1, turns - 1, forget);
      }
    }
  }

  /** A run that ends keeps its ending however many more turns it is given, with or without a count. */
  lemma {:induction false} MoreTurns(
      isa: Isa, host: Host, t: Registry.Tables, s: Scene, slots: seq<Slot>, until: u64, count: nat, executed: nat,
          turns: nat,
      more: nat, forget: bool)
    requires Loop(isa, host, t, s, slots, until, count, executed, turns, forget).Some? && turns <= more
    ensures Loop(isa, host, t, s, slots, until, count, executed, more, forget)
            == Loop(isa, host, t, s, slots, until, count, executed, turns, forget)
    decreases turns
  {
    hide Core, ScanHooks, Forgotten, Finished;
    var address := s.machine.cpu.scalar.rip;
    var p := ScanHooks(host, t.hooks, 0, CODE_PRE, address, s);
    if !Finished(s, until, count, executed) && !p.stopped {
      var c := Core(isa, host, t.escapes, p, if forget then Forgotten(slots) else slots, address);
      if c.verdict.Counted? {
        MoreTurns(isa, host, t, ScanHooks(host, t.hooks, 0, CODE_POST, address, c.scene), c.slots, until, count,
                  executed + 1, turns - 1, more - 1, forget);
      }
    }
  }

  // Whether there is anything to call at all.

  lemma {:induction false} UsedIsCounted(hooks: seq<Hook>, i: nat)
    requires i < |hooks| && hooks[i].used
    ensures CountKind(hooks, hooks[i].kind) > 0
    decreases i
  {
    if i > 0 {
      UsedIsCounted(hooks[1..], i - 1);
    }
  }

  lemma {:induction false} CountedIsUsed(hooks: seq<Hook>, kind: nat)
    requires CountKind(hooks, kind) > 0
    ensures exists i :: 0 <= i < |hooks| && hooks[i].used
    decreases |hooks|
  {
    if OfKind(hooks[0], kind) {
    } else {
      CountedIsUsed(hooks[1..], kind);
      var i :| 0 <= i < |hooks[1..]| && hooks[1..][i].used;
      assert hooks[i + 1].used;
    }
  }

  method HasAnyHook(engine: Engine) returns (found: bool)
    requires engine.Valid()
    ensures found == exists i :: 0 <= i < |engine.hooks[..]| && engine.hooks[..][i].used
  {
    hide CountKind, Encoded, HookHandles, EscapeHandles;
    var kind := 1;
    while kind <= 11
      invariant 1 <= kind <= 12
      invariant forall k :: 1 <= k < kind ==> engine.counts[k] == 0
    {
      if engine.counts[kind] != 0 {
        CountedIsUsed(engine.hooks[..], kind);
        return true;
      }
      kind := kind + 1;
    }
    ghost var hooks := engine.hooks[..];
    forall i | 0 <= i < |hooks| ensures !hooks[i].used {
      if hooks[i].used {
        UsedKind(engine.View(), i);
        UsedIsCounted(hooks, i);
        assert false;
      }
    }
    return false;
  }

  // One turn.

  method TryDispatchEscape(engine: Engine, ctx: CpuContext, host: Host, address: u64, code: seq<byte>)
    returns (taken: bool, called: Option<nat>, stop: bool, outcome: EscapeOutcome)
    requires engine.Valid()
    modifies ctx, ctx.memMgr
    ensures engine.Valid()
    ensures var a := TryEscape(host.onEscape, engine.escapes, old(ctx.Whole()), address, code);
            && ctx.Whole() == a.machine && taken == a.Taken?
            && (taken ==> called == a.called && stop == a.stop && outcome == a.outcome)
  {
    hide ClassifyEscape, Healthy, CountKind, Encoded, Indexed, RangeContains, Raise, ContextIn, Pending;
    called, stop, outcome := None, false, Executed;
    var class_ := ClassifyEscapeInstruction(ModeBits(ctx.State()), code);
    if class_ == NoEscape {
      return false, None, false, Executed;
    }
    var entry := engine.Lookup(class_.id);
    if entry.Some? && RangeContains(entry.value.begin, entry.value.end, address) {
      var ripBefore := ctx.scalar.rip;
      var reply := host.onEscape(entry.value.callback, code, ctx.Whole());
      LoadMachine(ctx, reply.machine);
      if reply.failed {
        return true, Some(entry.value.callback), reply.stop, CallbackFailed;
      }
      ctx.Load(ContextIn(ctx.State(), reply.context));
      if ctx.scalar.rip == ripBefore {
        ctx.scalar := ctx.scalar.(rip := Wrap(ripBefore + class_.size));
      }
      ctx.scalar := ctx.scalar.(lastInstSize := class_.size);
      return true, Some(entry.value.callback), reply.stop, if Pending(ctx.State()) then RaisedException else Executed;
    }
    if Optional(class_.id) {
      return false, None, false, Executed;
    }
    ctx.RaiseException(Unhandled(class_.id), 0);
    return true, None, false, RaisedException;
  }

  method RunSlow(engine: Engine, ctx: CpuContext, cache: InstCache, isa: Isa, host: Host, address: u64,
      log: seq<Call>, stopped: bool)
    returns (calls: seq<Call>, stop: bool, verdict: TurnVerdict)
    requires engine.Valid() && cache.Valid()
    modifies ctx, ctx.memMgr, cache.slots
    ensures engine.Valid() && cache.Valid()
    ensures Turned(Scene(ctx.Whole(), calls, stop), SlotsOf(cache), verdict)
            == Slow(isa, host, engine.escapes, Scene(old(ctx.Whole()), log, stopped), old(SlotsOf(cache)), address)
  {
    hide TryEscape, Step, FetchedBytes, Fetched, Healthy, CountKind, Encoded, WellSized, Index;
    var code := FetchInstructionBytes(ctx, address);
    var taken, called, stopping, outcome := TryDispatchEscape(engine, ctx, host, address, code);
    if taken {
      calls := if called.Some? then log + [EscapeCall(called.value, address)] else log;
      return calls, stopped || stopping, EscapeVerdict(outcome);
    }
    var result := StepWithPrefetch(ctx, cache, isa, code);
    return log, stopped, StepVerdict(result, ctx.exception);
  }

  method RunCore(engine: Engine, ctx: CpuContext, cache: InstCache, isa: Isa, host: Host, address: u64,
      log: seq<Call>, stopped: bool)
    returns (calls: seq<Call>, stop: bool, verdict: TurnVerdict)
    requires engine.Valid() && cache.Valid()
    modifies ctx, ctx.memMgr, cache.slots
    ensures engine.Valid() && cache.Valid()
    ensures Turned(Scene(ctx.Whole(), calls, stop), SlotsOf(cache), verdict)
            == Core(isa, host, engine.escapes, Scene(old(ctx.Whole()), log, stopped), old(SlotsOf(cache)), address)
  {
    hide Slow, Find, PrimeModeKey, Dispatch, Pending, Healthy, CountKind, Encoded, WellSized, Index;
    var key := ctx.ReadModeKey();
    var hit := cache.Lookup(ctx.memMgr, address, key);
    if hit.Some? && hit.value.notEscape {
      FoundSized(cache, ctx.memMgr.codeVersion, address, key);
      if Pending(ctx.State()) {
        return log, stopped, StepVerdict(StepException, ctx.exception);
      }
      var result := DispatchDecoded(ctx, isa, hit.value);
      return log, stopped, StepVerdict(result, ctx.exception);
    }
    calls, stop, verdict := RunSlow(engine, ctx, cache, isa, host, address, log, stopped);
  }

  // Whole runs. Without a count a run need not end; these methods take a bound on the turns of one that does, which
  // only the proof uses.

  lemma {:induction false} UnfoldLoop(isa: Isa, host: Host, t: Registry.Tables, s: Scene, slots: seq<Slot>,
      until: u64, count: nat, executed: nat, turns: nat)
    requires Loop(isa, host, t, s, slots, until, count, executed, turns, false).Some?
    ensures turns > 0
    ensures var address := s.machine.cpu.scalar.rip;
            var p := ScanHooks(host, t.hooks, 0, CODE_PRE, address, s);
            var c := Core(isa, host, t.escapes, p, slots, address);
            var q := ScanHooks(host, t.hooks, 0, CODE_POST, address, c.scene);
            var done := Loop(isa, host, t, s, slots, until, count, executed, turns, false);
            if Finished(s, until, count, executed) then done == Some(Ending(s, slots, executed, Fine))
            else if p.stopped then done == Some(Ending(p, slots, executed, Fine))
            else match c.verdict
                 case FailedRun(error) => done == Some(Ending(c.scene, c.slots, executed, error))
                 case HaltedRun => done == Some(Ending(q, c.slots, executed, Fine))
                 case Counted => done == Loop(isa, host, t, q, c.slots, until, count, executed + 1, turns - 1, false)
  {
    hide Core, ScanHooks, Finished;
  }

  method RunHooked(engine: Engine, ctx: CpuContext, cache: InstCache, isa: Isa, host: Host, until: u64, count: nat,
      ghost turns: nat)
    returns (executed: nat, error: EmuError, calls: seq<Call>, stop: bool)
    requires engine.Valid() && cache.Valid()
    requires Loop(isa, host, engine.View(), Scene(ctx.Whole(), [], false), SlotsOf(cache), until, count, 0, turns,
                  false).Some?
    modifies ctx, ctx.memMgr, cache.slots
    ensures engine.Valid() && cache.Valid()
    ensures Some(Ending(Scene(ctx.Whole(), calls, stop), SlotsOf(cache), executed, error))
            == Loop(isa, host, engine.View(), Scene(old(ctx.Whole()), [], false), old(SlotsOf(cache)), until, count, 0,
                    turns, false)
  {
    hide Loop, Core, ScanHooks, Healthy, CountKind, Encoded, WellSized, Index, StepVerdict;
    ghost var start := Scene(ctx.Whole(), [], false);
    ghost var slots := SlotsOf(cache);
    ghost var t := engine.View();
    ghost var left := turns;
    executed, error, calls, stop := 0, Fine, [], false;
    while true
      invariant engine.Valid() && cache.Valid() && engine.View() == t
      invariant Loop(isa, host, t, Scene(ctx.Whole(), calls, stop), SlotsOf(cache), until, count, executed, left, false)
                == Loop(isa, host, t, start, slots, until, count, 0, turns, false)
      decreases left
    {
      UnfoldLoop(isa, host, t, Scene(ctx.Whole(), calls, stop), SlotsOf(cache), until, count, executed, left);
      if (count != 0 && executed >= count) || (until != 0 && ctx.scalar.rip == until) || stop {
        return executed, Fine, calls, stop;
      }
      var address := ctx.scalar.rip;
      calls, stop := DispatchCodeHooks(engine, ctx, host, CODE_PRE, address, calls, stop);
      if stop {
        return executed, Fine, calls, stop;
      }
      var verdict;
      calls, stop, verdict := RunCore(engine, ctx, cache, isa, host, address, calls, stop);
      if verdict.FailedRun? {
        return executed, verdict.error, calls, stop;
      }
      calls, stop := DispatchCodeHooks(engine, ctx, host, CODE_POST, address, calls, stop);
      if verdict.HaltedRun? {
        return executed, Fine, calls, stop;
      }
      executed, left := executed + 1, left - 1;
    }
  }

  lemma {:induction false} UnfoldDirect(isa: Isa, s: Scene, slots: seq<Slot>, until: u64, count: nat, executed: nat,
      turns: nat)
    requires Direct(isa, s, slots, until, count, executed, turns).Some?
    ensures turns > 0
    ensures var out := Step(isa, s.machine, slots, []);
            var next := s.(machine := out.machine);
            var done := Direct(isa, s, slots, until, count, executed, turns);
            if Finished(s, until, count, executed) then done == Some(Ending(s, slots, executed, Fine))
            else match StepVerdict(out.code, out.machine.cpu.exception)
                 case FailedRun(error) => done == Some(Ending(next, out.slots, executed, error))
                 case HaltedRun => done == Some(Ending(next, out.slots, executed, Fine))
                 case Counted => done == Direct(isa, next, out.slots, until, count, executed + 1, turns - 1)
  {
    hide Step, Finished;
  }

  method RunDirect(ctx: CpuContext, cache: InstCache, isa: Isa, until: u64, count: nat, ghost turns: nat)
    returns (executed: nat, error: EmuError)
    requires cache.Valid()
    requires Direct(isa, Scene(ctx.Whole(), [], false), SlotsOf(cache), until, count, 0, turns).Some?
    modifies ctx, ctx.memMgr, cache.slots
    ensures cache.Valid()
    ensures Some(Ending(Scene(ctx.Whole(), [], false), SlotsOf(cache), executed, error))
            == Direct(isa, Scene(old(ctx.Whole()), [], false), old(SlotsOf(cache)), until, count, 0, turns)
  {
    hide Direct, Step, WellSized, Index, StepVerdict;
    ghost var start := Scene(ctx.Whole(), [], false);
    ghost var slots := SlotsOf(cache);
    ghost var left := turns;
    executed, error := 0, Fine;
    while true
      invariant cache.Valid()
      invariant Direct(isa, Scene(ctx.Whole(), [], false), SlotsOf(cache), until, count, executed, left)
                == Direct(isa, start, slots, until, count, 0, turns)
      decreases left
    {
      UnfoldDirect(isa, Scene(ctx.Whole(), [], false), SlotsOf(cache), until, count, executed, left);
      if (count != 0 && executed >= count) || (until != 0 && ctx.scalar.rip == until) {
        return executed, Fine;
      }
      var result := StepWithPrefetch(ctx, cache, isa, []);
      var verdict := StepVerdict(result, ctx.exception);
      if verdict.FailedRun? {
        return executed, verdict.error;
      }
      if verdict.HaltedRun? {
        return executed, Fine;
      }
      executed, left := executed + 1, left - 1;
    }
  }

  lemma {:induction false} NothingToCall(t: Registry.Tables)
    requires t.escapes == [] && !exists i :: 0 <= i < |t.hooks| && t.hooks[i].used
    ensures Bare(t)
  {
  }

  /** cpueaxh_emu_start, for every run that ends. */
  method Start(engine: Engine, ctx: CpuContext, cache: InstCache, isa: Isa, host: Host, begin: u64, until: u64,
      count: nat, ghost turns: nat)
    returns (executed: nat, error: EmuError, calls: seq<Call>, stop: bool)
    requires engine.Valid() && cache.Valid()
    requires EmuStart(isa, host, engine.View(), ctx.Whole(), SlotsOf(cache), begin, until, count, turns).Some?
    modifies ctx, ctx.memMgr, cache.slots
    ensures engine.Valid() && cache.Valid()
    ensures Some(Ending(Scene(ctx.Whole(), calls, stop), SlotsOf(cache), executed, error))
            == EmuStart(isa, host, engine.View(), old(ctx.Whole()), old(SlotsOf(cache)), begin, until, count, turns)
  {
    hide Loop, Direct, Healthy, CountKind, Encoded, WellSized, Index;
    if begin != 0 {
      ctx.scalar := ctx.scalar.(rip := begin);
    }
    ctx.exception := Exception(NoException, 0);
    var hooks := HasAnyHook(engine);
    if !hooks && |engine.escapes| == 0 {
      NothingToCall(engine.View());
      executed, error := RunDirect(ctx, cache, isa, until, count, turns);
      return executed, error, [], false;
    }
    executed, error, calls, stop := RunHooked(engine, ctx, cache, isa, host, until, count, turns);
  }

  lemma {:induction false} CountBoundsDirect(isa: Isa, s: Scene, slots: seq<Slot>, until: u64, count: nat,
      executed: nat, turns: nat)
    requires count != 0 && executed <= count && turns > count - executed
    ensures var done := Direct(isa, s, slots, until, count, executed, turns);
            done.Some? && executed <= done.value.executed <= count
    decreases turns
  {
    hide Step;
    if !Finished(s, until, count, executed) {
      var out := Step(isa, s.machine, slots, []);
      if StepVerdict(out.code, out.machine.cpu.exception).Counted? {
        CountBoundsDirect(isa, s.(machine := out.machine), out.slots, until, count, executed + 1, turns - 1);
      }
    }
  }

  /** With a count every run ends, hooks or not, after at most that many instructions. */
  lemma {:induction false} CountEnds(isa: Isa, host: Host, t: Registry.Tables, m: Machine, slots: seq<Slot>, begin: u64,
      until: u64, count: nat, turns: nat)
    requires count != 0 && turns > count
    ensures var done := EmuStart(isa, host, t, m, slots, begin, until, count, turns);
            done.Some? && done.value.executed <= count
  {
    hide Loop, Direct, Started;
    var s := Started(m, begin);
    CountBoundsTurns(isa, host, t, s, slots, until, count, 0, turns, false);
    CountBoundsDirect(isa, s, slots, until, count, 0, turns);
  }
}
