/** The outer run loop: hooks, escapes and the short cut through the instruction cache. */
module RunLoop {
  import opened Bits
  import opened MemoryManagement
  import opened CpuState
  import opened LinearMemory
  import opened Fetch
  import opened AluDecode
  import opened AluExecute
  import opened Addressing
  import opened Decoder
  import opened Executor
  import opened InstCache
  import opened Registry
  import opened Escapes

  /** The callbacks of the host. A code hook changes the machine and may ask to stop. */
  datatype Host = Host(
    onCode: (nat, u64, Machine) -> (Machine, bool),
    onEscape: (nat, seq<byte>, Machine) -> Reply)

  datatype Call = HookCall(kind: nat, handle: nat, address: u64) | EscapeCall(callback: nat, address: u64)

  /** What a run shows to the outside: the machine, the callbacks made so far, and the stop request. */
  datatype Scene = Scene(machine: Machine, log: seq<Call>, stopped: bool)

  // Code hooks.

  function CallHook(host: Host, h: Hook, address: u64, s: Scene): Scene {
    var (m, stop) := host.onCode(h.callback, address, s.machine);
    Scene(m, s.log + [HookCall(h.kind, h.handle, address)], s.stopped || stop)
  }

  function Visit(host: Host, h: Hook, kind: nat, address: u64, s: Scene): Scene {
    if OfKind(h, kind) && RangeContains(h.begin, h.end, address) then CallHook(host, h, address, s) else s
  }

  /** Every slot of the table, in order. */
  function ScanHooks(host: Host, hooks: seq<Hook>, i: nat, kind: nat, address: u64, s: Scene): Scene
    requires i <= |hooks|
    decreases |hooks| - i
  {
    if i == |hooks| then s else ScanHooks(host, hooks, i + 1, kind, address, Visit(host, hooks[i], kind, address, s))
  }

  function CountFrom(hooks: seq<Hook>, i: nat, kind: nat): nat
    requires i <= |hooks|
  {
    CountKind(hooks[i..], kind)
  }

  lemma {:induction false} CountStep(hooks: seq<Hook>, i: nat, kind: nat)
    requires i < |hooks|
    ensures CountFrom(hooks, i, kind) == BoolBit(OfKind(hooks[i], kind)) + CountFrom(hooks, i + 1, kind)
  {
    CountRest(hooks, i, kind);
  }

  /** Once the counter is used up, the rest of the scan would call nobody. */
  lemma {:induction false} NothingLeft(host: Host, hooks: seq<Hook>, i: nat, kind: nat, address: u64, s: Scene)
    requires i <= |hooks| && CountFrom(hooks, i, kind) == 0
    ensures ScanHooks(host, hooks, i, kind, address, s) == s
    decreases |hooks| - i
  {
    hide CountFrom, RangeContains;
    if i < |hooks| {
      CountStep(hooks, i, kind);
      NothingLeft(host, hooks, i + 1, kind, address, s);
    }
  }

  lemma {:induction false} CountWhole(hooks: seq<Hook>, kind: nat)
    ensures CountFrom(hooks, 0, kind) == CountKind(hooks, kind) && CountFrom(hooks, |hooks|, kind) == 0
  {
    assert hooks[0..] == hooks;
  }

  /** cpueaxh_dispatch_code_hooks: it stops when the counter says it has seen every hook of the kind, and still
      makes the calls of a scan of the whole table, in the same order. */
  method DispatchCodeHooks(engine: Engine, ctx: CpuContext, host: Host, kind: nat, address: u64, log: seq<Call>,
      stopped: bool)
    returns (calls: seq<Call>, stop: bool)
    requires engine.Valid() && SupportedKind(kind)
    modifies ctx, ctx.memMgr
    ensures engine.Valid()
    ensures Scene(ctx.Whole(), calls, stop)
            == ScanHooks(host, engine.hooks[..], 0, kind, address, Scene(old(ctx.Whole()), log, stopped))
  {
    hide Healthy, CountKind, RangeContains, Encoded;
    HealthySize(engine.View());
    ghost var hooks := engine.hooks[..];
    ghost var start := Scene(ctx.Whole(), log, stopped);
    calls, stop := log, stopped;
    CountWhole(hooks, kind);
    if engine.counts[kind] == 0 {
      NothingLeft(host, hooks, 0, kind, address, start);
      return;
    }
    var remaining := engine.counts[kind];
    var i := 0;
    while i < engine.hooks.Length && remaining != 0
      invariant 0 <= i <= engine.hooks.Length && engine.Valid() && engine.hooks[..] == hooks
      invariant remaining == CountFrom(hooks, i, kind)
      invariant ScanHooks(host, hooks, i, kind, address, Scene(ctx.Whole(), calls, stop))
                == ScanHooks(host, hooks, 0, kind, address, start)
    {
      var hook := engine.hooks[i];
      CountStep(hooks, i, kind);
      if OfKind(hook, kind) {
        remaining := remaining - 1;
        if RangeContains(hook.begin, hook.end, address) {
          var (m, stopping) := host.onCode(hook.callback, address, ctx.Whole());
          LoadMachine(ctx, m);
          calls := calls + [HookCall(hook.kind, hook.handle, address)];
          stop := stop || stopping;
        }
      }
      i := i + 1;
    }
    NothingLeft(host, hooks, i, kind, address, Scene(ctx.Whole(), calls, stop));
  }

  // One turn.

  datatype EmuError =
    Fine | ExceptionError | CallbackError
    | FetchUnmapped | FetchProt | WriteUnmapped | WriteProt | ReadUnmapped | ReadProt

  datatype TurnVerdict = Counted | HaltedRun | FailedRun(error: EmuError)

  /** The error of a page fault, from the bits of its error code: present, write, execute. */
  function PageFaultOutcome(error: nat): EmuError {
    var protection := error % 2 == 1;
    if error / 0x10 % 2 == 1 then if protection then FetchProt else FetchUnmapped
    else if error / 2 % 2 == 1 then if protection then WriteProt else WriteUnmapped
    else if protection then ReadProt else ReadUnmapped
  }

  /** The error of a page fault names the access that was refused and why: encoding the error code and reading it
      back loses neither. */
  lemma {:induction false} OutcomeNamesTheFault(c: Cpu, access: Access, protection: bool)
    ensures PageFaultOutcome(PageFaultError(c, access, protection))
            == match access
               case Read => if protection then ReadProt else ReadUnmapped
               case Write => if protection then WriteProt else WriteUnmapped
               case Exec => if protection then FetchProt else FetchUnmapped
  {
  }

  function StepVerdict(code: StepCode, exception: Exception): TurnVerdict {
    match code
    case StepOk => Counted
    case StepHalt => HaltedRun
    case StepFetchError => FailedRun(FetchUnmapped)
    case StepUd => FailedRun(ExceptionError)
    case StepException =>
      FailedRun(if exception.code == PF then PageFaultOutcome(exception.error) else ExceptionError)
  }

  function EscapeVerdict(outcome: EscapeOutcome): TurnVerdict {
    match outcome
    case Executed => Counted
    case RaisedException => FailedRun(ExceptionError)
    case CallbackFailed => FailedRun(CallbackError)
  }

  datatype Turned = Turned(scene: Scene, slots: seq<Slot>, verdict: TurnVerdict)

  /** The cached entry that may run without fetching or classifying: a hit marked as no escape. */
  function ShortCut(slots: seq<Slot>, m: Machine, address: u64): Option<Entry> {
    match Find(slots, m.mem.codeVersion, address, m.cpu.modeKeyBits)
    case Some(e) => if e.notEscape then Some(e) else None
    case None => None
  }

  /** cpu_step_decoded. */
  function RunCached(isa: Isa, m: Machine, e: Entry): (Machine, StepCode) {
    if Pending(m.cpu) then (m, StepException) else Dispatch(isa, m, e)
  }

  function AfterEscape(s: Scene, a: Attempt, address: u64): Scene
    requires a.Taken?
  {
    Scene(a.machine, if a.called.Some? then s.log + [EscapeCall(a.called.value, address)] else s.log,
          s.stopped || a.stop)
  }

  /** The slow path: fetch, classify, and step with the fetched bytes. */
  function Slow(isa: Isa, host: Host, escapes: seq<Escape>, s: Scene, slots: seq<Slot>, address: u64): Turned {
    var a := TryEscape(host.onEscape, escapes, Fetched(s.machine, address), address, FetchedBytes(s.machine, address));
    match a
    case Taken(_, _, _, outcome) => Turned(AfterEscape(s, a, address), slots, EscapeVerdict(outcome))
    case NotTaken(m) =>
      var out := Step(isa, m, slots, FetchedBytes(s.machine, address));
      Turned(s.(machine := out.machine), out.slots, StepVerdict(out.code, out.machine.cpu.exception))
  }

  /** One instruction of the run loop, between its hooks. */
  function Core(isa: Isa, host: Host, escapes: seq<Escape>, s: Scene, slots: seq<Slot>, address: u64): Turned {
    var k := s.(machine := Keyed(s.machine));
    match ShortCut(slots, k.machine, address)
    case Some(e) =>
      var (m, code) := RunCached(isa, k.machine, e);
      Turned(s.(machine := m), slots, StepVerdict(code, m.cpu.exception))
    case None => Slow(isa, host, escapes, k, slots, address)
  }

  // The loop.

  datatype Ending = Ending(scene: Scene, slots: seq<Slot>, executed: nat, error: EmuError)

  predicate Finished(s: Scene, until: u64, count: nat, executed: nat) {
    (count != 0 && executed >= count) || (until != 0 && s.machine.cpu.scalar.rip == until) || s.stopped
  }

  /** A cache that has forgotten everything. */
  function Forgotten(slots: seq<Slot>): (blank: seq<Slot>)
    ensures |blank| == |slots|
  {
    seq(|slots|, _ => EMPTY_SLOT)
  }

  /** The loop with hooks and escapes, for at most some number of turns. With forget set, the cache is emptied
      before every turn, so that every turn takes the slow path. */
  function Loop(isa: Isa, host: Host, t: Registry.Tables, s: Scene, slots: seq<Slot>, until: u64, count: nat,
      executed: nat,
                turns: nat, forget: bool): Option<Ending>
    decreases turns
  {
    if turns == 0 then None
    else if Finished(s, until, count, executed) then Some(Ending(s, slots, executed, Fine))
    else
      var address := s.machine.cpu.scalar.rip;
      var p := ScanHooks(host, t.hooks, 0, CODE_PRE, address, s);
      if p.stopped then Some(Ending(p, slots, executed, Fine))
      else
        var c := Core(isa, host, t.escapes, p, if forget then Forgotten(slots) else slots, address);
        match c.verdict
        case Counted =>
          Loop(isa, host, t, ScanHooks(host, t.hooks, 0, CODE_POST, address, c.scene), c.slots, until, count,
               executed + 1,
               turns - 1, forget)
        case HaltedRun => Some(Ending(ScanHooks(host, t.hooks, 0, CODE_POST, address, c.scene), c.slots, executed,
                                      Fine))
        case FailedRun(error) => Some(Ending(c.scene, c.slots, executed, error))
  }

  /** The loop of an engine without hooks and escapes. */
  function Direct(isa: Isa, s: Scene, slots: seq<Slot>, until: u64, count: nat, executed: nat,
      turns: nat): Option<Ending>
    decreases turns
  {
    if turns == 0 then None
    else if Finished(s, until, count, executed) then Some(Ending(s, slots, executed, Fine))
    else
      var out := Step(isa, s.machine, slots, []);
      var next := s.(machine := out.machine);
      match StepVerdict(out.code, out.machine.cpu.exception)
      case Counted => Direct(isa, next, out.slots, until, count, executed + 1, turns - 1)
      case HaltedRun => Some(Ending(next, out.slots, executed, Fine))
      case FailedRun(error) => Some(Ending(next, out.slots, executed, error))
  }

  predicate Bare(t: Registry.Tables) {
    t.escapes == [] && forall i :: 0 <= i < |t.hooks| ==> !t.hooks[i].used
  }

  function Started(m: Machine, begin: u64): Scene {
    var c := if begin != 0 then m.cpu.(scalar := m.cpu.scalar.(rip := begin)) else m.cpu;
    Scene(m.(cpu := c.(exception := Exception(NoException, 0))), [], false)
  }

  /** cpueaxh_emu_start. */
  function EmuStart(isa: Isa, host: Host, t: Registry.Tables, m: Machine, slots: seq<Slot>, begin: u64, until: u64,
      count: nat,
                    turns: nat): Option<Ending> {
    if Bare(t) then Direct(isa, Started(m, begin), slots, until, count, 0, turns)
    else Loop(isa, host, t, Started(m, begin), slots, until, count, 0, turns, false)
  }
}
