/** Escape instructions: which bytes are one, and who handles it. */
module Escapes {
  import opened Bits
  import opened MemoryManagement
  import opened CpuState
  import opened Addressing
  import opened AluDecode
  import opened Decoder
  import opened Registry

  /** Escape identifiers, in the numbering of the public header. */
  const SYSCALL: nat := 1
  const SYSENTER: nat := 2
  const INTN: nat := 3
  const INT3: nat := 4
  const CPUID: nat := 5
  const XGETBV: nat := 6
  const RDTSC: nat := 7
  const RDTSCP: nat := 8
  const RDRAND: nat := 9
  const HLT: nat := 10
  const IN: nat := 11
  const OUT: nat := 12
  const WRITECRX: nat := 13
  const READCRX: nat := 14
  const RDSSPD: nat := 15
  const RDSSPQ: nat := 16
  const INS: nat := 17
  const INT1: nat := 18
  const UD2: nat := 19

  /** What the classifier says: an id with the size of the instruction, or nothing. */
  datatype Class = NoEscape | EscapeOf(id: nat, size: nat)

  // The two recognisers with a prefix scan of their own. They skip REX bytes in every mode.

  predicate AnyPrefix(b: byte) {
    LegacyPrefix(b) || 0x40 <= b <= 0x4F
  }

  function SkipPrefixes(code: seq<byte>, i: nat): (n: nat)
    requires i <= |code|
    ensures i <= n <= |code|
    ensures n < |code| ==> !AnyPrefix(code[n])
    ensures forall k :: i <= k < n ==> AnyPrefix(code[k])
    decreases |code| - i
  {
    if i < |code| && AnyPrefix(code[i]) then SkipPrefixes(code, i + 1) else i
  }

  /** 0F C7 /6 with a register operand. */
  predicate Rdrand(code: seq<byte>) {
    var n := SkipPrefixes(code, 0);
    n + 3 <= |code| && code[n] == 0x0F && code[n + 1] == 0xC7 && RegField(code[n + 2]) == 6
        && ModField(code[n + 2]) == 3
  }

  predicate RexW(b: byte) {
    b >= 0x48
  }

  /** The W bit of the last REX byte among the first n. */
  predicate LastRexW(code: seq<byte>, n: nat)
    requires n <= |code|
    decreases n
  {
    n > 0 && if 0x40 <= code[n - 1] <= 0x4F then RexW(code[n - 1]) else LastRexW(code, n - 1)
  }

  /** F3 0F 1E /1 with a register operand and no LOCK. */
  predicate Rdssp(code: seq<byte>) {
    var n := SkipPrefixes(code, 0);
    && n + 3 <= |code| && code[n] == 0x0F && code[n + 1] == 0x1E && RegField(code[n + 2]) == 1
       && ModField(code[n + 2]) == 3
    && 0xF0 !in code[..n] && 0xF3 in code[..n]
  }

  method IsRdrand(code: seq<byte>) returns (found: bool)
    ensures found == Rdrand(code)
  {
    var offset := 0;
    while offset < |code| && AnyPrefix(code[offset])
      invariant 0 <= offset <= |code|
      invariant SkipPrefixes(code, offset) == SkipPrefixes(code, 0)
    {
      offset := offset + 1;
    }
    if offset + 3 > |code| || code[offset] != 0x0F || code[offset + 1] != 0xC7 {
      return false;
    }
    return RegField(code[offset + 2]) == 6 && ModField(code[offset + 2]) == 3;
  }

  method IsRdssp(code: seq<byte>) returns (found: bool, wide: bool, size: nat)
    ensures found == Rdssp(code)
    ensures found ==> wide == LastRexW(code, SkipPrefixes(code, 0)) && size == SkipPrefixes(code, 0) + 3
  {
    var offset, lock, f3 := 0, false, false;
    wide, size := false, 0;
    while offset < |code| && AnyPrefix(code[offset])
      invariant 0 <= offset <= |code|
      invariant SkipPrefixes(code, offset) == SkipPrefixes(code, 0)
      invariant wide == LastRexW(code, offset)
      invariant lock == (0xF0 in code[..offset]) && f3 == (0xF3 in code[..offset])
    {
      var prefix := code[offset];
      assert code[..offset + 1] == code[..offset] + [prefix];
      if 0x40 <= prefix <= 0x4F {
        wide := RexW(prefix);
      } else if prefix == 0xF0 {
        lock := true;
      } else if prefix == 0xF3 {
        f3 := true;
      }
      offset := offset + 1;
    }
    if offset + 3 > |code| {
      return false, false, 0;
    }
    var modrm := code[offset + 2];
    if lock || !f3 || code[offset] != 0x0F || code[offset + 1] != 0x1E || RegField(modrm) != 1 || ModField(modrm) != 3 {
      return false, false, 0;
    }
    return true, wide, offset + 3;
  }

  // The classifier.

  /** One-byte opcodes, and those that need no byte after the opcode. */
  function ClassifyShort(opc: nat, n: nat, fetched: nat): Class {
    if opc == 0xCC then EscapeOf(INT3, n + 1)
    else if opc == 0xF1 then EscapeOf(INT1, n + 1)
    else if opc == 0xCD && fetched >= n + 2 then EscapeOf(INTN, n + 2)
    else if opc == 0x0F0B then EscapeOf(UD2, n + 2)
    else if opc == 0xF4 then EscapeOf(HLT, n + 1)
    else if opc == 0xE4 || opc == 0xE5 then if fetched >= n + 2 then EscapeOf(IN, n + 2) else NoEscape
    else if opc == 0xEC || opc == 0xED then EscapeOf(IN, n + 1)
    else if opc == 0x6C || opc == 0x6D then EscapeOf(INS, n + 1)
    else if opc == 0xE6 || opc == 0xE7 then if fetched >= n + 2 then EscapeOf(OUT, n + 2) else NoEscape
    else if opc == 0xEE || opc == 0xEF then EscapeOf(OUT, n + 1)
    else if opc == 0x0F05 then EscapeOf(SYSCALL, n + 2)
    else if opc == 0x0F34 then EscapeOf(SYSENTER, n + 2)
    else if opc == 0x0FA2 then EscapeOf(CPUID, n + 2)
    else if opc == 0x0F31 then EscapeOf(RDTSC, n + 2)
    else NoEscape
  }

  function ClassifyLong(opc: nat, n: nat, code: seq<byte>): Class {
    if opc == 0x0F01 && n + 2 < |code| && code[n + 2] == 0xD0 then EscapeOf(XGETBV, n + 3)
    else if opc == 0x0F01 && n + 2 < |code| && code[n + 2] == 0xF9 then EscapeOf(RDTSCP, n + 3)
    else if opc == 0x0FC7 && Rdrand(code) then EscapeOf(RDRAND, n + 3)
    else if opc == 0x0F20 && |code| >= n + 3 then EscapeOf(READCRX, n + 3)
    else if opc == 0x0F22 && |code| >= n + 3 then EscapeOf(WRITECRX, n + 3)
    else if opc == 0x0F1E && Rdssp(code) then
      EscapeOf(if LastRexW(code, SkipPrefixes(code, 0)) then RDSSPQ else RDSSPD, SkipPrefixes(code, 0) + 3)
    else NoEscape
  }

  function ClassifyEscape(mode: nat, code: seq<byte>): Class {
    var n := PrefixLength(mode, code, 0);
    var opc := OpcodeAt(code, n);
    if code == [] || opc == NO_OPCODE then NoEscape
    else if ClassifyShort(opc, n, |code|) != NoEscape then ClassifyShort(opc, n, |code|)
    else ClassifyLong(opc, n, code)
  }

  /** cpueaxh_classify_escape_instruction. */
  method ClassifyEscapeInstruction(mode: nat, code: seq<byte>) returns (class_: Class)
    ensures class_ == ClassifyEscape(mode, code)
  {
    hide Rdrand, Rdssp, PrefixLength, OpcodeAt, LastRexW, SkipPrefixes;
    if code == [] {
      return NoEscape;
    }
    var opc, n := PeekOpcode(mode, code);
    if opc == NO_OPCODE {
      return NoEscape;
    }
    var short := ClassifyShort(opc, n, |code|);
    if short != NoEscape {
      return short;
    }
    var rdrand := IsRdrand(code);
    var rdssp, wide, size := IsRdssp(code);
    if opc == 0x0FC7 && rdrand {
      return EscapeOf(RDRAND, n + 3);
    }
    if opc == 0x0F1E && rdssp {
      return EscapeOf(if wide then RDSSPQ else RDSSPD, size);
    }
    return ClassifyLong(opc, n, code);
  }

  /** Only candidate opcodes are ever classified: what lets the run loop skip the classifier. */
  lemma {:induction false} EscapesAreCandidates(mode: nat, code: seq<byte>)
    ensures ClassifyEscape(mode, code) != NoEscape ==> EscapeCandidate(OpcodeAt(code, PrefixLength(mode, code, 0)))
  {
    hide Rdrand, Rdssp, PrefixLength, OpcodeAt, LastRexW, SkipPrefixes;
  }

  /** Where both scans see a 0F byte next, they stopped at the same place. */
  lemma {:induction false} ScansAgree(mode: nat, code: seq<byte>)
    requires var n := PrefixLength(mode, code, 0); n < |code| && code[n] == 0x0F
    ensures SkipPrefixes(code, 0) == PrefixLength(mode, code, 0)
  {
    hide PrefixLength, SkipPrefixes;
    var n, k := PrefixLength(mode, code, 0), SkipPrefixes(code, 0);
    assert forall i :: 0 <= i < n ==> AnyPrefix(code[i]);
    assert !AnyPrefix(code[n]);
  }

  /** Every classified instruction has a known id and lies within the bytes fetched. */
  lemma {:induction false} EscapeFits(mode: nat, code: seq<byte>)
    ensures ClassifyEscape(mode, code) != NoEscape ==>
              var class_ := ClassifyEscape(mode, code);
              IndexedId(class_.id) && 0 < class_.size <= |code| && class_.size <= PrefixLength(mode, code, 0) + 3
  {
    hide PrefixLength, LastRexW, SkipPrefixes, RegField, ModField;
    var n := PrefixLength(mode, code, 0);
    if n < |code| && code[n] == 0x0F {
      ScansAgree(mode, code);
    }
  }

  /** The shortest 64-bit encodings of the escape instructions, from the opcode map of the Intel manual. */
  function Encoding(id: nat): seq<byte>
    requires IndexedId(id)
  {
    if id == SYSCALL then [0x0F, 0x05] else if id == SYSENTER then [0x0F, 0x34]
    else if id == INTN then [0xCD, 0x80] else if id == INT3 then [0xCC]
    else if id == CPUID then [0x0F, 0xA2] else if id == XGETBV then [0x0F, 0x01, 0xD0]
    else if id == RDTSC then [0x0F, 0x31] else if id == RDTSCP then [0x0F, 0x01, 0xF9]
    else if id == RDRAND then [0x0F, 0xC7, 0xF0] else if id == HLT then [0xF4]
    else if id == IN then [0xEC] else if id == OUT then [0xEE]
    else if id == WRITECRX then [0x0F, 0x22, 0xC0] else if id == READCRX then [0x0F, 0x20, 0xC0]
    else if id == RDSSPD then [0xF3, 0x0F, 0x1E, 0xC8] else if id == RDSSPQ then [0xF3, 0x48, 0x0F, 0x1E, 0xC8]
    else if id == INS then [0x6C] else if id == INT1 then [0xF1] else [0x0F, 0x0B]
  }

  /** The prefixes of an encoding itself. */
  function OwnPrefixes(id: nat): nat {
    if id == RDSSPD then 1 else if id == RDSSPQ then 2 else 0
  }

  lemma {:induction false} PrefixesEnd(mode: nat, code: seq<byte>, n: nat)
    requires n < |code| && (forall i :: 0 <= i < n ==> SkippedByPeek(mode, code[i]))
    requires !AnyPrefix(code[n])
    ensures PrefixLength(mode, code, 0) == SkipPrefixes(code, 0) == n
  {
    hide PrefixLength, SkipPrefixes;
    var k, l := PrefixLength(mode, code, 0), SkipPrefixes(code, 0);
    assert !SkippedByPeek(mode, code[n]);
    assert forall i :: 0 <= i < n ==> AnyPrefix(code[i]);
  }

  lemma {:induction false} OpcodeOf(id: nat)
    requires IndexedId(id)
    ensures var bytes, n := Encoding(id), OwnPrefixes(id);
            && n < |bytes| && !AnyPrefix(bytes[n]) && (bytes[n] == 0x0F ==> n + 1 < |bytes|)
            && (id == RDSSPD ==> bytes[0] == 0xF3) && (id == RDSSPQ ==> bytes[0] == 0xF3 && bytes[1] == 0x48)
  {
  }

  lemma {:induction false} RexOfPrefixes(code: seq<byte>, other: seq<byte>, n: nat)
    requires n <= |code| && n <= |other| && code[..n] == other[..n]
    ensures LastRexW(code, n) == LastRexW(other, n)
    decreases n
  {
    if n > 0 {
      assert code[..n][n - 1] == other[..n][n - 1];
      assert code[..n - 1] == code[..n][..n - 1] == other[..n - 1];
      RexOfPrefixes(code, other, n - 1);
    }
  }

  /** Each escape instruction is classified under its own id, at its full length, behind any prefixes and whatever
      follows; RDSSP must have no LOCK, and a REX.W prefix makes the dword form the qword one. */
  lemma {:induction false} PrefixedEscape(mode: nat, pre: seq<byte>, id: nat, rest: seq<byte>)
    requires IndexedId(id) && forall i :: 0 <= i < |pre| ==> SkippedByPeek(mode, pre[i])
    requires id == RDSSPD ==> 0xF0 !in pre && !LastRexW(pre, |pre|)
    requires id == RDSSPQ ==> 0xF0 !in pre && RexAllowed(mode)
    ensures ClassifyEscape(mode, pre + Encoding(id) + rest) == EscapeOf(id, |pre| + |Encoding(id)|)
  {
    hide PrefixLength, SkipPrefixes, LastRexW, Encoding;
    var code, n := pre + Encoding(id) + rest, |pre| + OwnPrefixes(id);
    OpcodeOf(id);
    assert forall i :: 0 <= i < |Encoding(id)| ==> code[|pre| + i] == Encoding(id)[i];
    PrefixesEnd(mode, code, n);
    if id == RDSSPD || id == RDSSPQ {
      RdsspPrefixes(pre, id, rest);
    }
    ClassifiedAt(mode, code, n, id);
  }

  lemma {:induction false} RdsspPrefixes(pre: seq<byte>, id: nat, rest: seq<byte>)
    requires (id == RDSSPD && !LastRexW(pre, |pre|)) || id == RDSSPQ
    requires 0xF0 !in pre
    ensures var code, n := pre + Encoding(id) + rest, |pre| + OwnPrefixes(id);
            && n <= |code| && 0xF0 !in code[..n] && 0xF3 in code[..n] && LastRexW(code, n) == (id == RDSSPQ)
  {
    var code, n := pre + Encoding(id) + rest, |pre| + OwnPrefixes(id);
    assert code[..n] == if id == RDSSPD then pre + [0xF3] else pre + [0xF3, 0x48];
    assert code[..n][|pre|] == 0xF3;
    if id == RDSSPD {
      assert code[..n - 1] == pre[..n - 1];
      RexOfPrefixes(code, pre, n - 1);
    }
  }

  lemma {:induction false} ClassifiedAt(mode: nat, code: seq<byte>, n: nat, id: nat)
    requires IndexedId(id) && PrefixLength(mode, code, 0) == SkipPrefixes(code, 0) == n
    requires var bytes, own := Encoding(id), OwnPrefixes(id);
             && own <= n && n - own + |bytes| <= |code|
             && forall i :: own <= i < |bytes| ==> code[n - own + i] == bytes[i]
    requires id == RDSSPD || id == RDSSPQ ==>
             0xF0 !in code[..n] && 0xF3 in code[..n] && LastRexW(code, n) == (id == RDSSPQ)
    ensures ClassifyEscape(mode, code) == EscapeOf(id, n - OwnPrefixes(id) + |Encoding(id)|)
  {
    hide PrefixLength, SkipPrefixes, LastRexW;
    var bytes, own := Encoding(id), OwnPrefixes(id);
    assert code[n] == bytes[own];
    assert own + 1 < |bytes| ==> code[n + 1] == bytes[own + 1];
    assert own + 2 < |bytes| ==> code[n + 2] == bytes[own + 2];
  }

  // Dispatch.

  /** What an escape callback leaves behind: the engine's own machine, the public context it edited, whether
      it failed, and whether it asked the run to stop. */
  datatype Reply = Reply(machine: Machine, context: Cpu, failed: bool, stop: bool)

  /** Importing a public context: everything it holds is copied, long mode is active, and the mode key has to
      be computed again. The x87 unit and the decoder's scratch fields are not part of it. */
  function ContextIn(engine: Cpu, context: Cpu): Cpu {
    Cpu(engine.scalar.(regs := context.scalar.regs, controlRegs := context.scalar.controlRegs, longModeActive := true,
                       segments := context.scalar.segments, rip := context.scalar.rip, rflags := context.scalar.rflags,
                       cpl := context.scalar.cpl, tables := context.scalar.tables),
        context.vector, context.exception, engine.modeKeyBits, false)
  }

  datatype Attempt =
    | NotTaken(machine: Machine)
    | Taken(machine: Machine, called: Option<nat>, stop: bool, outcome: EscapeOutcome)

  datatype EscapeOutcome = Executed | RaisedException | CallbackFailed

  predicate Optional(id: nat) {
    id == RDSSPD || id == RDSSPQ
  }

  function Unhandled(id: nat): ExceptionCode {
    if id == INT3 then BP else if id == INT1 then DB else UD
  }

  /** After a callback that succeeded: import its context, and step over the instruction if it left RIP alone. */
  function Complete(callback: nat, reply: Reply, ripBefore: u64, size: nat): Attempt {
    var c := ContextIn(reply.machine.cpu, reply.context);
    var moved := c.(scalar := c.scalar.(rip := if c.scalar.rip == ripBefore then Wrap(ripBefore + size)
                                        else c.scalar.rip,
                                        lastInstSize := size));
    Taken(reply.machine.(cpu := moved), Some(callback), reply.stop, if Pending(moved) then RaisedException
          else Executed)
  }

  function HandlerFor(escapes: seq<Escape>, id: nat, address: u64): Option<Escape> {
    match Indexed(escapes, id)
    case Some(e) => if RangeContains(e.begin, e.end, address) then Some(e) else None
    case None => None
  }

  /** cpueaxh_try_dispatch_escape. */
  function TryEscape(onEscape: (nat, seq<byte>, Machine) -> Reply, escapes: seq<Escape>, m: Machine,
                     address: u64, code: seq<byte>): Attempt {
    match ClassifyEscape(ModeBits(m.cpu), code)
    case NoEscape => NotTaken(m)
    case EscapeOf(id, size) =>
      match HandlerFor(escapes, id, address)
      case Some(e) =>
        var reply := onEscape(e.callback, code, m);
        if reply.failed then Taken(reply.machine, Some(e.callback), reply.stop, CallbackFailed)
        else Complete(e.callback, reply, m.cpu.scalar.rip, size)
      case None =>
        if Optional(id) then NotTaken(m)
        else Taken(m.(cpu := Raise(m.cpu, Unhandled(id), 0)), None, false, RaisedException)
  }

  /** Behind an escape whose callback did not fail stands the machine the callback left, with the registers, flags,
      segments, vector state and exception of the context it edited. RIP is the one it set, or the next instruction
      when it set none; the size of the instruction is recorded either way, and an exception in the context counts. */
  lemma {:induction false} EscapeSteps(onEscape: (nat, seq<byte>, Machine) -> Reply, escapes: seq<Escape>, m: Machine,
                                       address: u64, code: seq<byte>)
    requires ClassifyEscape(ModeBits(m.cpu), code) != NoEscape
    requires HandlerFor(escapes, ClassifyEscape(ModeBits(m.cpu), code).id, address).Some?
    requires !onEscape(HandlerFor(escapes, ClassifyEscape(ModeBits(m.cpu), code).id, address).value.callback, code,
                       m).failed
    ensures var class_ := ClassifyEscape(ModeBits(m.cpu), code);
            var e := HandlerFor(escapes, class_.id, address).value;
            var reply := onEscape(e.callback, code, m);
            var a := TryEscape(onEscape, escapes, m, address, code);
            && a.Taken? && a.called == Some(e.callback) && a.stop == reply.stop
            && a.machine.mem == reply.machine.mem
            && a.machine.cpu.scalar.rip
               == (if reply.context.scalar.rip == m.cpu.scalar.rip
                   then (m.cpu.scalar.rip + class_.size) % 0x1_0000_0000_0000_0000 else reply.context.scalar.rip)
            && a.machine.cpu.scalar.lastInstSize == class_.size
            && a.machine.cpu.scalar.regs == reply.context.scalar.regs
            && a.machine.cpu.scalar.rflags == reply.context.scalar.rflags
            && a.machine.cpu.scalar.segments == reply.context.scalar.segments
            && a.machine.cpu.scalar.cpl == reply.context.scalar.cpl && a.machine.cpu.scalar.longModeActive
            && a.machine.cpu.scalar.controlRegs == reply.context.scalar.controlRegs
            && a.machine.cpu.scalar.tables == reply.context.scalar.tables
            && a.machine.cpu.vector == reply.context.vector && a.machine.cpu.exception == reply.context.exception
            && a.machine.cpu.scalar.x87 == reply.machine.cpu.scalar.x87
            && a.outcome == (if reply.context.exception.code == NoException then Executed else RaisedException)
  {
    hide ClassifyEscape, HandlerFor;
  }

  /** Importing a context restores the mode-key invariant, whatever the callback did to the key. */
  lemma {:induction false} ContextInCoherent(engine: Cpu, context: Cpu)
    ensures ModeKeyCoherent(ContextIn(engine, context))
    ensures PrimeModeKey(ContextIn(engine, context)).modeKeyBits == ModeBits(ContextIn(engine, context))
  {
  }

  /** With ids in range, an instruction classified as an escape is handed to the callback a scan of the list
      would find. */
  lemma {:induction false} HandlerIsScan(escapes: seq<Escape>, mode: nat, code: seq<byte>, address: u64)
    requires ValidIds(escapes) && DistinctIds(escapes) && ClassifyEscape(mode, code) != NoEscape
    ensures var id := ClassifyEscape(mode, code).id;
            && (HandlerFor(escapes, id, address) == None <==>
                forall i :: 0 <= i < |escapes| && escapes[i].id == id ==>
                    !RangeContains(escapes[i].begin, escapes[i].end, address))
            && (HandlerFor(escapes, id, address).Some? ==> HandlerFor(escapes, id, address).value in escapes)
  {
    hide ClassifyEscape, RangeContains, Encoded;
    var id := ClassifyEscape(mode, code).id;
    TidyIndexIsScan(escapes, id);
    var k := Position(escapes, id, 0);
    if k < |escapes| {
      assert forall i :: 0 <= i < |escapes| && escapes[i].id == id ==> i == k;
    }
  }
}
