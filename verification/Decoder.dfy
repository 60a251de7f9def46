/** From instruction bytes and mode bits to a cache entry. */
module Decoder {
  import opened Bits
  import opened MemoryManagement
  import opened CpuState
  import opened Flags
  import opened Addressing
  import opened AluDecode
  import opened AluExecute

  // Mode bits, as the cache key packs them.

  predicate LongModeBit(mode: nat) {
    mode % 2 == 1
  }

  predicate LongCodeBit(mode: nat) {
    mode / 2 % 2 == 1
  }

  predicate RexAllowed(mode: nat) {
    LongModeBit(mode) && LongCodeBit(mode)
  }

  datatype Handler = NoHandler | Alu(op: AluOp) | Opaque(id: nat)

  /** What an arm of the dispatch ladder decides: a handler, none at all (0F 1E), or #UD. */
  datatype Resolution = Run(id: nat, partial: bool) | Nothing | Undefined

  /** What a probe keeps of a decode: the instruction, as numbers, and its length. */
  datatype Captured = Captured(fields: seq<int>, length: nat)

  /** The instructions this model does not open up: which handler the ladder gives them, whether they touch vector
      state, what the handler does to the machine, what a probe in some state captures of the bytes, and what the
      fast handler does with that. */
  datatype Isa = Isa(
    special: seq<byte> -> Option<nat>,
    other: (seq<byte>, nat) -> Option<Resolution>,
    touchesVector: (seq<byte>, nat) -> bool,
    run: (nat, seq<byte>, Machine) -> Machine,
    attach: (nat, seq<byte>, Cpu) -> Option<Captured>,
    fast: (nat, Captured, Machine) -> Machine)

  /** The payload of a fast handler. */
  datatype Prepared = AluPrepared(payload: Payload) | OtherPrepared(id: nat, captured: Captured)

  datatype InlineKind = NotInline | RetPlain | RetImmediate | JccShort | JccNear

  /** DecodedInst. An entry without bytes stands for a failed decode and is never cached. */
  datatype Entry = Entry(
    bytes: seq<byte>, segmentOverride: Override, handler: Handler, fast: Option<Prepared>, inline: InlineKind,
    branch: bool, vector: bool, ud: bool, bp: bool, db: bool, noFault: bool, notEscape: bool, partial: bool,
    length: nat, retPrefix: nat, retSize: nat, retImmediate: nat, condition: nat, displacement: int)

  const NO_OPCODE: nat := 0xFFFF

  function BlankEntry(bytes: seq<byte>): Entry {
    Entry(bytes, NoOverride, NoHandler, None, NotInline, false, false, false, false, false, false, false, false,
          0, 0, 0, 0, 0, 0)
  }

  // Scanning the bytes.

  predicate LegacyPrefix(b: byte) {
    b == 0x66 || b == 0x67 || b == 0xF0 || IgnoredPrefix(b)
  }

  predicate SkippedByPeek(mode: nat, b: byte) {
    LegacyPrefix(b) || (RexAllowed(mode) && 0x40 <= b <= 0x4F)
  }

  function PrefixLength(mode: nat, code: seq<byte>, i: nat): (n: nat)
    requires i <= |code|
    ensures i <= n <= |code|
    ensures n < |code| ==> !SkippedByPeek(mode, code[n])
    ensures forall k :: i <= k < n ==> SkippedByPeek(mode, code[k])
    decreases |code| - i
  {
    if i < |code| && SkippedByPeek(mode, code[i]) then PrefixLength(mode, code, i + 1) else i
  }

  /** Two-byte opcodes are 0F00 to 0FFF; NO_OPCODE when the bytes are all prefixes. */
  function OpcodeAt(code: seq<byte>, n: nat): nat {
    if n >= |code| then NO_OPCODE
    else if code[n] == 0x0F && n + 1 < |code| then 0x0F00 + code[n + 1] as nat
    else code[n] as nat
  }

  method PeekOpcode(mode: nat, code: seq<byte>) returns (opcode: nat, prefixLength: nat)
    ensures prefixLength == PrefixLength(mode, code, 0) && opcode == OpcodeAt(code, prefixLength)
  {
    var i := 0;
    while i < |code| && SkippedByPeek(mode, code[i])
      invariant 0 <= i <= |code|
      invariant PrefixLength(mode, code, i) == PrefixLength(mode, code, 0)
    {
      i := i + 1;
    }
    return OpcodeAt(code, i), i;
  }

  function SegmentPrefix(b: byte): Override {
    if b == 0x26 then Override(SegES)
    else if b == 0x2E then Override(SegCS)
    else if b == 0x36 then Override(SegSS)
    else if b == 0x3E then Override(SegDS)
    else if b == 0x64 then Override(SegFS)
    else if b == 0x65 then Override(SegGS)
    else NoOverride
  }

  /** The last segment prefix among the first n bytes. */
  function PeekSegment(code: seq<byte>, n: nat): Override
    requires n <= |code|
    decreases n
  {
    if n == 0 then NoOverride
    else if SegmentPrefix(code[n - 1]) != NoOverride then SegmentPrefix(code[n - 1])
    else PeekSegment(code, n - 1)
  }

  method PeekSegmentOverride(code: seq<byte>, prefixLength: nat) returns (segment: Override)
    requires prefixLength <= |code|
    ensures segment == PeekSegment(code, prefixLength)
  {
    segment := NoOverride;
    var i := 0;
    while i < prefixLength
      invariant 0 <= i <= prefixLength
      invariant segment == PeekSegment(code, i)
    {
      if SegmentPrefix(code[i]) != NoOverride {
        segment := SegmentPrefix(code[i]);
      }
      i := i + 1;
    }
  }

  /** The last of 66, F2 and F3 among the first n bytes. */
  function MandatoryPrefix(code: seq<byte>, n: nat): byte
    requires n <= |code|
    decreases n
  {
    if n == 0 then 0
    else if code[n - 1] == 0x66 || code[n - 1] == 0xF2 || code[n - 1] == 0xF3 then code[n - 1]
    else MandatoryPrefix(code, n - 1)
  }

  /** The ModRM fields, 0xFF when the byte is missing. */
  function PeekMod(code: seq<byte>, pos: nat): nat {
    if pos < |code| then ModField(code[pos]) else 0xFF
  }

  function PeekReg(code: seq<byte>, pos: nat): nat {
    if pos < |code| then RegField(code[pos]) else 0xFF
  }

  /** What the decoders of these bytes read of the context besides RIP and the mode: outside 64-bit code the stack size
      for ENTER and LEAVE and the base of DS for the direct forms of MOV, and CR4.FSGSBASE for the 0F AE group. */
  function Latent(code: seq<byte>, c: Cpu): seq<nat> {
    var opc := OpcodeAt(code, PrefixLength(ModeBits(c), code, 0));
    if opc == 0xC8 || opc == 0xC9 then if Is64BitCode(c) then [] else [BoolBit(c.scalar.segments.ss.db)]
    else if 0xA0 <= opc <= 0xA3 then if Is64BitCode(c) then [] else [c.scalar.segments.ds.base]
    else if opc == 0x0FAE then [FsGsBaseBit(c)]
    else []
  }

  /** CR4.FSGSBASE. */
  function FsGsBaseBit(c: Cpu): nat {
    c.scalar.controlRegs[4] / 0x1_0000 % 2
  }

  // Opcode classes.

  predicate BranchOpcode(opc: nat) {
    || 0x0F80 <= opc <= 0x0F8F || 0x70 <= opc <= 0x7F || 0xE0 <= opc <= 0xE3
    || opc in {0xEB, 0xE9, 0xEA, 0xE8, 0x9A, 0xC2, 0xC3, 0xCA, 0xCB, 0xCF, 0xFF}
  }

  predicate EscapeOwnedUd(opc: nat) {
    opc in {0xCD, 0x0F0B, 0xE4, 0xE5, 0xE6, 0xE7, 0xEC, 0xED, 0xEE, 0xEF, 0x0F05, 0x0F34, 0xF4, 0x0FA2, 0x0F20, 0x0F22}
  }

  predicate EscapeCandidate(opc: nat) {
    || opc in {0xCC, 0xCD, 0xF1, 0xF4, 0x0F0B}
    || opc in {0xE4, 0xE5, 0xE6, 0xE7, 0xEC, 0xED, 0xEE, 0xEF, 0x6C, 0x6D}
    || opc in {0x0F05, 0x0F34, 0x0FA2, 0x0F31, 0x0F01, 0x0FC7, 0x0F20, 0x0F22, 0x0F1E}
  }

  /** The integer arms of the ladder that this model opens up. They look at the low opcode byte, so some
      two-byte opcodes land here too; the instruction decoder then refuses them. */
  function AluRoute(low: nat, reg: nat): Option<AluOp> {
    if 0x00 <= low <= 0x05 || (low in {0x80, 0x81, 0x83} && reg == 0) then Some(Add)
    else if 0x20 <= low <= 0x25 || (low in {0x80, 0x81, 0x83} && reg == 4) then Some(AndOp)
    else if 0x28 <= low <= 0x2D || (low in {0x80, 0x81, 0x83} && reg == 5) then Some(Sub)
    else if 0x38 <= low <= 0x3D || (low in {0x80, 0x81, 0x83} && reg == 7) then Some(Cmp)
    else None
  }

  /** The classifier behind NO_FAULT, branch by branch; n is the number of prefix bytes. Its arm for C6 and C7
      never fires, because the reg field it tests is read for 80, 81 and 83 only. */
  predicate ClassifyNoFault(code: seq<byte>, n: nat, opc: nat) {
    var low := opc % 0x100;
    var register := PeekMod(code, n + 1) == 3;
    var register2 := PeekMod(code, n + 2) == 3;
    var reg := PeekReg(code, n + 1);
    && n < |code|
    && (forall i :: 0 <= i < n ==> code[i] != 0xF0)
    && (opc == 0xE9 || 0x0F80 <= opc <= 0x0F8F ==> forall i :: 0 <= i < n ==> code[i] != 0x66)
    && ( || 0x40 <= opc <= 0x4F
         || 0xB0 <= opc <= 0xBF
         || (opc in {0x80, 0x81, 0x83} && reg != 0xFF && register)
         || (low <= 0x3F && low % 8 in {4, 5})
         || (low <= 0x3F && low % 8 in {0, 1, 2, 3} && register)
         || (low in {0x88, 0x89, 0x8A, 0x8B} && register)
         || low == 0x8D
         || (low in {0x84, 0x85, 0x86, 0x87} && register)
         || (low in {0xC0, 0xC1, 0xD0, 0xD1, 0xD2, 0xD3} && reg != 0xFF && register)
         || (low in {0xF6, 0xF7} && reg <= 5 && register)
         || (low in {0xFE, 0xFF} && reg <= 1 && register)
         || opc in {0x0F1E, 0x0F1F}
         || (0x0F40 <= opc <= 0x0F4F && register2)
         || (0x0F90 <= opc <= 0x0F9F && register2)
         || (opc in {0x0FB6, 0x0FB7, 0x0FBE, 0x0FBF, 0x0FBC, 0x0FBD, 0x0FB8} && register2)
         || 0x0FC8 <= opc <= 0x0FCF
         || opc in {0x90, 0xF5, 0xF8, 0xF9, 0xFC, 0xFD})
  }

  // The static part of a decode.

  function RetOperandSize(mode: nat, code: seq<byte>, n: nat): nat
    requires n <= |code|
  {
    if exists i :: 0 <= i < n && code[i] == 0x66 then 16 else if RexAllowed(mode) then 64 else 32
  }

  function SignedByte(b: byte): int {
    if b >= 0x80 then b - 0x100 else b
  }

  function SignedDword(raw: nat): int {
    if raw >= 0x8000_0000 then raw - 0x1_0000_0000 else raw
  }

  function InlineRet(e: Entry, n: nat, size: nat, immediate: nat, hasImmediate: bool): Entry {
    e.(inline := if hasImmediate then RetImmediate else RetPlain, retPrefix := n, retSize := size,
       retImmediate := immediate, length := n + (if hasImmediate then 3 else 1), branch := true)
  }

  /** Whether the opcode counts as a branch; for FF the reg field decides. */
  predicate Branches(code: seq<byte>, n: nat, opc: nat) {
    if opc % 0x100 == 0xFF then PeekReg(code, n + 1) in {2, 3, 4, 5} else BranchOpcode(opc)
  }

  datatype Verdict = Handled(handler: Handler, partial: bool) | Refused

  /** The dispatch ladder: a handler, or #UD. */
  function Ladder(isa: Isa, mode: nat, code: seq<byte>, n: nat, opc: nat): Verdict {
    match isa.other(code, mode)
    case Some(Run(id, partial)) => Handled(Opaque(id), partial)
    case Some(Nothing) => Handled(NoHandler, false)
    case Some(Undefined) => Refused
    case None =>
      var low := opc % 0x100;
      match AluRoute(low, if low in {0x80, 0x81, 0x83} then PeekReg(code, n + 1) else 0xFF)
      case Some(op) => Handled(Alu(op), false)
      case None => Refused
  }

  function Install(e: Entry, verdict: Verdict, noFault: bool): Entry {
    match verdict
    case Handled(handler, partial) => e.(handler := handler, partial := partial, noFault := noFault && !e.vector)
    case Refused => e.(ud := true)
  }

  function StartEntry(isa: Isa, mode: nat, code: seq<byte>, n: nat, opc: nat): Entry
    requires n <= |code|
  {
    BlankEntry(code).(
      segmentOverride := PeekSegment(code, n), vector := isa.touchesVector(code, mode),
      branch := BranchOpcode(opc), notEscape := !EscapeCandidate(opc))
  }

  /** Everything after the early exits for prefixes and special encodings. */
  function Classify(isa: Isa, mode: nat, code: seq<byte>, n: nat, opc: nat): Entry
    requires n < |code|
  {
    var e := StartEntry(isa, mode, code, n, opc);
    if opc == 0xF4 then e.(ud := true)
    else if opc == 0xCC then e.(bp := true)
    else if opc == 0xF1 then e.(db := true)
    else if opc == 0x0F0B || EscapeOwnedUd(opc) then e.(ud := true)
    else if opc == 0xC3 then InlineRet(e, n, RetOperandSize(mode, code, n), 0, false)
    else if opc == 0xC2 then
      if |code| < n + 3 then e.(ud := true)
      else InlineRet(e, n, RetOperandSize(mode, code, n), LittleEndian(code[n + 1..n + 3]), true)
    else if n == 0 && 0x70 <= opc <= 0x7F && LongCodeBit(mode) && |code| >= 2 then
      e.(inline := JccShort, condition := opc % 0x10, displacement := SignedByte(code[1]), length := 2, branch := true)
    else if n == 0 && 0x0F80 <= opc <= 0x0F8F && LongCodeBit(mode) && |code| >= 6 then
      e.(inline := JccNear, condition := opc % 0x10, displacement := SignedDword(LittleEndian(code[2..6])), length := 6,
         branch := true)
    else Install(e.(branch := Branches(code, n, opc)), Ladder(isa, mode, code, n, opc), ClassifyNoFault(code, n, opc))
  }

  /** The entry for these bytes in this mode, before a fast handler is tried. */
  function StaticEntry(isa: Isa, mode: nat, code: seq<byte>): Entry {
    match isa.special(code)
    case Some(id) => BlankEntry(code).(handler := Opaque(id), vector := true)
    case None =>
      var n := PrefixLength(mode, code, 0);
      if n >= |code| then BlankEntry([]) else Classify(isa, mode, code, n, OpcodeAt(code, n))
  }

  // The probe.

  predicate Clean(p: Parsed) {
    p.early == None && p.late == None && p.complete
  }

  /** A probe decodes in the live state and keeps the result only if nothing was raised. */
  predicate ProbeSucceeds(op: AluOp, c: Cpu, code: seq<byte>) {
    !Pending(Decode(op, c, code)) && 0 < ProbeLength(op, c, code) <= 15
  }

  function ProbeLength(op: AluOp, c: Cpu, code: seq<byte>): nat {
    Decode(op, c, code).scalar.lastInstSize
  }

  function ProbePayload(op: AluOp, c: Cpu, code: seq<byte>): Payload {
    var after := Decode(op, c, code);
    Payload(op, DecodedInst(op, c, code), after.scalar.prefixes, after.scalar.lastInstSize)
  }

  predicate Installable(e: Entry) {
    !e.ud && e.bytes != []
  }

  /** Installing the fast handler: a probe in the live state decides whether there is one, and with what. */
  function Attach(isa: Isa, e: Entry, c: Cpu): Entry {
    if !Installable(e) then e
    else
      match e.handler
      case Alu(op) =>
        if ProbeSucceeds(op, c, e.bytes) then
          e.(fast := Some(AluPrepared(ProbePayload(op, c, e.bytes))), length := ProbeLength(op, c, e.bytes))
        else e
      case Opaque(id) => AttachOther(isa, e, id, c)
      case NoHandler => e
  }

  function AttachOther(isa: Isa, e: Entry, id: nat, c: Cpu): Entry {
    match isa.attach(id, e.bytes, c)
    case Some(captured) =>
      if 0 < captured.length <= 15 then e.(fast := Some(OtherPrepared(id, captured)), length := captured.length) else e
    case None => e
  }

  /** The encodings that bypass the prefix scan never get a fast handler. */
  function DecodeAt(isa: Isa, c: Cpu, code: seq<byte>): Entry {
    if code == [] then BlankEntry([])
    else if isa.special(code).Some? then StaticEntry(isa, ModeBits(c), code)
    else Attach(isa, StaticEntry(isa, ModeBits(c), code), c)
  }

  lemma {:induction false} EffectsFrame(c: Cpu, p: Parsed)
    ensures var after := Effects(c, p);
            after == c.(exception := after.exception, scalar := c.scalar.(lastInstSize := after.scalar.lastInstSize))
  {
    hide LinearAddress, EffectiveSegment, Canonical, Is64BitCode, MemoryForm, RipRelative;
  }

  /** Decoding touches the prefix bits, the instruction size and the exception, nothing else. */
  lemma {:induction false} DecodeFrame(op: AluOp, c: Cpu, code: seq<byte>)
    ensures var after := Decode(op, c, code);
            after == c.(exception := after.exception,
                        scalar := c.scalar.(prefixes := after.scalar.prefixes,
                                            lastInstSize := after.scalar.lastInstSize))
    ensures Decode(op, c, code).scalar.prefixes == Parse(op, c.scalar.segments.cs.longMode, code).prefixes
  {
    hide Parse, Effects;
    var p := Parse(op, c.scalar.segments.cs.longMode, code);
    EffectsFrame(Stamp(c, p.prefixes), p);
  }

  /** cpu_decoder_probe_with_helper: decode, look, and put the context back. */
  method Probe(ctx: CpuContext, op: AluOp, code: seq<byte>) returns (ok: bool, payload: Payload)
    modifies ctx`scalar, ctx`exception
    ensures ctx.State() == old(ctx.State())
    ensures ok == ProbeSucceeds(op, ctx.State(), code)
    ensures ok ==> payload == ProbePayload(op, ctx.State(), code)
  {
    hide Decode, DecodedInst, Pending;
    var scalar, exception := ctx.scalar, ctx.exception;
    var inst := DecodeAlu(ctx, op, code);
    DecodeFrame(op, old(ctx.State()), code);
    ok := !Pending(ctx.State()) && 0 < ctx.scalar.lastInstSize <= 15;
    payload := Payload(op, inst, ctx.scalar.prefixes, ctx.scalar.lastInstSize);
    ctx.scalar := ctx.scalar.(prefixes := scalar.prefixes, segmentOverride := scalar.segmentOverride,
                              lastInstSize := scalar.lastInstSize);
    ctx.exception := exception;
  }

  /** cpu_decode_instruction: whatever it tries on the way, the context comes back as it was. */
  method DecodeInstruction(ctx: CpuContext, isa: Isa, code: seq<byte>) returns (e: Entry)
    modifies ctx`scalar, ctx`exception
    ensures ctx.State() == old(ctx.State())
    ensures e == DecodeAt(isa, ctx.State(), code)
  {
    hide ModeBits, PrefixLength, Classify, ProbeSucceeds, ProbePayload;
    if code == [] {
      return BlankEntry([]);
    }
    var mode := ModeBits(ctx.State());
    match isa.special(code) {
      case Some(id) => return BlankEntry(code).(handler := Opaque(id), vector := true);
      case None =>
    }
    var opc, n := PeekOpcode(mode, code);
    if n >= |code| {
      return BlankEntry([]);
    }
    e := Classify(isa, mode, code, n, opc);
    ClassifyKeepsBytes(isa, mode, code, n, opc);
    if !Installable(e) {
      return e;
    }
    match e.handler
    case Alu(op) =>
      var ok, payload := Probe(ctx, op, e.bytes);
      if ok {
        ProbeLengths(op, ctx.State(), e.bytes);
        e := e.(fast := Some(AluPrepared(payload)), length := payload.length);
      }
    case Opaque(id) => e := AttachOther(isa, e, id, ctx.State());
    case NoHandler =>
  }

  lemma {:induction false} ProbeLengths(op: AluOp, c: Cpu, code: seq<byte>)
    ensures ProbePayload(op, c, code).length == ProbeLength(op, c, code)
  {
    hide Decode, DecodedInst;
  }

  lemma {:induction false} ClassifyKeepsBytes(isa: Isa, mode: nat, code: seq<byte>, n: nat, opc: nat)
    requires n < |code|
    ensures var e := Classify(isa, mode, code, n, opc);
            e.bytes == code && e.fast == None
  {
    hide ClassifyNoFault, PeekSegment, BranchOpcode, EscapeCandidate, EscapeOwnedUd, AluRoute, RetOperandSize,
      LittleEndian;
  }
}
