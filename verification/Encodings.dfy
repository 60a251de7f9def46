/** ADD, SUB, AND and CMP as the opcode map lists them: every encoding, what decoding it finds, and how many bytes an
    instruction has. */
module Encodings {
  import opened Bits
  import opened MemoryManagement
  import opened CpuState
  import opened Flags
  import opened Addressing
  import opened AluDecode
  import opened Decoder
  import opened Executor
  import opened Replay
  import opened Operands

  // Prefixes.

  predicate PrefixByte(b: byte) {
    b in {0x26, 0x2E, 0x36, 0x3E, 0x64, 0x65, 0x66, 0x67, 0xF0, 0xF2, 0xF3} || 0x40 <= b <= 0x4F
  }

  /** The last REX byte, wherever it stands among the prefixes, or zero. */
  function LastRex(pre: seq<byte>): byte {
    if pre == [] then 0
    else if 0x40 <= pre[|pre| - 1] <= 0x4F then pre[|pre| - 1]
    else LastRex(pre[..|pre| - 1])
  }

  /** What a run of prefixes stands for. */
  function PrefixesIn(pre: seq<byte>): Prefixes {
    var rex := LastRex(pre);
    Prefixes(rex != 0, rex / 8 % 2 == 1, rex / 4 % 2 == 1, rex / 2 % 2 == 1, rex % 2 == 1, 0x66 in pre, 0x67 in pre)
  }

  lemma {:induction false} OneMorePrefix(pre: seq<byte>, b: byte)
    requires PrefixByte(b)
    ensures WithPrefix(PrefixesIn(pre), b) == PrefixesIn(pre + [b])
    ensures IsPrefix(b)
  {
    assert (pre + [b])[..|pre|] == pre;
    assert forall x :: x in pre + [b] <==> x in pre || x == b;
  }

  lemma {:induction false} ScanFrom(code: seq<byte>, i: nat, k: nat)
    requires i <= k <= |code| && (forall j :: 0 <= j < k ==> PrefixByte(code[j]))
    requires k < |code| ==> !PrefixByte(code[k])
    ensures ScanPrefixes(code, i, PrefixesIn(code[..i]), 0xF0 in code[..i])
            == Scan(PrefixesIn(code[..k]), 0xF0 in code[..k], k)
    decreases k - i
  {
    hide PrefixesIn, WithPrefix, PrefixByte, IsPrefix;
    SamePrefixes();
    if i < k {
      OneMorePrefix(code[..i], code[i]);
      assert code[..i] + [code[i]] == code[..i + 1];
      assert 0xF0 in code[..i + 1] <==> 0xF0 in code[..i] || code[i] == 0xF0;
      ScanFrom(code, i + 1, k);
    }
  }

  lemma {:induction false} SamePrefixes()
    ensures forall b: byte :: PrefixByte(b) == IsPrefix(b)
  {
  }

  /** The scan stops behind the prefixes and keeps of them the last REX byte and whether there was a 66, a 67 and a
      LOCK. */
  lemma {:induction false} PrefixesMean(pre: seq<byte>, rest: seq<byte>)
    requires forall b :: b in pre ==> PrefixByte(b)
    requires rest != [] ==> !PrefixByte(rest[0])
    ensures ScanPrefixes(pre + rest, 0, NO_PREFIXES, false) == Scan(PrefixesIn(pre), 0xF0 in pre, |pre|)
  {
    hide PrefixByte;
    var code := pre + rest;
    assert code[..0] == [] && code[..|pre|] == pre;
    assert PrefixesIn([]) == NO_PREFIXES;
    ScanFrom(code, 0, |pre|);
  }

  // Instructions.

  /** The register or memory operand of a ModRM byte. */
  datatype Location = Direct(register: nat) | Memory(operand: Operand)

  /** The forms of the opcode map: a register with a register or memory, the accumulator with an immediate, and the
      immediate group 80, 81 and 83 on a register or memory. */
  datatype Shape =
    | WithRegister(wide: bool, toRegister: bool, register: nat, location: Location)
    | Accumulator(wide: bool, immediate: nat)
    | Group(opcode: byte, location: Location, immediate: nat)

  /** The row of the opcode map and the reg field of the group. */
  function Row(op: AluOp): (row: nat)
    ensures row < 8
  {
    match op
    case Add => 0
    case AndOp => 4
    case Sub => 5
    case Cmp => 7
  }

  function OpcodeByte(op: AluOp, f: Shape): byte {
    match f
    case WithRegister(wide, toRegister, _, _) =>
      8 * Row(op) + (if toRegister then 2 else 0) + if wide then 1 else 0
    case Accumulator(wide, _) => 8 * Row(op) + if wide then 5 else 4
    case Group(opcode, _, _) => opcode
  }

  /** A byte for byte forms and for 83, else a word or a dword. */
  function ImmediateBytes(f: Shape, p: Prefixes): nat {
    match f
    case WithRegister(_, _, _, _) => 0
    case Accumulator(wide, _) => if !wide then 1 else if p.operandSize && !p.rexW then 2 else 4
    case Group(opcode, _, _) => if opcode != 0x81 then 1 else if p.operandSize && !p.rexW then 2 else 4
  }

  function AddressBits(longCode: bool, p: Prefixes): nat {
    if longCode then if p.addressSize then 32 else 64 else if p.addressSize then 16 else 32
  }

  predicate LocationFits(location: Location, longCode: bool, p: Prefixes) {
    match location
    case Direct(register) => register < 16 && (register >= 8) == p.rexB
    case Memory(o) => Encodable(o, AddressBits(longCode, p))
  }

  /** The instruction can be written with these prefixes. */
  predicate ShapeFits(f: Shape, longCode: bool, p: Prefixes) {
    match f
    case WithRegister(_, _, register, location) =>
      register < 16 && (register >= 8) == p.rexR && LocationFits(location, longCode, p)
    case Accumulator(_, immediate) => immediate < Pow2(8 * ImmediateBytes(f, p))
    case Group(opcode, location, immediate) =>
      opcode in {0x80, 0x81, 0x83} && LocationFits(location, longCode, p) && immediate < Pow2(8 * ImmediateBytes(f, p))
  }

  /** LOCK is for the forms whose destination is memory, and not for CMP, which has none. */
  predicate LockFits(op: AluOp, f: Shape) {
    && op != Cmp
    && match f
       case WithRegister(_, toRegister, _, location) => !toRegister && location.Memory?
       case Accumulator(_, _) => false
       case Group(_, location, _) => location.Memory?
  }

  function LocationBytes(location: Location, reg: nat): seq<byte>
    requires reg < 8 && (location.Memory? ==> exists a :: Encodable(location.operand, a))
  {
    match location
    case Direct(register) => [0xC0 + reg * 8 + register % 8]
    case Memory(o) => Encoded(o, reg)
  }

  /** The bytes behind the prefixes. */
  function Encode(op: AluOp, f: Shape, longCode: bool, p: Prefixes): seq<byte>
    requires ShapeFits(f, longCode, p)
  {
    match f
    case WithRegister(_, _, register, location) => [OpcodeByte(op, f)] + LocationBytes(location, register % 8)
    case Accumulator(_, immediate) => [OpcodeByte(op, f)] + Bytes(immediate, ImmediateBytes(f, p))
    case Group(_, location, immediate) =>
      [OpcodeByte(op, f)] + LocationBytes(location, Row(op)) + Bytes(immediate, ImmediateBytes(f, p))
  }

  function LocationInst(location: Location, reg: nat, opcode: byte, longCode: bool, p: Prefixes): Inst
    requires reg < 8 && LocationFits(location, longCode, p)
  {
    match location
    case Direct(register) =>
      Inst(opcode, true, 0xC0 + reg * 8 + register % 8, 0, 0, 0, AddressBits(longCode, p), 0)
    case Memory(o) => Decoded(o, reg, opcode, AddressBits(longCode, p))
  }

  /** What decoding must find, but for the address. */
  function InstOf(op: AluOp, f: Shape, longCode: bool, p: Prefixes): Inst
    requires ShapeFits(f, longCode, p)
  {
    match f
    case WithRegister(_, _, register, location) => LocationInst(location, register % 8, OpcodeByte(op, f), longCode, p)
    case Accumulator(_, immediate) =>
      Inst(OpcodeByte(op, f), false, 0, 0, 0, immediate, AddressBits(longCode, p), 0)
    case Group(_, location, immediate) =>
      LocationInst(location, Row(op), OpcodeByte(op, f), longCode, p).(immediate := immediate)
  }

  // Decoding them.

  lemma {:induction false} LocationRoundTrip(location: Location, reg: nat, opcode: byte, longCode: bool, p: Prefixes,
      code: seq<byte>, offset: nat)
    requires reg < 8 && LocationFits(location, longCode, p)
    requires offset + |LocationBytes(location, reg)| <= |code|
    requires code[offset..offset + |LocationBytes(location, reg)|] == LocationBytes(location, reg)
    ensures ParseModrm(EmptyInst(opcode, AddressBits(longCode, p)), code, offset)
            == ModrmParse(true, LocationInst(location, reg, opcode, longCode, p),
                          offset + |LocationBytes(location, reg)|)
    ensures var inst := LocationInst(location, reg, opcode, longCode, p);
            && RegField(inst.modrm) == reg && (ModField(inst.modrm) == 3 <==> location.Direct?)
            && MemoryForm(inst) == location.Memory?
  {
    hide Encodable, Encoded, ModrmByte, AddressBits, ParseDisplacement, LittleEndian, SibByte;
    SlicedBytes(code, offset, LocationBytes(location, reg));
    match location
    case Direct(register) =>
      DirectFields(reg, register % 8);
      NoDisplacement(LocationInst(location, reg, opcode, longCode, p), code, offset + 1);
    case Memory(o) =>
      OperandRoundTrip(o, reg, opcode, AddressBits(longCode, p), code, offset);
      ModrmFields(o, reg, AddressBits(longCode, p));
      SizesAgree(o, reg, opcode, AddressBits(longCode, p));
  }

  lemma {:induction false} DirectFields(reg: nat, rm: nat)
    requires reg < 8 && rm < 8
    ensures var b := 0xC0 + reg * 8 + rm; b < 0x100 && b / 64 == 3 && b / 8 % 8 == reg && b % 8 == rm
  {
  }

  lemma {:induction false} NoDisplacement(inst: Inst, code: seq<byte>, offset: nat)
    requires offset <= |code| && ModField(inst.modrm) == 3
    ensures !HasSib(inst) && ParseDisplacement(inst, code, offset) == ModrmParse(true, inst, offset)
  {
    hide LittleEndian;
  }

  lemma {:induction false} ImmediateBack(
    p: Prefixes, inst: Inst, code: seq<byte>, offset: nat, n: nat, value: nat)
    requires value < Pow2(8 * n) && offset + n <= |code| && code[offset..offset + n] == Bytes(value, n)
    ensures ParseImmediate(p, None, inst, None, code, offset, n)
            == Parsed(p, None, inst.(immediate := value), None, true, offset + n)
  {
    hide Bytes, LittleEndian, Pow2;
    ValueOfBytes(value, n);
  }

  lemma {:induction false} OpcodeShapes(op: AluOp, f: Shape, longCode: bool, p: Prefixes)
    requires ShapeFits(f, longCode, p)
    ensures var opcode, form := OpcodeByte(op, f), OpcodeByte(op, f) - BaseOpcode(op);
            && opcode < 0x100 && !PrefixByte(opcode) && GroupNumber(op) == Row(op)
            && (!f.Group? ==> opcode !in {0x80, 0x81, 0x83})
            && (f.WithRegister? ==>
                  0 <= form <= 3 && (form in {2, 3} <==> f.toRegister) && (form in {1, 3} <==> f.wide))
            && (f.Accumulator? ==> form == if f.wide then 5 else 4)
            && (f.Group? ==> opcode == f.opcode && !(0 <= form <= 5))
    ensures AddressBits(longCode, p) == AddressSize(longCode, p)
  {
  }

  /** The bytes behind the opcode. */
  function Tail(op: AluOp, f: Shape, longCode: bool, p: Prefixes): seq<byte>
    requires ShapeFits(f, longCode, p)
  {
    match f
    case WithRegister(_, _, register, location) => LocationBytes(location, register % 8)
    case Accumulator(_, immediate) => Bytes(immediate, ImmediateBytes(f, p))
    case Group(_, location, immediate) => LocationBytes(location, Row(op)) + Bytes(immediate, ImmediateBytes(f, p))
  }

  lemma {:induction false} EncodeTail(op: AluOp, f: Shape, longCode: bool, p: Prefixes)
    requires ShapeFits(f, longCode, p)
    ensures Encode(op, f, longCode, p) == [OpcodeByte(op, f)] + Tail(op, f, longCode, p)
  {
    hide OpcodeByte, LocationBytes, Bytes;
  }

  /** LOCK where it does not belong, as the decoders see it; CMP has refused it before. */
  predicate LockRefused(f: Shape, lock: bool) {
    lock && match f
            case WithRegister(_, toRegister, _, location) => toRegister || location.Direct?
            case Accumulator(_, _) => true
            case Group(_, location, _) => location.Direct?
  }

  lemma {:induction false} RegisterParse(op: AluOp, f: Shape, longCode: bool, p: Prefixes, lock: bool, code: seq<byte>,
      offset: nat)
    requires ShapeFits(f, longCode, p) && f.WithRegister?
    requires offset + |Tail(op, f, longCode, p)| <= |code|
    requires code[offset..offset + |Tail(op, f, longCode, p)|] == Tail(op, f, longCode, p)
    ensures var start := EmptyInst(OpcodeByte(op, f), AddressSize(longCode, p));
            var parsed := ParseOperands(op, p, lock, None, start, code, offset);
            if LockRefused(f, lock) then parsed.early == Some(UD) || parsed.late == Some(UD)
            else parsed == Parsed(p, None, InstOf(op, f, longCode, p), None, true,
                                  offset + |Tail(op, f, longCode, p)|)
  {
    hide OpcodeByte, LocationBytes, LocationInst, LocationFits, ParseModrm, Bytes, ParseOperands, AddressSize,
      AddressBits, MemoryForm, ModField, RegField, BaseOpcode;
    OpcodeShapes(op, f, longCode, p);
    LocationRoundTrip(f.location, f.register % 8, OpcodeByte(op, f), longCode, p, code, offset);
    UnfoldOperands(op, p, lock, None, EmptyInst(OpcodeByte(op, f), AddressSize(longCode, p)), code, offset);
  }

  lemma {:induction false} AccumulatorParse(op: AluOp, f: Shape, longCode: bool, p: Prefixes, lock: bool,
      code: seq<byte>, offset: nat)
    requires ShapeFits(f, longCode, p) && f.Accumulator?
    requires offset + |Tail(op, f, longCode, p)| <= |code|
    requires code[offset..offset + |Tail(op, f, longCode, p)|] == Tail(op, f, longCode, p)
    ensures var start := EmptyInst(OpcodeByte(op, f), AddressSize(longCode, p));
            var parsed := ParseOperands(op, p, lock, None, start, code, offset);
            if LockRefused(f, lock) then parsed.early == Some(UD) || parsed.late == Some(UD)
            else parsed == Parsed(p, None, InstOf(op, f, longCode, p), None, true,
                                  offset + |Tail(op, f, longCode, p)|)
  {
    hide OpcodeByte, Bytes, ParseOperands, AddressSize, AddressBits, BaseOpcode, LittleEndian;
    OpcodeShapes(op, f, longCode, p);
    UnfoldOperands(op, p, lock, None, EmptyInst(OpcodeByte(op, f), AddressSize(longCode, p)), code, offset);
    ImmediateBack(p, EmptyInst(OpcodeByte(op, f), AddressSize(longCode, p)), code, offset, ImmediateBytes(f, p),
                  f.immediate);
  }

  lemma {:induction false} GroupParse(op: AluOp, f: Shape, longCode: bool, p: Prefixes, lock: bool, code: seq<byte>,
      offset: nat)
    requires ShapeFits(f, longCode, p) && f.Group?
    requires offset + |Tail(op, f, longCode, p)| <= |code|
    requires code[offset..offset + |Tail(op, f, longCode, p)|] == Tail(op, f, longCode, p)
    ensures var start := EmptyInst(OpcodeByte(op, f), AddressSize(longCode, p));
            var parsed := ParseOperands(op, p, lock, None, start, code, offset);
            if LockRefused(f, lock) then parsed.early == Some(UD) || parsed.late == Some(UD)
            else parsed == Parsed(p, None, InstOf(op, f, longCode, p), None, true,
                                  offset + |Tail(op, f, longCode, p)|)
  {
    hide OpcodeByte, LocationBytes, LocationInst, Encodable, ParseModrm, Bytes, ParseOperands, AddressSize, AddressBits,
      MemoryForm, ModField, RegField, BaseOpcode, LittleEndian, GroupNumber, Row, Pow2;
    OpcodeShapes(op, f, longCode, p);
    var head, rest := LocationBytes(f.location, Row(op)), Bytes(f.immediate, ImmediateBytes(f, p));
    SlicedRest(code, offset, head, rest);
    SlicedHead(code, offset, head, rest);
    LocationRoundTrip(f.location, Row(op), OpcodeByte(op, f), longCode, p, code, offset);
    UnfoldOperands(op, p, lock, None, EmptyInst(OpcodeByte(op, f), AddressSize(longCode, p)), code, offset);
    ImmediateBack(p, LocationInst(f.location, Row(op), OpcodeByte(op, f), longCode, p), code, offset + |head|,
                  ImmediateBytes(f, p), f.immediate);
  }

  lemma {:induction false} SlicedHead(code: seq<byte>, offset: nat, head: seq<byte>, rest: seq<byte>)
    requires offset + |head| + |rest| <= |code| && code[offset..offset + |head| + |rest|] == head + rest
    ensures code[offset..offset + |head|] == head
  {
    SlicedBytes(code, offset, head + rest);
    forall i | 0 <= i < |head|
      ensures code[offset + i] == head[i]
    {
      assert (head + rest)[i] == head[i];
    }
  }

  /** Decoding an encoding finds the instruction it encodes, in exactly its bytes, whatever follows; with a LOCK that
      does not belong there it finds #UD. */
  lemma {:induction false} EncodingRoundTrip(op: AluOp, f: Shape, longCode: bool, pre: seq<byte>, rest: seq<byte>)
    requires (forall b :: b in pre ==> PrefixByte(b)) && ShapeFits(f, longCode, PrefixesIn(pre))
    ensures var p := PrefixesIn(pre);
            var bytes := pre + Encode(op, f, longCode, p);
            var parsed := Parse(op, longCode, bytes + rest);
            if 0xF0 in pre && !LockFits(op, f) then parsed.early == Some(UD) || parsed.late == Some(UD)
            else parsed == Parsed(p, None, InstOf(op, f, longCode, p), None, true, |bytes|)
  {
    hide PrefixesIn, ShapeFits, InstOf, Encode, Tail, OpcodeByte, ParseOperands, ScanPrefixes, AddressSize, PrefixByte,
      Parse, BaseOpcode;
    var p := PrefixesIn(pre);
    var tail, bytes := Tail(op, f, longCode, p), pre + Encode(op, f, longCode, p);
    var code := bytes + rest;
    EncodeTail(op, f, longCode, p);
    OpcodeShapes(op, f, longCode, p);
    assert code == pre + ([OpcodeByte(op, f)] + tail + rest);
    PrefixesMean(pre, [OpcodeByte(op, f)] + tail + rest);
    UnfoldParse(op, longCode, code);
    assert code[|pre|] == OpcodeByte(op, f);
    assert code[|pre| + 1..|pre| + 1 + |tail|] == tail;
    if op == Cmp && 0xF0 in pre {
      EarlyStays(op, p, EmptyInst(OpcodeByte(op, f), AddressSize(longCode, p)), code, |pre| + 1);
    } else {
      LockFitsWhen(op, f, 0xF0 in pre);
      match f
      case WithRegister(_, _, _, _) => RegisterParse(op, f, longCode, p, 0xF0 in pre, code, |pre| + 1);
      case Accumulator(_, _) => AccumulatorParse(op, f, longCode, p, 0xF0 in pre, code, |pre| + 1);
      case Group(_, _, _) => GroupParse(op, f, longCode, p, 0xF0 in pre, code, |pre| + 1);
    }
  }

  lemma {:induction false} LockFitsWhen(op: AluOp, f: Shape, lock: bool)
    requires !(op == Cmp && lock)
    ensures LockRefused(f, lock) == (lock && !LockFits(op, f))
  {
  }

  lemma {:induction false} EarlyStays(op: AluOp, p: Prefixes, inst: Inst, code: seq<byte>, offset: nat)
    requires offset <= |code| && !inst.hasModrm
    ensures ParseOperands(op, p, false, Some(UD), inst, code, offset).early == Some(UD)
  {
    hide ParseModrm, LittleEndian;
  }

  // How many bytes.

  /** ModRM, SIB and displacement, by the tables of addressing forms. */
  function AddressingBytes(code: seq<byte>, at: nat, addressSize: nat): nat {
    if at >= |code| then 1
    else
      var mod, rm := code[at] / 64, code[at] % 8;
      if mod == 3 then 1
      else if addressSize == 16 then 1 + (if mod == 1 then 1 else if mod == 2 || rm == 5 then 2 else 0)
      else
        var sib := rm == 4;
        var noBase := mod == 0 && (if sib then at + 1 < |code| && code[at + 1] % 8 == 5 else rm == 5);
        1 + (if sib then 1 else 0) + (if mod == 1 then 1 else if mod == 2 || noBase then 4 else 0)
  }

  /** Opcode, operand and immediate, by the opcode alone. */
  function InstructionBytes(code: seq<byte>, at: nat, longCode: bool, p: Prefixes): nat
    requires at < |code|
  {
    var opcode := code[at];
    var immediate := if p.operandSize && !p.rexW then 2 else 4;
    if opcode < 0x80 then
      if opcode % 8 == 4 then 2
      else if opcode % 8 == 5 then 1 + immediate
      else 1 + AddressingBytes(code, at + 1, AddressBits(longCode, p))
    else 1 + AddressingBytes(code, at + 1, AddressBits(longCode, p)) + if opcode == 0x81 then immediate else 1
  }

  lemma {:induction false} ParsedModrm(inst: Inst, code: seq<byte>, offset: nat)
    requires offset <= |code| && !inst.hasModrm && inst.addressSize in {16, 32, 64} && inst.sib == 0
    requires ParseModrm(inst, code, offset).ok
    ensures var m := ParseModrm(inst, code, offset);
            m.offset == offset + AddressingBytes(code, offset, inst.addressSize)
  {
    hide LittleEndian, SignedDisplacement;
  }

  lemma {:induction false} ShapeLengths(op: AluOp, p: Prefixes, lock: bool, early: Option<ExceptionCode>, inst: Inst,
      code: seq<byte>, offset: nat, n: nat)
    requires offset <= |code| && !inst.hasModrm && inst.addressSize in {16, 32, 64} && inst.sib == 0
    ensures var q := ParseImmediate(p, early, inst, None, code, offset, n); Clean(q) ==> q.length == offset + n
    ensures var q := ParseGroup(op, p, lock, early, inst, code, offset, n);
            Clean(q) ==> q.length == offset + AddressingBytes(code, offset, inst.addressSize) + n
    ensures var q := ParseRegisterForm(p, lock, early, inst, code, offset);
            Clean(q) ==> q.length == offset + AddressingBytes(code, offset, inst.addressSize)
  {
    hide ParseModrm, AddressingBytes, LittleEndian, RegField, ModField;
    if ParseModrm(inst, code, offset).ok {
      ParsedModrm(inst, code, offset);
    }
  }

  lemma {:induction false} CleanLength(op: AluOp, p: Prefixes, lock: bool, early: Option<ExceptionCode>, inst: Inst,
      code: seq<byte>, offset: nat, longCode: bool)
    requires 0 < offset <= |code| && inst == EmptyInst(code[offset - 1], AddressSize(longCode, p))
    requires Clean(ParseOperands(op, p, lock, early, inst, code, offset))
    ensures ParseOperands(op, p, lock, early, inst, code, offset).length
            == offset - 1 + InstructionBytes(code, offset - 1, longCode, p)
  {
    hide ParseModrm, AddressingBytes, LittleEndian, RegField, ModField, ParseOperands, ParseGroup, ParseImmediate,
      ParseRegisterForm, First, When, AddressSize, AddressBits;
    var withLock := First(early, When(lock, UD));
    SizeIsOne(longCode, p);
    UnfoldOperands(op, p, lock, early, inst, code, offset);
    RefusedFails(early);
    ShapeLengths(op, p, lock, early, inst, code, offset, 1);
    ShapeLengths(op, p, lock, early, inst, code, offset, ImmediateSize(p));
    ShapeLengths(op, p, lock, withLock, inst, code, offset, 1);
    ShapeLengths(op, p, lock, withLock, inst, code, offset, ImmediateSize(p));
  }

  lemma {:induction false} SizeIsOne(longCode: bool, p: Prefixes)
    ensures AddressSize(longCode, p) == AddressBits(longCode, p) && AddressBits(longCode, p) in {16, 32, 64}
  {
  }

  lemma {:induction false} RefusedFails(early: Option<ExceptionCode>)
    ensures First(early, Some(UD)) != None
  {
  }

  /** The number of prefix bytes in front. */
  function PrefixRun(code: seq<byte>, i: nat): (n: nat)
    requires i <= |code|
    ensures i <= n <= |code| && (forall j :: i <= j < n ==> PrefixByte(code[j]))
    ensures n < |code| ==> !PrefixByte(code[n])
    decreases |code| - i
  {
    if i < |code| && PrefixByte(code[i]) then PrefixRun(code, i + 1) else i
  }

  /** A clean decode is as long as its bytes say: prefixes, opcode, ModRM, SIB, displacement and immediate, all of them
      there. */
  lemma {:induction false} LengthIsBytes(op: AluOp, longCode: bool, code: seq<byte>)
    requires Clean(Parse(op, longCode, code))
    ensures var n, parsed := PrefixRun(code, 0), Parse(op, longCode, code);
            && n < |code| && parsed.prefixes == PrefixesIn(code[..n])
            && parsed.length == n + InstructionBytes(code, n, longCode, parsed.prefixes) <= |code|
  {
    hide ScanPrefixes, ParseOperands, InstructionBytes, AddressSize, PrefixesIn, PrefixByte, Parse, PrefixRun;
    var n := PrefixRun(code, 0);
    assert code[..0] == [];
    NoPrefixes();
    ScanFrom(code, 0, n);
    UnfoldParse(op, longCode, code);
    FirstFails(When(op == Cmp && 0xF0 in code[..n], UD), code);
    IncompleteFaults(op, longCode, code);
    ParsedPrefixes(op, longCode, code);
    if n < |code| {
      CleanLength(op, PrefixesIn(code[..n]), 0xF0 in code[..n] && op != Cmp, When(op == Cmp && 0xF0 in code[..n], UD),
                  EmptyInst(code[n], AddressSize(longCode, PrefixesIn(code[..n]))), code, n + 1, longCode);
    }
  }

  lemma {:induction false} NoPrefixes()
    ensures PrefixesIn([]) == NO_PREFIXES
  {
  }

  lemma {:induction false} FirstFails(early: Option<ExceptionCode>, code: seq<byte>)
    ensures First(early, Some(GP)).Some?
  {
  }

  lemma {:induction false} ParsedPrefixes(op: AluOp, longCode: bool, code: seq<byte>)
    ensures Parse(op, longCode, code).prefixes == ScanPrefixes(code, 0, NO_PREFIXES, false).prefixes
  {
    hide ScanPrefixes, LittleEndian, ParseModrm;
  }
}
