/** XADD, LEAVE, RDFSBASE, RDGSBASE and the direct forms of MOV from their bytes: what their legacy handlers decode, and
    the body they then run. */
module HandlerBytes {
  import opened Bits
  import opened MemoryManagement
  import opened CpuState
  import opened LinearMemory
  import opened Flags
  import opened Addressing
  import opened AluDecode
  import opened AluExecute
  import opened Decoder
  import opened Executor
  import opened Replay
  import opened OpenedEntries
  import opened Operands
  import opened Encodings
  import opened Meanings
  import FsBase
  import Leave
  import Moffs
  import Xadd

  // Prefixes, for decoders that leave REX to 64-bit code.

  lemma {:induction false} ModalFrom(rex: bool, code: seq<byte>, i: nat, k: nat)
    requires i <= k <= |code| && PrefixRunFor(code[..k], rex)
    requires k < |code| ==> !PrefixByte(code[k])
    ensures ScanModal(rex, code, i, PrefixesIn(code[..i]), 0xF0 in code[..i])
            == Scan(PrefixesIn(code[..k]), 0xF0 in code[..k], k)
    decreases k - i
  {
    hide PrefixesIn, WithPrefix;
    if i < k {
      assert code[..k][i] == code[i] && code[i] in code[..k];
      OneMorePrefix(code[..i], code[i]);
      assert code[..i] + [code[i]] == code[..i + 1];
      assert 0xF0 in code[..i + 1] <==> 0xF0 in code[..i] || code[i] == 0xF0;
      ModalFrom(rex, code, i + 1, k);
    }
  }

  lemma {:induction false} ModalMeans(rex: bool, pre: seq<byte>, rest: seq<byte>)
    requires PrefixRunFor(pre, rex) && (rest != [] ==> !PrefixByte(rest[0]))
    ensures ScanModal(rex, pre + rest, 0, NO_PREFIXES, false) == Scan(PrefixesIn(pre), 0xF0 in pre, |pre|)
  {
    hide PrefixByte;
    var code := pre + rest;
    assert code[..0] == [] && code[..|pre|] == pre;
    NoPrefixes();
    ModalFrom(rex, code, 0, |pre|);
  }

  // LEAVE.

  /** C9 behind any prefixes: two bytes with 66, else eight in 64-bit code and four outside it, over a frame pointer of
      64 bits in 64-bit code, 32 with 67, and outside it of 16 or 32 bits as SS.B says, the other one with 67. With
      LOCK it raises #UD. */
  lemma {:induction false} LeaveFromBytes(m: Machine, pre: seq<byte>, rest: seq<byte>)
    requires !Pending(m.cpu) && PrefixRunFor(pre, Is64BitCode(m.cpu))
    ensures var operandSize: Width := if 0x66 in pre then 16 else if Is64BitCode(m.cpu) then 64 else 32;
            var stackSize: Width := if Is64BitCode(m.cpu) then if 0x67 in pre then 32 else 64
                                    else if m.cpu.scalar.segments.ss.db then if 0x67 in pre then 16 else 32
                                    else if 0x67 in pre then 32 else 16;
            var ran := Leave.LegacyLeave(m, pre + [0xC9] + rest);
            if 0xF0 in pre then ran.cpu.exception == Exception(UD, 0) && ran.mem == m.mem
            else ran == Leave.LeaveBody(m.(cpu := Ready(m.cpu, PrefixesIn(pre), |pre| + 1)), operandSize, stackSize)
  {
    hide ScanModal, LastRex, Is64BitCode, Leave.LeaveBody, PrefixRunFor;
    assert pre + [0xC9] + rest == pre + ([0xC9] + rest);
    ModalMeans(Is64BitCode(m.cpu), pre, [0xC9] + rest);
    assert (pre + [0xC9] + rest)[|pre|] == 0xC9;
    UnfoldReadyState(m.cpu, PrefixesIn(pre), |pre| + 1);
  }

  // RDFSBASE and RDGSBASE.

  function BaseSeen(pre: seq<byte>): FsBase.BaseScan {
    FsBase.BaseScan(PrefixesIn(pre).(operandSize := false), 0xF0 in pre, 0xF3 in pre, 0x66 in pre || 0xF2 in pre,
                    |pre|)
  }

  lemma {:induction false} OneMoreSeen(pre: seq<byte>, b: byte)
    requires PrefixByte(b)
    ensures FsBase.NextScan(BaseSeen(pre), b) == BaseSeen(pre + [b])
  {
    assert (pre + [b])[..|pre|] == pre;
    assert forall x :: x in pre + [b] <==> x in pre || x == b;
  }

  lemma {:induction false} BaseFrom(rex: bool, code: seq<byte>, i: nat, k: nat)
    requires i <= k <= |code| && PrefixRunFor(code[..k], rex)
    requires k < |code| ==> !PrefixByte(code[k])
    ensures FsBase.ScanBase(rex, code, BaseSeen(code[..i])) == BaseSeen(code[..k])
    decreases k - i
  {
    hide PrefixesIn, FsBase.NextScan;
    if i < k {
      assert code[..k][i] == code[i] && code[i] in code[..k];
      OneMoreSeen(code[..i], code[i]);
      assert code[..i] + [code[i]] == code[..i + 1];
      BaseFrom(rex, code, i + 1, k);
    }
  }

  lemma {:induction false} BaseMeans(rex: bool, pre: seq<byte>, rest: seq<byte>)
    requires PrefixRunFor(pre, rex) && (rest != [] ==> !PrefixByte(rest[0]))
    ensures FsBase.ScanBase(rex, pre + rest, FsBase.NO_SCAN) == BaseSeen(pre)
  {
    hide PrefixByte;
    var code := pre + rest;
    assert code[..0] == [] && code[..|pre|] == pre;
    NoPrefixes();
    BaseFrom(rex, code, 0, |pre|);
  }

  /** The instruction may run: F3 and neither LOCK, 66 nor F2, a long code segment, the feature and CR4.FSGSBASE, and a
      register operand under reg field 0 or 1. */
  predicate BaseAllowed(c: Cpu, feature: bool, pre: seq<byte>, modrm: byte) {
    && 0xF3 in pre && 0xF0 !in pre && 0x66 !in pre && 0xF2 !in pre
    && c.scalar.segments.cs.longMode && feature && c.scalar.controlRegs[4] / 0x1_0000 % 2 == 1
    && modrm / 64 == 3 && modrm / 8 % 8 <= 1
  }

  /** F3 0F AE behind and among any prefixes: the base goes to the register, or #UD is raised. */
  lemma {:induction false} BaseFromBytes(m: Machine, feature: bool, pre: seq<byte>, modrm: byte, rest: seq<byte>)
    requires !Pending(m.cpu) && PrefixRunFor(pre, Is64BitCode(m.cpu))
    ensures var ran := FsBase.LegacyBase(m, feature, pre + [0x0F, 0xAE, modrm] + rest);
            if BaseAllowed(m.cpu, feature, pre, modrm) then
              ran == m.(cpu := FsBase.ReadBase(Ready(m.cpu, PrefixesIn(pre), |pre| + 3), modrm))
            else ran.cpu.exception == Exception(UD, 0) && ran.mem == m.mem
  {
    hide LastRex, Is64BitCode, PrefixRunFor, FsBase.ScanBase, FsBase.ReadBase;
    var code := pre + [0x0F, 0xAE, modrm] + rest;
    assert code == pre + ([0x0F, 0xAE, modrm] + rest);
    BaseMeans(Is64BitCode(m.cpu), pre, [0x0F, 0xAE, modrm] + rest);
    assert code[|pre|] == 0x0F && code[|pre| + 1] == 0xAE && code[|pre| + 2] == modrm;
    if BaseAllowed(m.cpu, feature, pre, modrm) {
      BaseStamped(m.cpu, pre, |pre| + 3);
    }
    BaseChecks(m.cpu, feature, pre, code, modrm);
    BaseRuns(m, feature, pre, code);
  }

  lemma {:induction false} BaseStamped(c: Cpu, pre: seq<byte>, length: nat)
    requires 0x66 !in pre
    ensures StampSize(Stamp(c, BaseSeen(pre).prefixes), length) == Ready(c, PrefixesIn(pre), length)
  {
    hide LastRex;
  }

  lemma {:induction false} BaseChecks(c: Cpu, feature: bool, pre: seq<byte>, code: seq<byte>, modrm: byte)
    requires |pre| + 3 <= |code|
    requires code[|pre|] == 0x0F && code[|pre| + 1] == 0xAE && code[|pre| + 2] == modrm
    ensures FsBase.BaseFault(c, feature, BaseSeen(pre), code)
            == if BaseAllowed(c, feature, pre, modrm) then None else Some(UD)
  {
    hide PrefixesIn;
  }

  lemma {:induction false} BaseRuns(m: Machine, feature: bool, pre: seq<byte>, code: seq<byte>)
    requires !Pending(m.cpu) && |pre| + 3 <= |code|
    requires FsBase.ScanBase(Is64BitCode(m.cpu), code, FsBase.NO_SCAN) == BaseSeen(pre)
    ensures var fault, ran := FsBase.BaseFault(m.cpu, feature, BaseSeen(pre), code),
                FsBase.LegacyBase(m, feature, code);
            && (fault == None ==>
                  ran == m.(cpu := FsBase.ReadBase(StampSize(Stamp(m.cpu, BaseSeen(pre).prefixes), |pre| + 3),
                                                   code[|pre| + 2])))
            && (fault == Some(UD) ==> ran.cpu.exception == Exception(UD, 0) && ran.mem == m.mem)
  {
    hide FsBase.BaseFault, FsBase.ScanBase, FsBase.ReadBase, Is64BitCode, PrefixesIn;
  }

  // The direct forms of MOV.

  /** A0 to A3 with an offset as wide as addresses are. */
  function DirectBytes(opcode: byte, offset: nat, longCode: bool, p: Prefixes): (bs: seq<byte>)
    ensures bs != []
  {
    [opcode] + Bytes(offset, AddressBits(longCode, p) / 8)
  }

  /** The override in force, or DS. */
  function DirectSegment(c: Cpu): SegmentName {
    match c.scalar.segmentOverride
    case NoOverride => SegDS
    case Override(name) => name
  }

  lemma {:induction false} DirectParse(longCode: bool, pre: seq<byte>, opcode: byte, offset: nat, rest: seq<byte>)
    requires (forall b :: b in pre ==> PrefixByte(b)) && 0xA0 <= opcode <= 0xA3
    requires offset < Pow2(AddressBits(longCode, PrefixesIn(pre)))
    ensures var p := PrefixesIn(pre);
            Moffs.ParseMoffs(longCode, pre + DirectBytes(opcode, offset, longCode, p) + rest)
            == Moffs.MoffsParse(p, if 0xF0 in pre then Some(UD) else None, true, opcode, offset,
                                |pre| + 1 + AddressBits(longCode, p) / 8)
  {
    hide ScanPrefixes, LastRex, PrefixesIn, Bytes, LittleEndian, Pow2, AddressSize, AddressBits;
    var p := PrefixesIn(pre);
    var n := AddressBits(longCode, p) / 8;
    var code := pre + DirectBytes(opcode, offset, longCode, p) + rest;
    assert code == pre + (DirectBytes(opcode, offset, longCode, p) + rest);
    NoDirectPrefix(opcode);
    PrefixesMean(pre, DirectBytes(opcode, offset, longCode, p) + rest);
    SizeIsOne(longCode, p);
    assert code[|pre|] == opcode;
    assert code[|pre| + 1..|pre| + 1 + n] == Bytes(offset, n);
    assert 8 * n == AddressBits(longCode, p);
    ValueOfBytes(offset, n);
  }

  lemma {:induction false} NoDirectPrefix(opcode: byte)
    requires 0xA0 <= opcode <= 0xA3
    ensures !PrefixByte(opcode)
  {
  }

  lemma {:induction false} DirectRuns(m: Machine, code: seq<byte>, p: Moffs.MoffsParse, address: u64)
    requires !Pending(m.cpu) && p == Moffs.ParseMoffs(m.cpu.scalar.segments.cs.longMode, code) && p.complete
    requires p.fault in {None, Some(UD)} && address == Moffs.MoffsAddress(m.cpu, p)
    ensures var ran := Moffs.LegacyMoffs(m, code);
            if p.fault == Some(UD) then ran.cpu.exception == Exception(UD, 0) && ran.mem == m.mem
            else if Is64BitCode(m.cpu) && !Canonical(address) then
              ran.cpu.exception == Exception(if DirectSegment(m.cpu) == SegSS then SS else GP, 0) && ran.mem == m.mem
            else ran == Moffs.MoffsBody(m.(cpu := Ready(m.cpu, p.prefixes, p.length)), p, address)
  {
    hide Moffs.ParseMoffs, Moffs.MoffsBody, Moffs.MoffsAddress, Canonical;
  }

  /** They load from or store to the offset on top of the base of the segment, and raise #UD with LOCK, or #SS or #GP
      where 64-bit code would leave the canonical range. */
  lemma {:induction false} DirectFromBytes(m: Machine, pre: seq<byte>, opcode: byte, offset: nat, rest: seq<byte>)
    requires !Pending(m.cpu) && (forall b :: b in pre ==> PrefixByte(b)) && 0xA0 <= opcode <= 0xA3
    requires offset < Pow2(AddressBits(m.cpu.scalar.segments.cs.longMode, PrefixesIn(pre)))
    ensures var longCode, p := m.cpu.scalar.segments.cs.longMode, PrefixesIn(pre);
            var length := |pre| + 1 + AddressBits(longCode, p) / 8;
            var address: u64 := (offset + BaseOf(m.cpu, DirectSegment(m.cpu))) % 0x1_0000_0000_0000_0000;
            var ran := Moffs.LegacyMoffs(m, pre + DirectBytes(opcode, offset, longCode, p) + rest);
            if 0xF0 in pre then ran.cpu.exception == Exception(UD, 0) && ran.mem == m.mem
            else if Is64BitCode(m.cpu) && !Canonical(address) then
              ran.cpu.exception == Exception(if DirectSegment(m.cpu) == SegSS then SS else GP, 0) && ran.mem == m.mem
            else ran == Moffs.MoffsBody(m.(cpu := Ready(m.cpu, p, length)),
                                        Moffs.MoffsParse(p, None, true, opcode, offset, length), address)
  {
    hide *;
    var longCode, p := m.cpu.scalar.segments.cs.longMode, PrefixesIn(pre);
    var code := pre + DirectBytes(opcode, offset, longCode, p) + rest;
    DirectParse(longCode, pre, opcode, offset, rest);
    DirectAddress(m.cpu, Moffs.ParseMoffs(longCode, code));
    DirectRuns(m, code, Moffs.ParseMoffs(longCode, code), Moffs.MoffsAddress(m.cpu, Moffs.ParseMoffs(longCode, code)));
  }

  lemma {:induction false} DirectAddress(c: Cpu, p: Moffs.MoffsParse)
    ensures Moffs.MoffsAddress(c, p) == (p.offset + BaseOf(c, DirectSegment(c))) % 0x1_0000_0000_0000_0000
  {
    hide BaseOf, SegmentBase;
    BasesAgree(c, DirectSegment(c));
  }

  // XADD.

  /** 0F C0 and 0F C1 with a register and a register or memory. */
  function XaddBytes(wide: bool, register: nat, location: Location): (bs: seq<byte>)
    requires location.Memory? ==> exists a :: Encodable(location.operand, a)
    ensures bs != []
  {
    [0x0F, if wide then 0xC1 else 0xC0] + LocationBytes(location, register % 8)
  }

  lemma {:induction false} XaddParsed(longCode: bool, pre: seq<byte>, wide: bool, register: nat, location: Location,
      rest: seq<byte>)
    requires (forall b :: b in pre ==> PrefixByte(b)) && 0xF0 !in pre
    requires LocationFits(location, longCode, PrefixesIn(pre))
    ensures var p, opcode := PrefixesIn(pre), if wide then 0xC1 else 0xC0;
            var bytes := pre + XaddBytes(wide, register, location);
            Xadd.ParseXadd(longCode, bytes + rest)
            == Parsed(p, None, LocationInst(location, register % 8, opcode, longCode, p), None, true, |bytes|)
  {
    hide ScanPrefixes, LastRex, PrefixesIn, ParseModrm, AddressSize, AddressBits, LocationInst, LocationBytes,
      Encodable, PrefixByte, MemoryForm, ModField;
    var p, opcode := PrefixesIn(pre), if wide then 0xC1 else 0xC0;
    var tail, bytes := LocationBytes(location, register % 8), pre + XaddBytes(wide, register, location);
    var code := bytes + rest;
    assert code == pre + (XaddBytes(wide, register, location) + rest);
    EscapeIsNoPrefix();
    PrefixesMean(pre, XaddBytes(wide, register, location) + rest);
    SizeIsOne(longCode, p);
    assert code[|pre|] == 0x0F && code[|pre| + 1] == opcode;
    assert code[|pre| + 2..|pre| + 2 + |tail|] == tail;
    LocationRoundTrip(location, register % 8, opcode, longCode, p, code, |pre| + 2);
  }

  lemma {:induction false} EscapeIsNoPrefix()
    ensures !PrefixByte(0x0F)
  {
  }

  /** What decoding does to the context when parse and address are in order. */
  lemma {:induction false} CleanEffects(c: Cpu, p: Parsed)
    requires !Pending(c) && Clean(p) && Addressable(c, p.inst, p.length)
    ensures Effects(c, p) == StampSize(c, p.length)
  {
    hide ValidateOperand, MemoryForm, RipRelative, Addressable, Pending;
    SameForm(p.inst, p.inst);
    if MemoryForm(p.inst) {
      PassesChecks(c, p.inst, p.length);
    }
  }

  /** The handler of XADD runs its body on the decoded operands. */
  lemma {:induction false} XaddRuns(m: Machine, code: seq<byte>)
    requires !Pending(m.cpu)
    requires var p := Xadd.ParseXadd(m.cpu.scalar.segments.cs.longMode, code);
             Clean(p) && Addressable(Ready(m.cpu, p.prefixes, p.length), p.inst, p.length)
    ensures var p := Xadd.ParseXadd(m.cpu.scalar.segments.cs.longMode, code);
            var t := Ready(m.cpu, p.prefixes, p.length);
            Xadd.LegacyXadd(m, code) == Xadd.Exchange(m.(cpu := t), Live(t, p.inst, p.length))
  {
    hide Xadd.ParseXadd, Xadd.Exchange, Effects, LinearAddress, MemoryForm, Addressable, Pending, Ready;
    var p := Xadd.ParseXadd(m.cpu.scalar.segments.cs.longMode, code);
    var s := Stamp(m.cpu, p.prefixes);
    StampPending(m.cpu, p.prefixes);
    UnfoldReadyState(m.cpu, p.prefixes, p.length);
    StampedAddressable(s, p.inst, p.length);
    StampedValidate(s, p.inst, p.length, p.length);
    CleanEffects(s, p);
  }

  /** XADD without LOCK from its bytes: its body runs with the prefixes and the size known, on the register operand the
      bytes name and at the address of their memory operand; that body is `Xadd.ExchangesAndAdds` and
      `Xadd.ExchangesRegisters` in numbers. */
  lemma {:induction false} XaddFromBytes(m: Machine, pre: seq<byte>, wide: bool, register: nat, location: Location,
      rest: seq<byte>)
    requires !Pending(m.cpu) && WellFormed(Add, WithRegister(wide, false, register, location), pre, m.cpu)
    requires 0xF0 !in pre
    requires var f, length := WithRegister(wide, false, register, location),
                 |pre + XaddBytes(wide, register, location)|;
             var longCode, t := m.cpu.scalar.segments.cs.longMode, Ready(m.cpu, PrefixesIn(pre), length);
             UsesMemory(f) && Is64BitCode(m.cpu) ==>
               Canonical(AddressOf(t, f, longCode, length))
               && (location.operand.Relative? ==> Canonical(AddressOf(t, f, longCode, 0)))
    ensures var f, bytes := WithRegister(wide, false, register, location),
                pre + XaddBytes(wide, register, location);
            var longCode, p := m.cpu.scalar.segments.cs.longMode, PrefixesIn(pre);
            var t := Ready(m.cpu, p, |bytes|);
            var inst := LocationInst(location, register % 8, if wide then 0xC1 else 0xC0, longCode, p);
            Xadd.LegacyXadd(m, bytes + rest)
            == Xadd.Exchange(m.(cpu := t), inst.(memAddress := AddressOf(t, f, longCode, |bytes|)))
  {
    hide *;
    var f := WithRegister(wide, false, register, location);
    var longCode, p := m.cpu.scalar.segments.cs.longMode, PrefixesIn(pre);
    UnfoldWellFormed(Add, f, pre, m);
    UnfoldRegisterShape(f, longCode, p);
    var bytes := pre + XaddBytes(wide, register, location);
    var t := Ready(m.cpu, p, |bytes|);
    var inst := LocationInst(location, register % 8, if wide then 0xC1 else 0xC0, longCode, p);
    XaddParsed(longCode, pre, wide, register, location, rest);
    CleanParsed(p, inst, |bytes|);
    UnfoldReadyState(m.cpu, p, |bytes|);
    XaddAddress(t, f, longCode, p, |bytes|, if wide then 0xC1 else 0xC0);
    XaddRuns(m, bytes + rest);
  }

  lemma {:induction false} UnfoldRegisterShape(f: Shape, longCode: bool, p: Prefixes)
    requires ShapeFits(f, longCode, p) && f.WithRegister?
    ensures LocationFits(f.location, longCode, p)
    ensures f.location.Memory? ==> exists a :: Encodable(f.location.operand, a)
  {
    hide Encodable;
  }

  lemma {:induction false} XaddAddress(t: Cpu, f: Shape, longCode: bool, p: Prefixes, length: nat, opcode: byte)
    requires f.WithRegister? && t.scalar.prefixes == p && longCode == t.scalar.segments.cs.longMode
    requires LocationFits(f.location, longCode, p)
    requires UsesMemory(f) ==> RexMatches(f.location.operand, p, Is64BitCode(t))
    requires UsesMemory(f) && Is64BitCode(t) ==>
               Canonical(AddressOf(t, f, longCode, length))
               && (f.location.operand.Relative? ==> Canonical(AddressOf(t, f, longCode, 0)))
    ensures var inst := LocationInst(f.location, f.register % 8, opcode, longCode, p);
            && Addressable(t, inst, length)
            && Live(t, inst, length) == inst.(memAddress := AddressOf(t, f, longCode, length))
  {
    hide LinearAddress, Canonical, Is64BitCode, RexMatches, EffectiveSegment, OffsetOf, BaseOf, SegmentFor, Decoded,
      RipRelative, MemoryForm, AddressBits, Encodable;
    LocationParts(f.location, f.register % 8, opcode, longCode, p);
    NoAddressYet(f.location, f.register % 8, opcode, longCode, p);
    if UsesMemory(f) {
      var o, a, reg := f.location.operand, AddressBits(longCode, p), f.register % 8;
      var inst := LocationInst(f.location, reg, opcode, longCode, p);
      SameDecoded(o, reg, opcode, a, inst, f);
      ShortIsNot64(t, longCode, p);
      OperandAddress(t, o, reg, opcode, a, inst, length);
      OperandAddress(t, o, reg, opcode, a, inst, 0);
    }
  }
}
