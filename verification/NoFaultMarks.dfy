/** The two-byte opcodes that lose their snapshot whatever their operand is: the classifier tests their low byte as if
    it were a one-byte opcode, and takes it for a ModRM byte. */
module NoFaultMarks {
  import opened Bits
  import opened MemoryManagement
  import opened CpuState
  import opened Addressing
  import opened AluDecode
  import opened Decoder

  /** cpu_step_may_touch_vector_state, for a code of which n bytes are prefixes. */
  predicate TouchesVector(code: seq<byte>, n: nat, opc: nat)
    requires n <= |code|
  {
    if |code| == 0 then false
    else if code[0] == 0xC5 || code[0] == 0xC4 then true
    else if opc <= 0xFF then false
    else if
      || 0x0F40 <= opc <= 0x0F4F || 0x0F80 <= opc <= 0x0F8F || 0x0F90 <= opc <= 0x0F9F
      || opc in {0x0FA0, 0x0FA1, 0x0FA2, 0x0FA8, 0x0FA9, 0x0FAF, 0x0FB0, 0x0FB1, 0x0FB6, 0x0FB7, 0x0FBC, 0x0FBD}
      || opc in {0x0FBE, 0x0FBF, 0x0FA3, 0x0FAB, 0x0FB3, 0x0FBB, 0x0FBA, 0x0FC0, 0x0FC1}
      || 0x0FC8 <= opc <= 0x0FCF
      || opc in {0x0F00, 0x0F01, 0x0F05, 0x0F20, 0x0F22, 0x0F31, 0x0F33, 0x0F34, 0x0F1F, 0x0FC7, 0x0F1E}
    then false
    else if opc == 0x0F0D || opc == 0x0F18 || (opc == 0x0F2B && MandatoryPrefix(code, n) == 0) then opc == 0x0F2B
    else true
  }

  /** The entry of this opcode, if the ladder has a handler for it, runs without a snapshot. */
  predicate Spared(code: seq<byte>, n: nat, opc: nat)
    requires n <= |code|
  {
    ClassifyNoFault(code, n, opc) && !TouchesVector(code, n, opc) && !EscapeOwnedUd(opc)
  }

  /** The two-byte opcode with another operand behind it. */
  predicate MarkedWith(code: seq<byte>, n: nat, rest: seq<byte>)
    requires n + 2 <= |code|
  {
    ClassifyNoFault(code[..n + 2] + rest, n, 0x0F00 + code[n + 1] as nat)
  }

  predicate SparedWith(code: seq<byte>, n: nat, rest: seq<byte>)
    requires n + 2 <= |code|
  {
    Spared(code[..n + 2] + rest, n, 0x0F00 + code[n + 1] as nat)
  }

  /** The second bytes for which the low-byte tests need no operand: columns 4 and 5 of the first rows, NOPs, JNL, XADD,
      BSWAP, and D0 to D3, which are shifts as one-byte opcodes only. */
  predicate AlwaysMarked(b: byte) {
    (b <= 0x3F && b % 8 in {4, 5}) || b in {0x1E, 0x1F, 0x8D, 0xC0, 0xC1, 0xD0, 0xD1, 0xD2, 0xD3} || 0xC8 <= b <= 0xCF
  }

  /** Of those, the ones that do not get the snapshot of the vector state either, nor are refused. */
  predicate AlwaysSpared(b: byte) {
    b in {0x0D, 0x1E, 0x1F, 0x8D, 0xC0, 0xC1} || 0xC8 <= b <= 0xCF
  }

  /** No LOCK, and for the jump no 66 either. */
  predicate Plainly(prefixes: seq<byte>, b: byte) {
    0xF0 !in prefixes && (b == 0x8D ==> 0x66 !in prefixes)
  }

  lemma {:induction false} PrefixesOnly(code: seq<byte>, rest: seq<byte>, n: nat)
    requires n + 2 <= |code|
    ensures var other := code[..n + 2] + rest;
            && other[..n] == code[..n] && other[n] == code[n] && other[n + 1] == code[n + 1]
            && (rest == [] ==> |other| == n + 2)
            && (forall b: byte :: (forall i :: 0 <= i < n ==> other[i] != b) <==> b !in code[..n])
  {
    var other := code[..n + 2] + rest;
    assert other[..n] == code[..n];
    forall b: byte
      ensures (forall i :: 0 <= i < n ==> other[i] != b) <==> b !in code[..n]
    {
      forall i | 0 <= i < n ensures other[i] == code[..n][i] {
      }
    }
  }

  /** What the classifier says of 0F b, with or without an operand. */
  lemma {:induction false} TwoByteMark(code: seq<byte>, n: nat, b: byte)
    requires n + 2 <= |code| && code[n] == 0x0F && code[n + 1] == b
    ensures var opc := 0x0F00 + b as nat;
            var unlocked := (forall i :: 0 <= i < n ==> code[i] != 0xF0)
                            && (0x80 <= b <= 0x8F ==> forall i :: 0 <= i < n ==> code[i] != 0x66);
            && (ClassifyNoFault(code, n, opc) ==> unlocked)
            && (unlocked && AlwaysMarked(b) ==> ClassifyNoFault(code, n, opc))
            && (|code| == n + 2 && !AlwaysMarked(b) ==> !ClassifyNoFault(code, n, opc))
  {
    HighByteForm(b);
  }

  /** The second opcode byte as a ModRM byte. */
  lemma {:induction false} HighByteForm(b: byte)
    ensures ModField(b) == 3 <==> b >= 0xC0
    ensures b in {0xF6, 0xF7} ==> RegField(b) == 6
    ensures b in {0xFE, 0xFF} ==> RegField(b) == 7
    ensures RegField(b) != 0xFF
  {
  }

  /** Exactly these opcodes are marked whatever their operand. */
  lemma {:induction false} MarkedWhateverIff(code: seq<byte>, n: nat)
    requires n + 2 <= |code| && code[n] == 0x0F
    ensures (forall rest: seq<byte> :: MarkedWith(code, n, rest))
            <==> AlwaysMarked(code[n + 1]) && Plainly(code[..n], code[n + 1])
  {
    hide ClassifyNoFault, AlwaysMarked, Plainly;
    var b := code[n + 1];
    OnlyJump(b, code[..n]);
    forall rest: seq<byte>
      ensures AlwaysMarked(b) && Plainly(code[..n], b) ==> MarkedWith(code, n, rest)
    {
      PrefixesOnly(code, rest, n);
      TwoByteMark(code[..n + 2] + rest, n, b);
    }
    if forall rest: seq<byte> :: MarkedWith(code, n, rest) {
      assert MarkedWith(code, n, []);
      PrefixesOnly(code, [], n);
      TwoByteMark(code[..n + 2] + [], n, b);
    }
  }

  lemma {:induction false} OnlyJump(b: byte, prefixes: seq<byte>)
    ensures AlwaysMarked(b) ==>
              (Plainly(prefixes, b) <==> 0xF0 !in prefixes && (0x80 <= b <= 0x8F ==> 0x66 !in prefixes))
  {
  }

  lemma {:induction false} PrefixIsNoVex(mode: nat, code: seq<byte>)
    requires var n := PrefixLength(mode, code, 0); n + 2 <= |code| && code[n] == 0x0F
    ensures code[0] != 0xC4 && code[0] != 0xC5
  {
  }

  /** Which of the marked opcodes the vector test and the refusals leave. */
  lemma {:induction false} SparedOfMarked(code: seq<byte>, n: nat, b: byte)
    requires n + 2 <= |code| && code[0] != 0xC4 && code[0] != 0xC5 && AlwaysMarked(b)
    ensures AlwaysSpared(b) <==> !TouchesVector(code, n, 0x0F00 + b as nat) && !EscapeOwnedUd(0x0F00 + b as nat)
  {
    hide MandatoryPrefix;
  }

  lemma {:induction false} SparedIsMarked(b: byte)
    ensures AlwaysSpared(b) ==> AlwaysMarked(b)
  {
  }

  /** Exactly these opcodes lose their snapshot whatever their operand: PREFETCHW, ENDBR and the long NOP, JNL with a
      long displacement, XADD and BSWAP. */
  lemma {:induction false} SparedWhateverIff(mode: nat, code: seq<byte>)
    requires var n := PrefixLength(mode, code, 0); n + 2 <= |code| && code[n] == 0x0F
    ensures var n := PrefixLength(mode, code, 0);
            (forall rest: seq<byte> :: SparedWith(code, n, rest))
            <==> AlwaysSpared(code[n + 1]) && Plainly(code[..n], code[n + 1])
  {
    hide ClassifyNoFault, AlwaysMarked, AlwaysSpared, Plainly, TouchesVector, EscapeOwnedUd, PrefixLength;
    var n := PrefixLength(mode, code, 0);
    var b := code[n + 1];
    PrefixIsNoVex(mode, code);
    MarkedWhateverIff(code, n);
    SparedIsMarked(b);
    forall rest: seq<byte>
      ensures SparedWith(code, n, rest) <==> MarkedWith(code, n, rest) && (AlwaysMarked(b) ==> AlwaysSpared(b))
                                             && (!AlwaysMarked(b) ==> SparedWith(code, n, rest))
    {
      PrefixesOnly(code, rest, n);
      SameStart(code, rest, n);
      if AlwaysMarked(b) {
        SparedOfMarked(code[..n + 2] + rest, n, b);
      }
    }
    if forall rest: seq<byte> :: SparedWith(code, n, rest) {
      forall rest: seq<byte> ensures MarkedWith(code, n, rest) {
        assert SparedWith(code, n, rest);
      }
      assert SparedWith(code, n, []);
    }
    if AlwaysSpared(b) && Plainly(code[..n], b) {
      forall rest: seq<byte> ensures SparedWith(code, n, rest) {
        assert MarkedWith(code, n, rest);
      }
    }
  }

  lemma {:induction false} SameStart(code: seq<byte>, rest: seq<byte>, n: nat)
    requires n + 2 <= |code|
    ensures (code[..n + 2] + rest)[0] == code[0]
  {
  }
}
