/** What a register operand is: which bits of which register an instruction reads, and which it writes. */
module RegisterParts {
  import opened Bits
  import opened CpuState
  import opened Flags
  import opened Addressing

  /** AH, CH, DH and BH: byte registers 4 to 7 of an instruction without a REX prefix. */
  predicate HighByte(c: Cpu, r: nat, w: Width) {
    w == 8 && !c.scalar.prefixes.rexPresent && 4 <= r < 8
  }

  /** The register behind a register operand. */
  function Holder(c: Cpu, r: nat, w: Width): nat {
    if HighByte(c, r, w) then r - 4 else r
  }

  /** A register with a part of it replaced: 64- and 32-bit writes replace the whole, with zeros above a dword; 16-bit
      writes keep the upper 48 bits, byte writes everything but the byte. */
  function Replaced(held: u64, w: Width, high: bool, value: nat): int {
    if w == 64 || w == 32 then value
    else if w == 16 then held / 0x1_0000 * 0x1_0000 + value
    else if high then held / 0x1_0000 * 0x1_0000 + value * 0x100 + held % 0x100
    else held / 0x100 * 0x100 + value
  }

  /** A word with its w low bits replaced, and the bits above them as they were. */
  function LowReplaced(held: u64, w: Width, value: nat): int {
    held / Modulus(w) * Modulus(w) + value
  }

  /** The 16 registers an encoding can name; the upper eight need a REX prefix. */
  predicate Named(c: Cpu, r: nat) {
    r < 16 && (r >= 8 ==> c.scalar.prefixes.rexPresent)
  }

  lemma {:induction false} ReadsPart(c: Cpu, r: nat, w: Width)
    requires Named(c, r)
    ensures GetReg(c, r, w)
            == if HighByte(c, r, w) then c.scalar.regs[r - 4] / 0x100 % 0x100 else c.scalar.regs[r] % Modulus(w)
  {
    hide Modulus;
  }

  /** A write to a register operand replaces its part of one register and touches nothing else. */
  lemma {:induction false} WritesPart(c: Cpu, r: nat, w: Width, value: nat)
    requires Named(c, r) && value < Modulus(w)
    ensures var h := Holder(c, r, w);
            var part := Replaced(c.scalar.regs[h], w, HighByte(c, r, w), value);
            && 0 <= part < 0x1_0000_0000_0000_0000
            && SetReg(c, r, w, value) == c.(scalar := c.scalar.(regs := c.scalar.regs[h := part]))
  {
    var h := Holder(c, r, w);
    var held: u64 := c.scalar.regs[h];
    if HighByte(c, r, w) {
      MiddleByte(held, value);
    } else if w == 8 {
      LowBytes(held, 0x100, value);
    } else if w == 16 {
      LowBytes(held, 0x1_0000, value);
    }
  }

  lemma {:induction false} MiddleByte(x: u64, value: nat)
    requires value < 0x100
    ensures var y := x / 0x1_0000 * 0x1_0000 + value * 0x100 + x % 0x100;
            && 0 <= y < 0x1_0000_0000_0000_0000
            && Wrap(x - x / 0x100 % 0x100 * 0x100 + value * 0x100) == y
  {
    DivUnique(x / 0x100, 0x100, x / 0x1_0000, x / 0x100 % 0x100);
    assert x == x / 0x1_0000 * 0x1_0000 + x / 0x100 % 0x100 * 0x100 + x % 0x100;
    var y := x / 0x1_0000 * 0x1_0000 + value * 0x100 + x % 0x100;
    DivUnique(y, 0x1_0000_0000_0000_0000, 0, y);
  }

  lemma {:induction false} LowBytes(x: u64, d: nat, value: nat)
    requires d in {0x100, 0x1_0000} && value < d
    ensures 0 <= x / d * d + value < 0x1_0000_0000_0000_0000
    ensures Wrap(x - x % d + value) == x / d * d + value
  {
    var y := x / d * d + value;
    DivUnique(y, 0x1_0000_0000_0000_0000, 0, y);
  }

  /** Replacing the low part of a word stays within a word, at each of the widths a pointer can have. */
  lemma {:induction false} LowReplacedIs(held: u64, w: Width, value: nat)
    requires w != 8 && value < Modulus(w)
    ensures 0 <= LowReplaced(held, w, value) < 0x1_0000_0000_0000_0000
    ensures Wrap(held - held % Modulus(w) + value) == LowReplaced(held, w, value)
    ensures w == 64 ==> LowReplaced(held, w, value) == value
  {
    hide Modulus;
    DivUnique(held, Modulus(w), held / Modulus(w), held % Modulus(w));
    FitsAbove(w, held, value);
    var next := held - held % Modulus(w) + value;
    DivUnique(next, 0x1_0000_0000_0000_0000, 0, next);
  }

  lemma {:induction false} FitsAbove(w: Width, held: u64, value: nat)
    requires w != 8 && value < Modulus(w)
    ensures 0 <= held / Modulus(w) * Modulus(w) + value < 0x1_0000_0000_0000_0000
    ensures w == 64 ==> held / Modulus(w) == 0
  {
    if w == 16 {
      assert held / 0x1_0000 <= 0xFFFF_FFFF_FFFF;
    } else if w == 32 {
      assert held / 0x1_0000_0000 <= 0xFFFF_FFFF;
    }
  }
}
