/** BEXTR, BZHI and RORX, bit by bit. */
module BitFields {
  import opened Bits
  import opened BitString

  predicate Width(size: nat) {
    size == 32 || size == 64
  }

  /** (1 << n) - 1, for fewer than 64 bits. */
  function Ones(n: nat): u64 {
    if n >= 64 then WORD - 1 else Wrap(Shl(1, n) - 1)
  }

  function RotateRight(source: u64, count: byte, size: nat): nat
    requires Width(size)
  {
    var amount := count % size;
    var value := source % Pow2(size);
    if amount == 0 then value else Or(Shr(value, amount), Wrap(Shl(value, size - amount))) % Pow2(size)
  }

  function Bextr(source: u64, control: u64, size: nat): nat {
    var start, length := control % 0x100, control / 0x100 % 0x100;
    if length == 0 || start >= size then 0
    else And(Shr(source, start), Ones(if length < size - start then length else size - start))
  }

  /** The result and CF. */
  function Bzhi(source: u64, control: u64, size: nat): (nat, bool) {
    var index := control % 0x100;
    if index >= size then (source % Pow2(size), true)
    else if index == 0 then (0, false)
    else (And(source, Ones(index)), false)
  }

  lemma {:induction false} BitOfShr(x: nat, k: nat, i: nat)
    ensures Bit(Shr(x, k), i) == Bit(x, k + i)
    decreases k
  {
    if k > 0 { BitOfShr(x / 2, k - 1, i); }
  }

  lemma {:induction false} BitOfShl(x: nat, k: nat, i: nat)
    ensures Bit(Shl(x, k), i) == (i >= k && Bit(x, i - k))
    decreases k
  {
    if k > 0 && i > 0 {
      assert Shl(x, k) / 2 == Shl(x, k - 1);
      BitOfShl(x, k - 1, i - 1);
    }
  }

  lemma {:induction false} BitOfOnes(n: nat, i: nat)
    requires n <= 64
    ensures Bit(Ones(n), i) == (i < n)
  {
    hide Bit, Shl, Pow2;
    WordIsPow2();
    MaskIsPow2(n);
    Pow2Monotone(n, 64);
    LowOnes(n, i);
  }

  lemma {:induction false} LowOnes(n: nat, i: nat)
    ensures Bit(Pow2(n) - 1, i) == (i < n)
    decreases n
  {
    if n == 0 {
      BitOfZero(i);
    } else if i > 0 {
      assert (Pow2(n) - 1) / 2 == Pow2(n - 1) - 1;
      LowOnes(n - 1, i - 1);
    }
  }

  lemma {:induction false} BitOfMod(x: nat, n: nat, i: nat)
    ensures Bit(x % Pow2(n), i) == (i < n && Bit(x, i))
  {
    hide Bit, Pow2;
    if i < n {
      BitModPow2(x, n, i);
    } else {
      BitAboveWidth(x % Pow2(n), n, i);
    }
  }

  /** BEXTR: bit i of the result is bit start + i of the source, within the length and the operand. */
  lemma {:induction false} BextrBits(source: u64, control: u64, size: nat, i: nat)
    requires Width(size)
    ensures Bit(Bextr(source, control, size), i)
            == (i < control / 0x100 % 0x100 && control % 0x100 + i < size && Bit(source, control % 0x100 + i))
  {
    hide Bit, Ones, Shr, And;
    var start, length := control % 0x100, control / 0x100 % 0x100;
    BitOfZero(i);
    if length != 0 && start < size {
      var used := if length < size - start then length else size - start;
      BitOfAnd(Shr(source, start), Ones(used), i);
      BitOfShr(source, start, i);
      BitOfOnes(used, i);
    }
  }

  /** BZHI keeps the bits below the index, and CF says that the index reaches past the operand. */
  lemma {:induction false} BzhiBits(source: u64, control: u64, size: nat, i: nat)
    requires Width(size)
    ensures var (result, carry) := Bzhi(source, control, size);
            Bit(result, i) == (i < control % 0x100 && i < size && Bit(source, i)) && carry == (control % 0x100 >= size)
  {
    hide Bit, Ones, And, Pow2;
    var index := control % 0x100;
    BitOfZero(i);
    BitOfMod(source, size, i);
    if 0 < index < size {
      BitOfAnd(source, Ones(index), i);
      BitOfOnes(index, i);
    }
  }

  lemma {:induction false} BitOfWrap(x: nat, i: nat)
    ensures Bit(Wrap(x), i) == (i < 64 && Bit(x, i))
  {
    hide Bit, Pow2;
    WordIsPow2();
    BitOfMod(x, 64, i);
  }

  /** RORX: bit i of the result is bit i + count of the source, around the operand. */
  lemma {:induction false} RotateBits(source: u64, count: byte, size: nat, i: nat)
    requires Width(size) && i < size
    ensures Bit(RotateRight(source, count, size), i) == Bit(source, (i + count) % size)
    ensures RotateRight(source, count, size) < Pow2(size)
  {
    hide Bit, Shr, Shl, Or, Pow2, Wrap;
    var amount, value := count % size, source % Pow2(size);
    AroundWidth(i, count, size);
    BitOfMod(source, size, i);
    if amount != 0 {
      var high := Wrap(Shl(value, size - amount));
      BitOfMod(Or(Shr(value, amount), high), size, i);
      BitOfOr(Shr(value, amount), high, i);
      BitOfShr(value, amount, i);
      BitOfWrap(Shl(value, size - amount), i);
      BitOfShl(value, size - amount, i);
      BitOfMod(source, size, amount + i);
      if i >= size - amount {
        BitOfMod(source, size, i - (size - amount));
      }
    }
  }

  lemma {:induction false} AroundWidth(i: nat, count: nat, size: nat)
    requires Width(size) && i < size
    ensures (i + count) % size == if i + count % size < size then i + count % size else i + count % size - size
  {
  }
}
