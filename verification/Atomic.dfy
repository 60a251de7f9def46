/** The compare-and-swap loop behind LOCK INC, DEC, OR, XOR, XADD, BTS, BTR, BTC and XCHG, run by any number of threads:
    an ordinary read, then swaps until one succeeds. */
module Atomic {
  import opened Bits
  import opened MemoryManagement

  /** The callbacks of the loop. LOCK INC and XADD add, LOCK DEC subtracts, LOCK OR, LOCK XOR and XCHG have their own;
      the one for AND has no caller. LOCK BTS, BTR and BTC run the same loop with a bit number as operand. LOCK ADD,
      SUB and AND do not use it: see PlainRmw. */
  datatype Op = AddOp(operand: u64) | SubOp(operand: u64) | AndOp(operand: u64) | OrOp(operand: u64)
              | XorOp(operand: u64) | ExchangeOp(operand: u64)
              | SetBitOp(operand: u64) | ResetBitOp(operand: u64) | FlipBitOp(operand: u64)

  predicate OperandSize(size: nat) {
    size == 8 || size == 16 || size == 32 || size == 64
  }

  /** One more than the operand mask. */
  function Modulus(size: nat): (m: nat)
    ensures m > 0
  {
    if size == 8 then 0x100 else if size == 16 then 0x1_0000 else if size == 32 then 0x1_0000_0000 else WORD
  }

  /** The callback computes on 64-bit words, whatever the operand size. */
  function Callback(op: Op, current: u64): u64 {
    match op
    case AddOp(operand) => Wrap(current + operand)
    case SubOp(operand) => Wrap(current - operand)
    case AndOp(operand) => Wrap(And(current, operand))
    case OrOp(operand) => Wrap(Or(current, operand))
    case XorOp(operand) => Wrap(Xor(current, operand))
    case ExchangeOp(operand) => operand
    case SetBitOp(operand) => Wrap(Or(current, Wrap(Shl(1, operand))))
    case ResetBitOp(operand) => Wrap(And(current, WORD - 1 - Wrap(Shl(1, operand))))
    case FlipBitOp(operand) => Wrap(Xor(current, Wrap(Shl(1, operand))))
  }

  function Result(op: Op, current: nat, size: nat): (new_: nat)
    ensures new_ < Modulus(size)
  {
    Callback(op, Wrap(current)) % Modulus(size)
  }

  // Threads.

  /** Between its read and its successful swap a thread holds the value it believes the word to have. */
  datatype Phase = Idle | Retrying(op: Op, current: nat)

  datatype Done = Done(thread: nat, op: Op, before: nat, after: nat)

  /** The shared word, the threads, and the completed operations in the order of their swaps. */
  datatype Shared = Shared(word: nat, threads: seq<Phase>, history: seq<Done>)

  /** Begin reads the word without locking it, so the value may be stale or torn: it is any value. Cas is one trip
      round the loop. Fault gives up because no write pointer could be had. */
  datatype Action = Begin(thread: nat, op: Op, read: nat) | Cas(thread: nat) | Fault(thread: nat)

  /** The atomic swap: the word seen, and whether it was the expected one. */
  function CompareExchange(word: nat, expected: nat, desired: nat): (nat, bool, nat) {
    (if word == expected then desired else word, word == expected, word)
  }

  function Try(s: Shared, t: nat, op: Op, current: nat, size: nat): Shared
    requires t < |s.threads|
  {
    var desired := Result(op, current, size);
    var (word, swapped, observed) := CompareExchange(s.word, current, desired);
    if swapped then Shared(word, s.threads[t := Idle], s.history + [Done(t, op, current, desired)])
    else s.(threads := s.threads[t := Retrying(op, observed % Modulus(size))])
  }

  function Next(s: Shared, a: Action, size: nat): Shared {
    if a.thread >= |s.threads| then s
    else
      match (a, s.threads[a.thread])
      case (Begin(t, op, read), Idle) => s.(threads := s.threads[t := Retrying(op, read % Modulus(size))])
      case (Cas(t), Retrying(op, current)) => Try(s, t, op, current, size)
      case (Fault(t), Retrying(_, _)) => s.(threads := s.threads[t := Idle])
      case _ => s
  }

  function Run(s: Shared, actions: seq<Action>, size: nat): Shared
    decreases |actions|
  {
    if actions == [] then s else Run(Next(s, actions[0], size), actions[1..], size)
  }

  /** Doing the operations one after the other, nobody else around. */
  function Fold(word: nat, history: seq<Done>, size: nat): nat
    decreases |history|
  {
    if history == [] then word
    else Result(history[|history| - 1].op, Fold(word, history[..|history| - 1], size), size)
  }

  /** Each completed operation saw exactly what the ones before it had left, and left its own result. */
  ghost predicate Linear(word: nat, history: seq<Done>, size: nat) {
    forall i :: 0 <= i < |history| ==>
      history[i].before == Fold(word, history[..i], size) && history[i].after == Fold(word, history[..i + 1], size)
  }

  /** The state of a run that started with this word and no completed operation. */
  ghost predicate Consistent(word: nat, s: Shared, size: nat) {
    s.word == Fold(word, s.history, size) && Linear(word, s.history, size) && s.word < Modulus(size)
  }

  lemma {:induction false} LinearAppend(word: nat, history: seq<Done>, d: Done, size: nat)
    requires Linear(word, history, size)
    requires d.before == Fold(word, history, size) && d.after == Result(d.op, d.before, size)
    ensures Linear(word, history + [d], size) && Fold(word, history + [d], size) == d.after
  {
    var longer := history + [d];
    assert longer[..|history|] == history && longer[..|longer|] == longer;
    forall i | 0 <= i < |longer|
      ensures longer[i].before == Fold(word, longer[..i], size) && longer[i].after == Fold(word, longer[..i + 1], size)
    {
      if i < |history| {
        assert longer[..i] == history[..i] && longer[..i + 1] == history[..i + 1];
      }
    }
  }

  lemma {:induction false} NextConsistent(word: nat, s: Shared, a: Action, size: nat)
    requires Consistent(word, s, size)
    ensures Consistent(word, Next(s, a, size), size)
  {
    hide Linear, Fold, Callback, Modulus;
    if a.Cas? && a.thread < |s.threads| && s.threads[a.thread].Retrying? {
      var op, current := s.threads[a.thread].op, s.threads[a.thread].current;
      if s.word == current {
        LinearAppend(word, s.history, Done(a.thread, op, current, Result(op, current, size)), size);
      }
    }
  }

  /** The loop is atomic: under every interleaving, with reads as stale or torn as one likes, the word is what the
      completed operations leave when done one by one in the order of their swaps, and each of them got back the
      value its predecessors left. */
  lemma {:induction false} LockIsAtomic(word: nat, s: Shared, actions: seq<Action>, size: nat)
    requires Consistent(word, s, size)
    ensures Consistent(word, Run(s, actions, size), size)
    decreases |actions|
  {
    hide Consistent, Next;
    if actions != [] {
      NextConsistent(word, s, actions[0], size);
      LockIsAtomic(word, Next(s, actions[0], size), actions[1..], size);
    }
  }

  lemma {:induction false} FreshConsistent(word: nat, threads: seq<Phase>, size: nat)
    requires word < Modulus(size)
    ensures Consistent(word, Shared(word, threads, []), size)
  {
  }

  // What that means for ADD and for XCHG.

  ghost predicate OnlyAdds(history: seq<Done>) {
    forall i :: 0 <= i < |history| ==> history[i].op.AddOp?
  }

  function SumOperands(history: seq<Done>): nat
    decreases |history|
  {
    if history == [] then 0 else SumOperands(history[..|history| - 1]) + history[|history| - 1].op.operand
  }

  lemma {:induction false} WrapMod(x: int, size: nat)
    requires OperandSize(size)
    ensures Wrap(x) % Modulus(size) == x % Modulus(size)
  {
    var q, r := x / 0x1_0000_0000_0000_0000, Wrap(x);
    assert x == q * 0x1_0000_0000_0000_0000 + r;
    if size == 8 {
      DivUnique(x, 0x100, q * 0x100_0000_0000_0000 + r / 0x100, r % 0x100);
    } else if size == 16 {
      DivUnique(x, 0x1_0000, q * 0x1_0000_0000_0000 + r / 0x1_0000, r % 0x1_0000);
    } else if size == 32 {
      DivUnique(x, 0x1_0000_0000, q * 0x1_0000_0000 + r / 0x1_0000_0000, r % 0x1_0000_0000);
    }
  }

  lemma {:induction false} ModPlus(x: int, y: int, m: nat)
    requires m > 0
    ensures (x % m + y) % m == (x + y) % m
  {
    var q := (x % m + y) / m;
    assert x + y == m * (x / m + q) + (x % m + y) % m by {
      assert m * (x / m + q) == m * (x / m) + m * q;
    }
    DivUnique(x + y, m, x / m + q, (x % m + y) % m);
  }

  lemma {:induction false} AddResult(current: nat, operand: u64, sum: nat, word: nat, size: nat)
    requires OperandSize(size) && current == (word + sum) % Modulus(size)
    ensures Result(AddOp(operand), current, size) == (word + (sum + operand)) % Modulus(size)
  {
    hide Modulus, Wrap;
    WrapMod(Wrap(current) + operand, size);
    WrapMod(current, size);
    ModPlus(Wrap(current), operand, Modulus(size));
    ModPlus(current, operand, Modulus(size));
    ModPlus(word + sum, operand, Modulus(size));
  }

  /** No addition is lost: the word ends as its first value plus every completed operand, modulo the size. */
  lemma {:induction false} AddsAllCount(word: nat, history: seq<Done>, size: nat)
    requires OperandSize(size) && word < Modulus(size) && OnlyAdds(history)
    ensures Fold(word, history, size) == (word + SumOperands(history)) % Modulus(size)
    decreases |history|
  {
    hide Result, Modulus;
    if history == [] {
      SmallMod(word, size);
    } else {
      var n := |history| - 1;
      AddsAllCount(word, history[..n], size);
      AddResult(Fold(word, history[..n], size), history[n].op.operand, SumOperands(history[..n]), word, size);
    }
  }

  lemma {:induction false} SmallMod(word: nat, size: nat)
    requires word < Modulus(size)
    ensures word % Modulus(size) == word
  {
  }

  ghost predicate OnlyExchanges(history: seq<Done>) {
    forall i :: 0 <= i < |history| ==> history[i].op.ExchangeOp?
  }

  function Desired(history: seq<Done>, size: nat): (m: multiset<nat>)
    decreases |history|
  {
    if history == [] then multiset{}
    else Desired(history[..|history| - 1], size) + multiset{history[|history| - 1].op.operand % Modulus(size)}
  }

  function Returned(history: seq<Done>): (m: multiset<nat>)
    decreases |history|
  {
    if history == [] then multiset{} else Returned(history[..|history| - 1]) + multiset{history[|history| - 1].before}
  }

  lemma {:induction false} LinearPrefix(word: nat, history: seq<Done>, n: nat, size: nat)
    requires Linear(word, history, size) && n <= |history|
    ensures Linear(word, history[..n], size)
  {
    var first := history[..n];
    forall i | 0 <= i < n
      ensures first[i].before == Fold(word, first[..i], size) && first[i].after == Fold(word, first[..i + 1], size)
    {
      assert first[..i] == history[..i] && first[..i + 1] == history[..i + 1];
    }
  }

  /** XCHG neither loses nor duplicates a value: what was there and what was put in is what was taken out and
      what is there now. */
  lemma {:induction false} ExchangesConserve(word: nat, history: seq<Done>, size: nat)
    requires Linear(word, history, size) && OnlyExchanges(history)
    ensures multiset{word} + Desired(history, size) == Returned(history) + multiset{Fold(word, history, size)}
    decreases |history|
  {
    hide Modulus;
    if history != [] {
      var n := |history| - 1;
      LinearPrefix(word, history, n, size);
      ExchangesConserve(word, history[..n], size);
      assert history[..n + 1] == history;
      assert history[n].before == Fold(word, history[..n], size);
    }
  }

  /** Both, over whole runs: from any word, under any interleaving. */
  lemma {:induction false} RunsConserve(word: nat, threads: seq<Phase>, actions: seq<Action>, size: nat)
    requires OperandSize(size) && word < Modulus(size)
    ensures var late := Run(Shared(word, threads, []), actions, size);
            && (OnlyAdds(late.history) ==> late.word == (word + SumOperands(late.history)) % Modulus(size))
            && (OnlyExchanges(late.history) ==>
                  multiset{word} + Desired(late.history, size) == Returned(late.history) + multiset{late.word})
  {
    hide Run, Fold, Modulus, Linear;
    FreshConsistent(word, threads, size);
    LockIsAtomic(word, Shared(word, threads, []), actions, size);
    var history := Run(Shared(word, threads, []), actions, size).history;
    if OnlyAdds(history) {
      AddsAllCount(word, history, size);
    }
    if OnlyExchanges(history) {
      ExchangesConserve(word, history, size);
    }
  }

  // Retries.

  ghost predicate NotBy(actions: seq<Action>, t: nat) {
    forall i :: 0 <= i < |actions| ==> actions[i].thread != t
  }

  /** Entries from position k on: none by the thread, and one of them changed the word unless it is as it was. */
  ghost predicate OthersWrote(s: Shared, k: nat, t: nat, word: nat) {
    && k <= |s.history|
    && (forall i :: k <= i < |s.history| ==> s.history[i].thread != t)
    && (s.word != word ==> exists i :: k <= i < |s.history| && s.history[i].before != s.history[i].after)
  }

  lemma {:induction false} NextOthers(s: Shared, a: Action, size: nat, t: nat, k: nat, word: nat)
    requires a.thread != t && t < |s.threads| && OthersWrote(s, k, t, word)
    ensures var after := Next(s, a, size);
            && |after.threads| == |s.threads| && after.threads[t] == s.threads[t] && OthersWrote(after, k, t, word)
  {
    hide Result, Modulus;
    var after := Next(s, a, size);
    if a.Cas? && a.thread < |s.threads| && s.threads[a.thread].Retrying? && s.word == s.threads[a.thread].current {
      var n := |s.history|;
      assert after.history[n].before == s.word && after.history[n].after == after.word;
      if s.word != word {
        var i :| k <= i < |s.history| && s.history[i].before != s.history[i].after;
        assert after.history[i] == s.history[i];
      }
    }
  }

  lemma {:induction false} RunOthers(s: Shared, actions: seq<Action>, size: nat, t: nat, k: nat, word: nat)
    requires NotBy(actions, t) && t < |s.threads| && OthersWrote(s, k, t, word)
    ensures var after := Run(s, actions, size);
            && |after.threads| == |s.threads| && after.threads[t] == s.threads[t] && OthersWrote(after, k, t, word)
    decreases |actions|
  {
    hide OthersWrote, Next;
    if actions != [] {
      NextOthers(s, actions[0], size, t, k, word);
      RunOthers(Next(s, actions[0], size), actions[1..], size, t, k, word);
    }
  }

  /** A thread that has seen the word as it is, then finds its swap refused, has been overtaken: since then some
      other thread completed an operation that changed the word. Every retry is paid for by another's success. */
  lemma {:induction false} RetryMeansProgress(s: Shared, actions: seq<Action>, size: nat, t: nat)
    requires t < |s.threads| && s.threads[t].Retrying? && s.threads[t].current == s.word && NotBy(actions, t)
    requires var late := Run(s, actions, size); |Next(late, Cas(t), size).history| == |late.history|
    ensures var late := Run(s, actions, size);
            exists i :: |s.history| <= i < |late.history| && late.history[i].thread != t
                        && late.history[i].before != late.history[i].after
  {
    hide Result, Modulus, Run;
    RunOthers(s, actions, size, t, |s.history|, s.word);
    var late := Run(s, actions, size);
    assert late.word != s.word;
    var i :| |s.history| <= i < |late.history| && late.history[i].before != late.history[i].after;
  }

  /** Left alone, a thread is done after two tries, whatever its first read gave it. */
  lemma {:induction false} TwoTriesSuffice(s: Shared, t: nat, size: nat)
    requires t < |s.threads| && s.threads[t].Retrying? && s.word < Modulus(size)
    ensures var once := Next(s, Cas(t), size);
            var twice := Next(once, Cas(t), size);
            twice.threads[t] == Idle && |twice.history| == |s.history| + 1
  {
    hide Result;
    SmallMod(s.word, size);
  }

  // The loop of one thread.

  /** The host word, which other threads may change between any two accesses. */
  class Cell {
    var word: nat

    constructor (value: nat)
      ensures word == value
    {
      word := value;
    }

    method Swap(expected: nat, desired: nat) returns (swapped: bool, observed: nat)
      modifies this
      ensures (word, swapped, observed) == CompareExchange(old(word), expected, desired)
    {
      observed, swapped := word, word == expected;
      if swapped {
        word := desired;
      }
    }
  }

  /** What the word holds at a try: what others wrote just before it, if they did, else what was there. */
  function FoundAt(word: nat, script: seq<nat>, n: nat): nat
    decreases n
  {
    if |script| == 0 then word else if n < |script| then script[n] else script[|script| - 1]
  }

  /** cpu_atomic_rmw_memory. Before each try the other threads write the next value of a script; after the script
      they are quiet. The operation acts on the value found at the successful try and returns it. */
  method AtomicRmw(cell: Cell, op: Op, size: nat, read: nat, script: seq<nat>)
    returns (before: nat, after: nat, tries: nat)
    requires cell.word < Modulus(size) && forall i :: 0 <= i < |script| ==> script[i] < Modulus(size)
    modifies cell
    ensures 0 < tries <= |script| + 2
    ensures before == FoundAt(old(cell.word), script, tries - 1)
    ensures after == Result(op, before, size) && cell.word == after
  {
    hide Result, Modulus;
    var current: nat := read % Modulus(size);
    tries := 0;
    while true
      invariant tries <= |script| + 1 && cell.word < Modulus(size)
      invariant cell.word == if tries == 0 then old(cell.word) else FoundAt(old(cell.word), script, tries - 1)
      invariant tries > |script| ==> current == cell.word
      decreases |script| + 2 - tries
    {
      if tries < |script| {
        cell.word := script[tries];
      }
      tries := tries + 1;
      var desired := Result(op, current, size);
      var swapped, observed := cell.Swap(current, desired);
      if swapped {
        return current, desired, tries;
      }
      SmallMod(observed, size);
      current := observed % Modulus(size);
    }
  }
}
